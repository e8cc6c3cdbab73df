/** Token conservation in the ledger as it is implemented, with its operations interleaved step by step. */
module LedgerConservation {
  import opened LedgerSpec
  import opened Wrappers
  import TokenLedger
  import TokenTransfer

  /** The copies of token x that operations in effect have put. */
  ghost function Put(threads: seq<TokenLedger.Thread>, x: Token): nat {
    if threads == [] then 0 else PutBy(threads[0], x) + Put(threads[1..], x)
  }

  ghost function PutBy(t: TokenLedger.Thread, x: Token): nat {
    if TokenLedger.Effective(t.pc) && t.op.PutToken? && t.op.token == x then 1 else 0
  }

  /** The copies of token x that operations in effect have removed and will return, or have returned. */
  ghost function Taken(threads: seq<TokenLedger.Thread>, x: Token): nat {
    if threads == [] then 0 else TakenBy(threads[0], x) + Taken(threads[1..], x)
  }

  ghost function TakenBy(t: TokenLedger.Thread, x: Token): nat {
    if TokenLedger.Effective(t.pc) && t.op.RemoveToken? && t.result == Some(x) then 1 else 0
  }

  lemma {:induction false} ThreadUpdate(threads: seq<TokenLedger.Thread>, w: nat, t: TokenLedger.Thread, x: Token)
    requires w < |threads|
    ensures Put(threads[w := t], x) == Put(threads, x) - PutBy(threads[w], x) + PutBy(t, x)
    ensures Taken(threads[w := t], x) == Taken(threads, x) - TakenBy(threads[w], x) + TakenBy(t, x)
  {
    if w == 0 {
      assert threads[w := t][1..] == threads[1..];
    } else {
      ThreadUpdate(threads[1..], w - 1, t, x);
      assert threads[w := t][1..] == threads[1..][w - 1 := t];
    }
  }

  lemma {:induction false} NothingInEffect(threads: seq<TokenLedger.Thread>, x: Token)
    requires forall w :: 0 <= w < |threads| ==> !TokenLedger.Effective(threads[w].pc)
    ensures Put(threads, x) == 0 && Taken(threads, x) == 0
  {
    if threads != [] {
      NothingInEffect(threads[1..], x);
    }
  }

  lemma StepConserves(s: TokenLedger.State, w: nat, n: nat, x: Token)
    requires TokenLedger.Inv(s) && TokenLedger.Enabled(s, w) && s.threads[w].op.addr < n
    ensures var t := TokenLedger.Next(s, w);
            TokenTransfer.Queued(t.queues, n, x) + Taken(t.threads, x) + Put(s.threads, x)
            == TokenTransfer.Queued(s.queues, n, x) + Taken(s.threads, x) + Put(t.threads, x)
  {
    var t := TokenLedger.Next(s, w);
    TokenLedger.NextShape(s, w);
    TokenLedger.StepRefines(s, w);
    ThreadUpdate(s.threads, w, t.threads[w], x);
    TokenTransfer.ApplyMovesOneToken(s.queues, s.threads[w].op, n, x);
  }

  ghost predicate OperatesWithin(threads: seq<TokenLedger.Thread>, n: nat) {
    forall w :: 0 <= w < |threads| ==> threads[w].op.addr < n
  }

  /** In every run of the ledger, what is queued and what has been taken out make up what was queued at the start
      and what has been put in, for each token. */
  lemma {:induction false} LedgerConserves(states: seq<TokenLedger.State>, schedule: seq<nat>, i: nat, n: nat, x: Token)
    requires TokenLedger.IsRun(states, schedule) && i < |states|
    requires OperatesWithin(states[0].threads, n)
    ensures OperatesWithin(states[i].threads, n)
    ensures TokenTransfer.Queued(states[i].queues, n, x) + Taken(states[i].threads, x)
            == TokenTransfer.Queued(states[0].queues, n, x) + Put(states[i].threads, x)
  {
    if i == 0 {
      NothingInEffect(states[0].threads, x);
    } else {
      LedgerConserves(states, schedule, i - 1, n, x);
      TokenLedger.RunKeepsInv(states, schedule, i - 1);
      TokenLedger.NextShape(states[i - 1], schedule[i - 1]);
      StepConserves(states[i - 1], schedule[i - 1], n, x);
    }
  }

  // ---------- first in, first out ----------

  /** The tokens that a sequence of operations puts into the queue of address a, in their order. */
  function PutInto(ops: seq<Op>, a: Address): seq<Token> {
    if ops == [] then []
    else PutInto(ops[..|ops| - 1], a) + PutNow(ops[|ops| - 1], a)
  }

  function PutNow(op: Op, a: Address): seq<Token> {
    if op.PutToken? && op.addr == a then [op.token] else []
  }

  /** The tokens that they take out of it, in their order. */
  function TakenFrom(ops: seq<Op>, results: seq<Result>, a: Address): seq<Token>
    requires |results| == |ops|
  {
    if ops == [] then []
    else TakenFrom(ops[..|ops| - 1], results[..|ops| - 1], a) + TakenNow(ops[|ops| - 1], results[|ops| - 1], a)
  }

  function TakenNow(op: Op, result: Result, a: Address): seq<Token> {
    if op.RemoveToken? && op.addr == a && result.Some? then [result.value] else []
  }

  /** Tokens leave a queue in the order in which they have entered it. */
  lemma {:induction false} FirstInFirstOut(q: Queues, ops: seq<Op>, queues: Queues, results: seq<Result>, a: Address)
    requires TokenLedger.ReplayYields(q, ops, queues, results)
    ensures TakenFrom(ops, results, a) + QueueOf(queues, a) == QueueOf(q, a) + PutInto(ops, a)
  {
    if ops != [] {
      var n := |ops| - 1;
      var before := TokenLedger.Replay(q, ops[..n]);
      ReplayPrefix(q, ops, queues, results);
      FirstInFirstOut(q, ops[..n], before, results[..n], a);
      assert results[n] == TokenLedger.ReplayedResult(q, ops, n);
      LastOperation(before, ops[n], a);
      Chain(TakenFrom(ops[..n], results[..n], a), TakenNow(ops[n], results[n], a), QueueOf(q, a), QueueOf(before, a),
            QueueOf(queues, a), PutInto(ops[..n], a), PutNow(ops[n], a));
    }
  }

  lemma Chain(taken: seq<Token>, out: seq<Token>, start: seq<Token>, before: seq<Token>, now: seq<Token>,
              put: seq<Token>, into: seq<Token>)
    requires taken + before == start + put && out + now == before + into
    ensures (taken + out) + now == start + (put + into)
  {
    assert (taken + out) + now == taken + (out + now) == (taken + before) + into;
  }

  /** A remove comes back empty-handed only from an empty queue. */
  lemma EmptyHanded(q: Queues, ops: seq<Op>, queues: Queues, results: seq<Result>, k: nat)
    requires TokenLedger.ReplayYields(q, ops, queues, results) && k < |ops|
    requires ops[k].RemoveToken?
    ensures results[k].None? <==> QueueOf(TokenLedger.Replay(q, ops[..k]), ops[k].addr) == []
  {
    assert results[k] == TokenLedger.ReplayedResult(q, ops, k);
  }

  lemma LastOperation(q: Queues, op: Op, a: Address)
    ensures var (q', r) := Apply(q, op); TakenNow(op, r, a) + QueueOf(q', a) == QueueOf(q, a) + PutNow(op, a)
  {
  }

  lemma ReplayPrefix(q: Queues, ops: seq<Op>, queues: Queues, results: seq<Result>)
    requires ops != [] && TokenLedger.ReplayYields(q, ops, queues, results)
    ensures var n := |ops| - 1;
            TokenLedger.ReplayYields(q, ops[..n], TokenLedger.Replay(q, ops[..n]), results[..n])
  {
    var n := |ops| - 1;
    forall k | 0 <= k < n ensures results[..n][k] == TokenLedger.ReplayedResult(q, ops[..n], k) {
      assert results[k] == TokenLedger.ReplayedResult(q, ops, k);
      assert ops[..n][..k] == ops[..k];
    }
  }

  /** So it is in every run of the ledger, in the order in which its operations have taken effect. */
  lemma LedgerIsFirstInFirstOut(states: seq<TokenLedger.State>, schedule: seq<nat>, i: nat, a: Address)
    requires TokenLedger.IsRun(states, schedule) && i <= |schedule|
    ensures TokenLedger.Moves(states, schedule)
    ensures var order := TokenLedger.Order(states, schedule, i);
            && (forall k :: 0 <= k < |order| ==> order[k] < |states[i].threads|)
            && var ops := TokenLedger.Ops(states[i].threads, order);
               var results := TokenLedger.Results(states[i].threads, order);
               TakenFrom(ops, results, a) + QueueOf(states[i].queues, a)
               == QueueOf(states[0].queues, a) + PutInto(ops, a)
  {
    TokenLedger.Linearizable(states, schedule, i);
    var order := TokenLedger.Order(states, schedule, i);
    FirstInFirstOut(states[0].queues, TokenLedger.Ops(states[i].threads, order), states[i].queues,
                    TokenLedger.Results(states[i].threads, order), a);
  }
}
