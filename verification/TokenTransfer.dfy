/** The workers of the ERC721 transfer test case. Each of them takes a token out of the ledger, sends the
    transfer, and hands the token over or puts it back. The ledger's operations are atomic here, which
    module ConcurrentTransfer justifies. */
module TokenTransfer {
  import opened LedgerSpec
  import opened Wrappers

  datatype Phase =
    | Searching(tried: nat, candidate: nat)
    | InHand(token: Token, owner: Address)
    | Finished

  datatype Worker = Worker(to: Address, phase: Phase)

  /** All workers draw from the same accounts. */
  datatype State = State(queues: Queues, workers: seq<Worker>, accounts: seq<Address>)

  datatype Action = Try(w: nat) | Finish(w: nat, sent: bool)

  function SetPhase(s: State, w: nat, phase: Phase): State
    requires w < |s.workers|
  {
    s.(workers := s.workers[w := s.workers[w].(phase := phase)])
  }

  ghost predicate Step(s: State, a: Action, t: State) {
    && a.w < |s.workers|
    && match a
       case Try(w) => s.workers[w].phase.Searching? && TryStep(s, w, s.workers[w].phase, t)
       case Finish(w, sent) =>
         && s.workers[w].phase.InHand?
         && var receiver := if sent then s.workers[w].to else s.workers[w].phase.owner;
            t == SetPhase(s, w, Finished).(queues := Apply(s.queues, PutToken(receiver, s.workers[w].phase.token)).0)
  }

  ghost predicate TryStep(s: State, w: nat, phase: Phase, t: State)
    requires w < |s.workers| && phase.Searching?
  {
    if phase.tried >= |s.accounts| then
      t == SetPhase(s, w, Finished)
    else
      && phase.candidate < |s.accounts|
      && var candidate := s.accounts[phase.candidate];
         var (queues, token) := Apply(s.queues, RemoveToken(candidate));
         t == SetPhase(s, w, if token.Some? then InHand(token.value, candidate)
                             else Searching(phase.tried + 1, (phase.candidate + 1) % |s.accounts|)).(queues := queues)
  }

  // ---------- conservation ----------

  /** How often token x occurs in the queues of the addresses below n. */
  ghost function Queued(q: Queues, n: nat, x: Token): nat {
    if n == 0 then 0 else Queued(q, n - 1, x) + Copies(QueueOf(q, n - 1), x)
  }

  ghost function Copies(queue: seq<Token>, x: Token): nat {
    multiset(queue)[x]
  }

  ghost function Held(phase: Phase, x: Token): nat {
    if phase.InHand? && phase.token == x then 1 else 0
  }

  ghost function InHands(workers: seq<Worker>, x: Token): nat {
    if workers == [] then 0 else Held(workers[0].phase, x) + InHands(workers[1..], x)
  }

  /** How often token x occurs in the system, wherever it is. */
  ghost function Total(s: State, n: nat, x: Token): nat {
    Queued(s.queues, n, x) + InHands(s.workers, x)
  }

  lemma {:induction false} QueuedUpdate(q: Queues, n: nat, a: Address, queue: seq<Token>, x: Token)
    ensures Queued(q[a := queue], n, x)
            == Queued(q, n, x) + if a < n then Copies(queue, x) - Copies(QueueOf(q, a), x) else 0
  {
    if n > 0 {
      QueuedUpdate(q, n - 1, a, queue, x);
    }
  }

  lemma {:induction false} InHandsUpdate(workers: seq<Worker>, w: nat, worker: Worker, x: Token)
    requires w < |workers|
    ensures InHands(workers[w := worker], x)
            == InHands(workers, x) + Held(worker.phase, x) - Held(workers[w].phase, x)
  {
    if w == 0 {
      assert workers[w := worker][1..] == workers[1..];
    } else {
      InHandsUpdate(workers[1..], w - 1, worker, x);
      assert workers[w := worker][1..] == workers[1..][w - 1 := worker];
    }
  }

  lemma CopiesAfterPut(queue: seq<Token>, token: Token, x: Token)
    ensures Copies(queue + [token], x) == Copies(queue, x) + if token == x then 1 else 0
  {
  }

  lemma CopiesAfterRemove(queue: seq<Token>, x: Token)
    requires queue != []
    ensures Copies(queue, x) == Copies(queue[1..], x) + if queue[0] == x then 1 else 0
  {
    assert queue == [queue[0]] + queue[1..];
  }

  /** What one atomic operation adds to the queues. */
  ghost function Added(op: Op, r: Result, x: Token): int {
    match op
    case PutToken(_, token) => if token == x then 1 else 0
    case RemoveToken(_) => if r == Some(x) then -1 else 0
    case InitializeAccount(_) => 0
  }

  lemma ApplyMovesOneToken(q: Queues, op: Op, n: nat, x: Token)
    requires op.addr < n
    ensures var (q', r) := Apply(q, op); Queued(q', n, x) == Queued(q, n, x) + Added(op, r, x)
  {
    match op
    case PutToken(a, token) =>
      QueuedUpdate(q, n, a, QueueOf(q, a) + [token], x);
      CopiesAfterPut(QueueOf(q, a), token, x);
    case RemoveToken(a) =>
      if QueueOf(q, a) != [] {
        QueuedUpdate(q, n, a, q[a][1..], x);
        CopiesAfterRemove(q[a], x);
      }
    case InitializeAccount(a) =>
      QueuedUpdate(q, n, a, [], x);
  }

  /** All addresses that the workers may touch are below n. */
  ghost predicate Within(s: State, n: nat) {
    && (forall i :: 0 <= i < |s.accounts| ==> s.accounts[i] < n)
    && (forall w :: 0 <= w < |s.workers| ==>
          s.workers[w].to < n && (s.workers[w].phase.InHand? ==> s.workers[w].phase.owner < n))
  }

  lemma StepConserves(s: State, a: Action, t: State, n: nat, x: Token)
    requires Within(s, n) && Step(s, a, t)
    ensures Within(t, n) && Total(t, n, x) == Total(s, n, x)
  {
    InHandsUpdate(s.workers, a.w, t.workers[a.w], x);
    if a.Finish? {
      FinishConserves(s, a, t, n, x);
    } else {
      TryConserves(s, a, t, n, x);
    }
  }

  lemma FinishConserves(s: State, a: Action, t: State, n: nat, x: Token)
    requires Within(s, n) && Step(s, a, t) && a.Finish?
    ensures Within(t, n)
    ensures Queued(t.queues, n, x) == Queued(s.queues, n, x) + Held(s.workers[a.w].phase, x)
    ensures Held(t.workers[a.w].phase, x) == 0 && t.workers == s.workers[a.w := t.workers[a.w]]
  {
    var worker := s.workers[a.w];
    var receiver := if a.sent then worker.to else worker.phase.owner;
    ApplyMovesOneToken(s.queues, PutToken(receiver, worker.phase.token), n, x);
  }

  lemma TryConserves(s: State, a: Action, t: State, n: nat, x: Token)
    requires Within(s, n) && Step(s, a, t) && a.Try?
    ensures Within(t, n)
    ensures Queued(t.queues, n, x) + Held(t.workers[a.w].phase, x) == Queued(s.queues, n, x)
    ensures Held(s.workers[a.w].phase, x) == 0 && t.workers == s.workers[a.w := t.workers[a.w]]
  {
    var phase := s.workers[a.w].phase;
    if phase.tried < |s.accounts| {
      ApplyMovesOneToken(s.queues, RemoveToken(s.accounts[phase.candidate]), n, x);
    }
  }

  ghost predicate IsRun(states: seq<State>, actions: seq<Action>, n: nat) {
    && |states| == |actions| + 1
    && Within(states[0], n)
    && forall i :: 0 <= i < |actions| ==> Step(states[i], actions[i], states[i + 1])
  }

  /** In every run of any number of workers, with any sends failing, each token occurs in the queues and in the
      workers' hands, taken together, as often as at the start. So a token that was there once neither
      doubles nor gets lost. */
  lemma {:induction false} TokensConserved(states: seq<State>, actions: seq<Action>, n: nat, i: nat, x: Token)
    requires IsRun(states, actions, n) && i < |states|
    ensures Within(states[i], n) && Total(states[i], n, x) == Total(states[0], n, x)
  {
    if i > 0 {
      TokensConserved(states, actions, n, i - 1, x);
      StepConserves(states[i - 1], actions[i - 1], states[i], n, x);
    }
  }

  // ---------- who gets the tokens ----------

  /** The copies of token x that workers hold and have taken from address a. */
  ghost function HandsFrom(workers: seq<Worker>, a: Address, x: Token): nat {
    if workers == [] then 0 else HeldFrom(workers[0].phase, a, x) + HandsFrom(workers[1..], a, x)
  }

  ghost function HeldFrom(phase: Phase, a: Address, x: Token): nat {
    if phase.InHand? && phase.token == x && phase.owner == a then 1 else 0
  }

  lemma {:induction false} HandsFromUpdate(workers: seq<Worker>, w: nat, worker: Worker, a: Address, x: Token)
    requires w < |workers|
    ensures HandsFrom(workers[w := worker], a, x)
            == HandsFrom(workers, a, x) + HeldFrom(worker.phase, a, x) - HeldFrom(workers[w].phase, a, x)
  {
    if w == 0 {
      assert workers[w := worker][1..] == workers[1..];
    } else {
      HandsFromUpdate(workers[1..], w - 1, worker, a, x);
      assert workers[w := worker][1..] == workers[1..][w - 1 := worker];
    }
  }

  /** The copies of token x that address a has: in its queue, and on their way out of it. */
  ghost function Owned(s: State, a: Address, x: Token): nat {
    Copies(QueueOf(s.queues, a), x) + HandsFrom(s.workers, a, x)
  }

  /** What one step of a run transfers to address a, less what it transfers away from it: a token changes its owner
      only when it has been sent, from the account it was taken from to the worker's receiver. */
  ghost function Transferred(s: State, b: Action, a: Address, x: Token): int {
    if b.Finish? && b.sent && b.w < |s.workers| && s.workers[b.w].phase.InHand? && s.workers[b.w].phase.token == x then
      (if s.workers[b.w].to == a then 1 else 0) - (if s.workers[b.w].phase.owner == a then 1 else 0)
    else 0
  }

  lemma StepTransfers(s: State, b: Action, t: State, a: Address, x: Token)
    requires Step(s, b, t)
    ensures Owned(t, a, x) == Owned(s, a, x) + Transferred(s, b, a, x)
    ensures |t.workers| == |s.workers| && forall w :: 0 <= w < |s.workers| ==> t.workers[w].to == s.workers[w].to
  {
    HandsFromUpdate(s.workers, b.w, t.workers[b.w], a, x);
    if b.Finish? {
      FinishMovesCopies(s, b, t, a, x);
    } else {
      TryMovesCopies(s, b, t, a, x);
    }
  }

  lemma FinishMovesCopies(s: State, b: Action, t: State, a: Address, x: Token)
    requires Step(s, b, t) && b.Finish?
    ensures var worker := s.workers[b.w];
            var receiver := if b.sent then worker.to else worker.phase.owner;
            && t.workers == s.workers[b.w := worker.(phase := Finished)]
            && Copies(QueueOf(t.queues, a), x)
               == Copies(QueueOf(s.queues, a), x) + if receiver == a && worker.phase.token == x then 1 else 0
  {
    var worker := s.workers[b.w];
    var receiver := if b.sent then worker.to else worker.phase.owner;
    CopiesAfterPut(QueueOf(s.queues, receiver), worker.phase.token, x);
  }

  lemma TryMovesCopies(s: State, b: Action, t: State, a: Address, x: Token)
    requires Step(s, b, t) && b.Try?
    ensures t.workers == s.workers[b.w := s.workers[b.w].(phase := t.workers[b.w].phase)]
    ensures Copies(QueueOf(t.queues, a), x) + HeldFrom(t.workers[b.w].phase, a, x) == Copies(QueueOf(s.queues, a), x)
  {
    var phase := s.workers[b.w].phase;
    if phase.tried < |s.accounts| {
      var candidate := s.accounts[phase.candidate];
      if QueueOf(s.queues, candidate) != [] {
        CopiesAfterRemove(s.queues[candidate], x);
      }
    }
  }

  ghost function AllTransferred(states: seq<State>, actions: seq<Action>, i: nat, a: Address, x: Token): int
    requires i <= |actions| < |states|
  {
    if i == 0 then 0
    else AllTransferred(states, actions, i - 1, a, x) + Transferred(states[i - 1], actions[i - 1], a, x)
  }

  /** In every run, each address has of each token what it had at the start, plus the transfers to it that could be
      sent, less those from it. A token that could not be sent stays with its owner. */
  lemma {:induction false} TransfersExplained(states: seq<State>, actions: seq<Action>, n: nat, i: nat,
                                              a: Address, x: Token)
    requires IsRun(states, actions, n) && i < |states|
    ensures Owned(states[i], a, x) == Owned(states[0], a, x) + AllTransferred(states, actions, i, a, x)
    ensures |states[i].workers| == |states[0].workers|
    ensures forall w :: 0 <= w < |states[0].workers| ==> states[i].workers[w].to == states[0].workers[w].to
  {
    if i > 0 {
      TransfersExplained(states, actions, n, i - 1, a, x);
      StepTransfers(states[i - 1], actions[i - 1], states[i], a, x);
    }
  }

  // ---------- the search ----------

  /** The order in which the accounts are tried, from a random start. */
  function Rotation(start: nat, n: nat): (r: seq<nat>)
    requires start < n
    ensures |r| == n
  {
    seq(n, k => (start + k) % n)
  }

  lemma ModWraps(x: nat, n: nat)
    requires n > 0 && x < 2 * n
    ensures x % n == if x < n then x else x - n
  {
    if x >= n {
      assert x % n == (x - n) % n;
    }
  }

  /** The rotation tries every account exactly once, whatever the start. */
  lemma RotationVisitsEachOnce(start: nat, n: nat)
    requires start < n
    ensures forall i :: 0 <= i < n ==> i in Rotation(start, n)
    ensures forall j, k :: 0 <= j < k < n ==> Rotation(start, n)[j] != Rotation(start, n)[k]
    ensures forall k :: 0 <= k < n ==> Rotation(start, n)[k] < n
  {
    var r := Rotation(start, n);
    forall k | 0 <= k < n ensures r[k] == if start + k < n then start + k else start + k - n {
      ModWraps(start + k, n);
    }
    forall i | 0 <= i < n ensures i in r {
      assert r[if i >= start then i - start else i + n - start] == i;
    }
  }

  lemma RotationStep(start: nat, n: nat, k: nat)
    requires start < n && k + 1 < n
    ensures (Rotation(start, n)[k] + 1) % n == Rotation(start, n)[k + 1]
  {
    ModWraps(start + k, n);
    ModWraps(start + k + 1, n);
    ModWraps((start + k) % n + 1, n);
  }

  /** The accounts that worker w has tried in the first i steps of a run. */
  ghost function Tried(states: seq<State>, actions: seq<Action>, i: nat, w: nat): seq<nat>
    requires i <= |actions| < |states|
  {
    if i == 0 then []
    else Tried(states, actions, i - 1, w) + TriedNow(states[i - 1], actions[i - 1], w)
  }

  ghost function TriedNow(s: State, b: Action, w: nat): seq<nat> {
    if b == Try(w) && w < |s.workers| && s.workers[w].phase.Searching? && s.workers[w].phase.tried < |s.accounts| then
      [s.workers[w].phase.candidate]
    else []
  }

  /** Where the search of a worker stands, by the accounts that it has tried. */
  ghost predicate OnRotation(s: State, w: nat, tried: seq<nat>, handedOver: bool, start: nat)
    requires w < |s.workers| && start < |s.accounts|
  {
    && tried <= Rotation(start, |s.accounts|)
    && match s.workers[w].phase
       case Searching(n, candidate) =>
         !handedOver && |tried| == n && (n < |s.accounts| ==> candidate == Rotation(start, |s.accounts|)[n])
       case InHand(_, owner) =>
         !handedOver && tried != [] && RotationInRange(start, |s.accounts|, |tried| - 1)
         && owner == s.accounts[Rotation(start, |s.accounts|)[|tried| - 1]]
       case Finished => handedOver || tried == Rotation(start, |s.accounts|)
  }

  predicate RotationInRange(start: nat, n: nat, k: nat)
    requires start < n
  {
    k < n && Rotation(start, n)[k] < n
  }

  lemma StepFollowsRotation(s: State, b: Action, t: State, w: nat, tried: seq<nat>, handedOver: bool, start: nat)
    requires Step(s, b, t) && w < |s.workers| && start < |s.accounts|
    requires OnRotation(s, w, tried, handedOver, start)
    ensures |t.workers| == |s.workers| && t.accounts == s.accounts
    ensures OnRotation(t, w, tried + TriedNow(s, b, w), handedOver || HandsOver(b, w), start)
  {
    var n, phase := |s.accounts|, s.workers[w].phase;
    if b == Try(w) && phase.tried < n {
      assert tried + [phase.candidate] == Rotation(start, n)[..phase.tried + 1];
      if phase.tried + 1 < n {
        RotationStep(start, n, phase.tried);
      }
    }
  }

  /** Worker w has had a token, and has handed it over or given it back. */
  predicate HandedOver(actions: seq<Action>, w: nat) {
    actions != [] && (HandedOver(actions[..|actions| - 1], w) || HandsOver(actions[|actions| - 1], w))
  }

  predicate HandsOver(b: Action, w: nat) {
    b.Finish? && b.w == w
  }

  /** In every run, each worker tries the accounts in rotated order: what it has tried is a beginning of the rotation,
      the token in its hand is from the last account tried, and it ends with nothing only after the whole rotation. */
  lemma {:induction false} SearchFollowsRotation(states: seq<State>, actions: seq<Action>, n: nat, i: nat,
                                                 w: nat, start: nat)
    requires IsRun(states, actions, n) && i < |states| && w < |states[0].workers|
    requires start < |states[0].accounts| && states[0].workers[w].phase == Searching(0, start)
    ensures |states[i].workers| == |states[0].workers| && states[i].accounts == states[0].accounts
    ensures OnRotation(states[i], w, Tried(states, actions, i, w), HandedOver(actions[..i], w), start)
  {
    if i > 0 {
      SearchFollowsRotation(states, actions, n, i - 1, w, start);
      var s, b, t := states[i - 1], actions[i - 1], states[i];
      StepFollowsRotation(s, b, t, w, Tried(states, actions, i - 1, w), HandedOver(actions[..i - 1], w), start);
      assert actions[..i][..i - 1] == actions[..i - 1];
    }
  }

  // ---------- minted ids ----------

  function MintedIds(baseOffset: Token, idx: nat): (ids: seq<Token>)
    ensures |ids| == 5
  {
    seq(5, k => baseOffset + idx * 5 + k)
  }

  function BaseOffset(unixSeconds: int): Token {
    unixSeconds * 1000000
  }

  /** Two runs over n accounts that start in different seconds can mint the same id. */
  ghost predicate RunsCollide(n: nat) {
    exists s: int, t: int, i: nat, j: nat, id: Token ::
      Minted(s, i, id) && Minted(t, j, id) && s != t && i < n && j < n
  }

  ghost predicate Minted(unixSeconds: int, idx: nat, id: Token) {
    id in MintedIds(BaseOffset(unixSeconds), idx)
  }

  /** Within one run, the accounts get different ids. */
  lemma IdsOfOneRunDistinct(unixSeconds: int, i: nat, j: nat, id: Token)
    requires Minted(unixSeconds, i, id) && Minted(unixSeconds, j, id)
    ensures i == j
  {
  }

  /** Runs that start in different seconds never mint the same id exactly as long as there are at most
      200000 accounts. */
  lemma RunsCollideIffTooManyAccounts(n: nat)
    ensures RunsCollide(n) <==> n > 200000
  {
    if n > 200000 {
      assert MintedIds(BaseOffset(0), 200000)[0] == MintedIds(BaseOffset(1), 0)[0] == 1000000;
      assert Minted(0, 200000, 1000000) && Minted(1, 0, 1000000);
    }
  }

  lemma CopiesMinted(baseOffset: Token, idx: nat, x: Token)
    ensures Copies(MintedIds(baseOffset, idx), x) == if 0 <= x - baseOffset - idx * 5 < 5 then 1 else 0
  {
    var id := baseOffset + idx * 5;
    assert MintedIds(baseOffset, idx) == [id, id + 1, id + 2, id + 3, id + 4];
  }

  // ---------- charging, then transferring ----------

  /** What charging leaves behind in a ledger that was empty. */
  ghost predicate Charged(q: Queues, accounts: seq<Address>, baseOffset: Token) {
    && (forall i, j :: 0 <= i < j < |accounts| ==> accounts[i] != accounts[j])
    && (forall i :: 0 <= i < |accounts| ==> QueueOf(q, accounts[i]) == MintedIds(baseOffset, i))
    && (forall a :: a !in accounts ==> QueueOf(q, a) == [])
  }

  /** The ids that the charging of n accounts mints. */
  predicate IsMinted(baseOffset: Token, n: nat, x: Token) {
    baseOffset <= x < baseOffset + n * 5
  }

  lemma {:induction false} ChargedOnce(q: Queues, accounts: seq<Address>, baseOffset: Token, n: nat, x: Token)
    requires Charged(q, accounts, baseOffset)
    ensures Queued(q, n, x)
            == if IsMinted(baseOffset, |accounts|, x) && accounts[(x - baseOffset) / 5] < n then 1 else 0
  {
    if n > 0 {
      ChargedOnce(q, accounts, baseOffset, n - 1, x);
      if i :| 0 <= i < |accounts| && accounts[i] == n - 1 {
        CopiesMinted(baseOffset, i, x);
        assert 0 <= x - baseOffset - i * 5 < 5 <==> IsMinted(baseOffset, |accounts|, x) && (x - baseOffset) / 5 == i;
      } else {
        assert n - 1 !in accounts;
      }
    }
  }

  lemma {:induction false} SearchersHoldNothing(workers: seq<Worker>, x: Token)
    requires forall w :: 0 <= w < |workers| ==> workers[w].phase.Searching?
    ensures InHands(workers, x) == 0
  {
    if workers != [] {
      SearchersHoldNothing(workers[1..], x);
    }
  }

  /** After charging, and in every run of the transfer workers, each minted token is in exactly one place, once:
      in one queue or in one worker's hand. No other token ever turns up. */
  lemma EachMintedTokenOnce(states: seq<State>, actions: seq<Action>, n: nat, i: nat, baseOffset: Token, x: Token)
    requires IsRun(states, actions, n) && i < |states|
    requires Charged(states[0].queues, states[0].accounts, baseOffset)
    requires forall w :: 0 <= w < |states[0].workers| ==> states[0].workers[w].phase.Searching?
    ensures Total(states[i], n, x) == if IsMinted(baseOffset, |states[0].accounts|, x) then 1 else 0
  {
    TokensConserved(states, actions, n, i, x);
    ChargedOnce(states[0].queues, states[0].accounts, baseOffset, n, x);
    SearchersHoldNothing(states[0].workers, x);
  }
}
