/** The ERC721 transfer workers on top of the ledger as it is implemented. A worker starts an operation of the
    ledger, the operation takes its steps among those of all the others, and the worker collects the result. The
    main result is that this refines the workers of module TokenTransfer, for which the operations are atomic. */
module ConcurrentTransfer {
  import opened LedgerSpec
  import opened Wrappers
  import TokenLedger
  import TokenTransfer

  datatype Phase =
    | Searching(tried: nat, candidate: nat)
    | Removing(tried: nat, candidate: nat)
    | InHand(token: Token, owner: Address)
    | Putting(token: Token, owner: Address, sent: bool)
    | Finished

  datatype Worker = Worker(to: Address, phase: Phase)

  /** Thread w of the ledger is the operation that worker w has started last. */
  datatype State = State(ledger: TokenLedger.State, workers: seq<Worker>, accounts: seq<Address>)

  datatype Action =
    | StartRemove(w: nat)
    | NoTokens(w: nat)
    | LedgerStep(w: nat)
    | CollectRemove(w: nat)
    | StartPut(w: nat, sent: bool)
    | CollectPut(w: nat)

  function SetPhase(s: State, w: nat, phase: Phase): State
    requires w < |s.workers|
  {
    s.(workers := s.workers[w := s.workers[w].(phase := phase)])
  }

  function StartOp(ledger: TokenLedger.State, w: nat, op: Op): TokenLedger.State
    requires w < |ledger.threads|
  {
    ledger.(threads := ledger.threads[w := TokenLedger.Thread(op, TokenLedger.AtLoadMutex, None)])
  }

  /** Nothing is in progress; earlier operations may have left mutexes and queues behind. */
  ghost predicate Init(s: State) {
    && |s.ledger.threads| == |s.workers|
    && TokenLedger.Inv(s.ledger)
    && (forall w :: 0 <= w < |s.workers| ==> s.ledger.threads[w].pc.Returned? && s.workers[w].phase.Searching?)
  }

  ghost predicate Step(s: State, a: Action, t: State) {
    && a.w < |s.workers| == |s.ledger.threads|
    && WorkerStep(s, a.w, s.workers[a.w], s.ledger.threads[a.w], a, t)
  }

  ghost predicate WorkerStep(s: State, w: nat, worker: Worker, thread: TokenLedger.Thread, a: Action, t: State)
    requires w < |s.workers| == |s.ledger.threads|
  {
    match a
    case StartRemove(_) =>
      && worker.phase.Searching? && worker.phase.tried < |s.accounts| && worker.phase.candidate < |s.accounts|
      && t == SetPhase(s, w, Removing(worker.phase.tried, worker.phase.candidate)).(
                ledger := StartOp(s.ledger, w, RemoveToken(s.accounts[worker.phase.candidate])))
    case NoTokens(_) =>
      && worker.phase.Searching? && worker.phase.tried >= |s.accounts|
      && t == SetPhase(s, w, Finished)
    case LedgerStep(_) =>
      && TokenLedger.Enabled(s.ledger, w)
      && t == s.(ledger := TokenLedger.Next(s.ledger, w))
    case CollectRemove(_) =>
      && worker.phase.Removing? && worker.phase.candidate < |s.accounts| && thread.pc.Returned?
      && t == SetPhase(s, w, AfterRemove(s.accounts, worker.phase, thread.result))
    case StartPut(_, sent) =>
      && worker.phase.InHand?
      && t == SetPhase(s, w, Putting(worker.phase.token, worker.phase.owner, sent)).(
                ledger := StartOp(s.ledger, w, PutOp(worker, sent)))
    case CollectPut(_) =>
      && worker.phase.Putting? && thread.pc.Returned?
      && t == SetPhase(s, w, Finished)
  }

  /** A token that has been found is in hand; otherwise the next account is up. */
  function AfterRemove(accounts: seq<Address>, phase: Phase, result: Result): Phase
    requires phase.Removing? && phase.candidate < |accounts|
  {
    if result.Some? then InHand(result.value, accounts[phase.candidate])
    else Searching(phase.tried + 1, (phase.candidate + 1) % |accounts|)
  }

  /** To the receiver if the token could be sent, else back to its owner. */
  function PutOp(worker: Worker, sent: bool): Op
    requires worker.phase.InHand? || worker.phase.Putting?
  {
    PutToken(if sent then worker.to else worker.phase.owner, worker.phase.token)
  }

  // ---------- the invariant ----------

  ghost predicate Inv(s: State) {
    && |s.workers| == |s.ledger.threads|
    && TokenLedger.Inv(s.ledger)
    && forall w :: 0 <= w < |s.workers| ==> WorkerInv(s.workers[w], s.ledger.threads[w], s.accounts)
  }

  /** The operation in progress is the worker's own, and there is one only while the worker waits for it. */
  ghost predicate WorkerInv(worker: Worker, thread: TokenLedger.Thread, accounts: seq<Address>) {
    match worker.phase
    case Removing(tried, candidate) =>
      tried < |accounts| && candidate < |accounts| && thread.op == RemoveToken(accounts[candidate])
    case Putting(_, _, sent) => thread.op == PutOp(worker, sent)
    case _ => thread.pc.Returned?
  }

  lemma StartOpKeepsInv(ledger: TokenLedger.State, w: nat, op: Op)
    requires TokenLedger.Inv(ledger) && w < |ledger.threads| && ledger.threads[w].pc.Returned?
    ensures TokenLedger.Inv(StartOp(ledger, w, op))
  {
    var t := StartOp(ledger, w, op);
    forall v | 0 <= v < |t.threads| ensures TokenLedger.ThreadInv(t, v, t.threads[v]) {
      assert TokenLedger.ThreadInv(ledger, v, ledger.threads[v]);
    }
    TokenLedger.ForeignLocksKept(ledger, t, w);
    TokenLedger.CreatedStayApart(ledger, t, w);
  }

  lemma StepKeepsInv(s: State, a: Action, t: State)
    requires Inv(s) && Step(s, a, t)
    ensures Inv(t)
  {
    assert WorkerInv(s.workers[a.w], s.ledger.threads[a.w], s.accounts);
    if a.LedgerStep? {
      TokenLedger.NextKeepsInv(s.ledger, a.w);
      TokenLedger.NextShape(s.ledger, a.w);
    } else if a.StartRemove? || a.StartPut? {
      StartOpKeepsInv(s.ledger, a.w, t.ledger.threads[a.w].op);
    }
  }

  // ---------- refinement ----------

  /** What a worker amounts to when each operation acts at once, at the step at which it takes effect. */
  function AbstractPhase(phase: Phase, thread: TokenLedger.Thread, accounts: seq<Address>): TokenTransfer.Phase {
    if TokenLedger.Effective(thread.pc) && phase.Removing? && phase.candidate < |accounts| then
      BeforeEffect(AfterRemove(accounts, phase, thread.result))
    else if TokenLedger.Effective(thread.pc) && phase.Putting? then
      TokenTransfer.Finished
    else
      BeforeEffect(phase)
  }

  function BeforeEffect(phase: Phase): TokenTransfer.Phase {
    match phase
    case Searching(tried, candidate) => TokenTransfer.Searching(tried, candidate)
    case Removing(tried, candidate) => TokenTransfer.Searching(tried, candidate)
    case InHand(token, owner) => TokenTransfer.InHand(token, owner)
    case Putting(token, owner, _) => TokenTransfer.InHand(token, owner)
    case Finished => TokenTransfer.Finished
  }

  function AbstractWorker(worker: Worker, thread: TokenLedger.Thread, accounts: seq<Address>): TokenTransfer.Worker {
    TokenTransfer.Worker(worker.to, AbstractPhase(worker.phase, thread, accounts))
  }

  function Abstract(s: State): TokenTransfer.State
    requires |s.workers| == |s.ledger.threads|
  {
    TokenTransfer.State(s.ledger.queues,
                        seq(|s.workers|, w requires 0 <= w < |s.workers| =>
                          AbstractWorker(s.workers[w], s.ledger.threads[w], s.accounts)),
                        s.accounts)
  }

  /** A step of one worker concerns no other worker. */
  lemma AbstractUpdate(s: State, w: nat, t: State)
    requires |s.workers| == |s.ledger.threads| && |t.workers| == |t.ledger.threads| && w < |s.workers|
    requires |t.workers| == |s.workers| && t.workers == s.workers[w := t.workers[w]]
    requires t.ledger.threads == s.ledger.threads[w := t.ledger.threads[w]] && t.accounts == s.accounts
    ensures Abstract(t) == Abstract(s).(queues := t.ledger.queues,
                                        workers := Abstract(s).workers[w :=
                                          AbstractWorker(t.workers[w], t.ledger.threads[w], s.accounts)])
  {
  }

  /** The step at which an operation takes effect is a step of the atomic workers. */
  lemma EffectRefines(s: State, w: nat, t: State) returns (b: TokenTransfer.Action)
    requires Inv(s) && Step(s, LedgerStep(w), t)
    requires TokenLedger.TakesEffect(s.ledger.threads[w], t.ledger.threads[w])
    ensures |t.workers| == |t.ledger.threads| && TokenTransfer.Step(Abstract(s), b, Abstract(t))
    ensures var phase := s.workers[w].phase;
            if phase.Removing? then b == TokenTransfer.Try(w)
            else phase.Putting? && b == TokenTransfer.Finish(w, phase.sent)
    ensures var phase := s.workers[w].phase;
            Abstract(s).workers[w] == TokenTransfer.Worker(s.workers[w].to, BeforeEffect(phase))
  {
    var worker, thread, thread' := s.workers[w], s.ledger.threads[w], t.ledger.threads[w];
    assert WorkerInv(worker, thread, s.accounts);
    TokenLedger.StepRefines(s.ledger, w);
    TokenLedger.NextShape(s.ledger, w);
    AbstractUpdate(s, w, t);
    var before, after := Abstract(s), Abstract(t);
    if worker.phase.Removing? {
      b := TokenTransfer.Try(w);
      assert TokenTransfer.TryStep(before, w, before.workers[w].phase, after);
    } else {
      b := TokenTransfer.Finish(w, worker.phase.sent);
      assert after == TokenTransfer.SetPhase(before, w, TokenTransfer.Finished).(queues := after.queues);
    }
  }

  predicate IsEffect(s: State, a: Action, t: State)
    requires a.w < |s.ledger.threads| && a.w < |t.ledger.threads|
  {
    a.LedgerStep? && TokenLedger.TakesEffect(s.ledger.threads[a.w], t.ledger.threads[a.w])
  }

  /** The other steps leave the atomic workers where they are, but for a search that ends with nothing. */
  lemma OtherStepRefines(s: State, a: Action, t: State)
    requires Inv(s) && Step(s, a, t) && Inv(t) && |t.workers| == |s.workers|
    requires !IsEffect(s, a, t)
    ensures if a.NoTokens? then TokenTransfer.Step(Abstract(s), TokenTransfer.Try(a.w), Abstract(t))
            else Abstract(t) == Abstract(s)
  {
    var w := a.w;
    assert WorkerInv(s.workers[w], s.ledger.threads[w], s.accounts);
    if a.LedgerStep? {
      TokenLedger.StepRefines(s.ledger, w);
      TokenLedger.NextShape(s.ledger, w);
    }
    AbstractUpdate(s, w, t);
    if !a.NoTokens? {
      assert Abstract(t).workers == Abstract(s).workers;
    }
  }

  lemma StepKeepsWorkers(s: State, a: Action, t: State)
    requires Inv(s) && Step(s, a, t)
    ensures Inv(t) && |t.workers| == |s.workers|
    ensures forall w :: 0 <= w < |s.workers| ==> t.workers[w].to == s.workers[w].to
  {
    StepKeepsInv(s, a, t);
  }

  /** Each step of a worker or of the ledger leaves the atomic workers where they are, or is one step of theirs. */
  lemma StepRefines(s: State, a: Action, t: State)
    requires Inv(s) && Step(s, a, t)
    ensures Inv(t)
    ensures Abstract(t) == Abstract(s) || exists b :: TokenTransfer.Step(Abstract(s), b, Abstract(t))
  {
    StepKeepsWorkers(s, a, t);
    if IsEffect(s, a, t) {
      var b := EffectRefines(s, a.w, t);
    } else {
      OtherStepRefines(s, a, t);
    }
  }

  // ---------- whole runs ----------

  ghost predicate IsRun(states: seq<State>, actions: seq<Action>) {
    && |states| == |actions| + 1
    && Init(states[0])
    && forall i :: 0 <= i < |actions| ==> Step(states[i], actions[i], states[i + 1])
  }

  lemma InitInv(s: State)
    requires Init(s)
    ensures Inv(s)
  {
  }

  lemma {:induction false} RunKeepsInv(states: seq<State>, actions: seq<Action>, i: nat)
    requires IsRun(states, actions) && i < |states|
    ensures Inv(states[i])
  {
    if i == 0 {
      InitInv(states[0]);
    } else {
      RunKeepsInv(states, actions, i - 1);
      StepKeepsInv(states[i - 1], actions[i - 1], states[i]);
    }
  }

  lemma ExtendRun(states: seq<TokenTransfer.State>, actions: seq<TokenTransfer.Action>, b: TokenTransfer.Action,
                  t: TokenTransfer.State, n: nat)
    returns (states': seq<TokenTransfer.State>, actions': seq<TokenTransfer.Action>)
    requires TokenTransfer.IsRun(states, actions, n) && TokenTransfer.Step(states[|actions|], b, t)
    ensures TokenTransfer.IsRun(states', actions', n) && states'[0] == states[0] && states'[|actions'|] == t
  {
    states', actions' := states + [t], actions + [b];
    forall i | 0 <= i < |actions'| ensures TokenTransfer.Step(states'[i], actions'[i], states'[i + 1]) {
      if i < |actions| {
        assert states'[i] == states[i] && states'[i + 1] == states[i + 1];
      }
    }
  }

  /** Every run on the interleaved ledger has a run of the atomic workers beside it, from the same start to what the
      state amounts to. */
  lemma {:induction false} RunRefines(states: seq<State>, actions: seq<Action>, i: nat, n: nat)
    returns (atomic: seq<TokenTransfer.State>, atomicActions: seq<TokenTransfer.Action>)
    requires IsRun(states, actions) && i < |states|
    requires TokenTransfer.Within(Abstract(states[0]), n)
    ensures Inv(states[i]) && TokenTransfer.IsRun(atomic, atomicActions, n)
    ensures atomic[0] == Abstract(states[0]) && atomic[|atomicActions|] == Abstract(states[i])
  {
    if i == 0 {
      atomic, atomicActions := [Abstract(states[0])], [];
    } else {
      atomic, atomicActions := RunRefines(states, actions, i - 1, n);
      var s, t := states[i - 1], states[i];
      StepRefines(s, actions[i - 1], t);
      if Abstract(t) != Abstract(s) {
        var b :| TokenTransfer.Step(Abstract(s), b, Abstract(t));
        atomic, atomicActions := ExtendRun(atomic, atomicActions, b, Abstract(t), n);
      }
    }
  }

  /** Conservation over queues, operations in flight and hands: however the steps of the workers and of their ledger
      operations interleave, each token occurs as often as at the start. A token that a remove has taken out counts as
      in hand from then on, and one that is about to be put counts so until it is in its queue. */
  lemma TokensConserved(states: seq<State>, actions: seq<Action>, i: nat, n: nat, x: Token)
    requires IsRun(states, actions) && i < |states|
    requires TokenTransfer.Within(Abstract(states[0]), n)
    ensures Inv(states[i])
    ensures TokenTransfer.Total(Abstract(states[i]), n, x) == TokenTransfer.Total(Abstract(states[0]), n, x)
  {
    var atomic, atomicActions := RunRefines(states, actions, i, n);
    TokenTransfer.TokensConserved(atomic, atomicActions, n, |atomicActions|, x);
  }

  /** After charging, each minted token is in one queue, in one operation in flight or in one hand, once, and no other
      token ever turns up. */
  lemma EachMintedTokenOnce(states: seq<State>, actions: seq<Action>, i: nat, n: nat, baseOffset: Token, x: Token)
    requires IsRun(states, actions) && i < |states|
    requires TokenTransfer.Within(Abstract(states[0]), n)
    requires TokenTransfer.Charged(states[0].ledger.queues, states[0].accounts, baseOffset)
    ensures Inv(states[i])
    ensures TokenTransfer.Total(Abstract(states[i]), n, x)
            == if TokenTransfer.IsMinted(baseOffset, |states[0].accounts|, x) then 1 else 0
  {
    var atomic, atomicActions := RunRefines(states, actions, i, n);
    TokenTransfer.EachMintedTokenOnce(atomic, atomicActions, n, |atomicActions|, baseOffset, x);
  }

  // ---------- who gets the tokens ----------

  /** Whether worker w could send the last transfer that it has tried to send. */
  predicate LastSent(actions: seq<Action>, w: nat) {
    if actions == [] then false
    else
      var a := actions[|actions| - 1];
      if a.StartPut? && a.w == w then a.sent else LastSent(actions[..|actions| - 1], w)
  }

  ghost predicate RemembersOutcome(s: State, actions: seq<Action>) {
    forall w :: 0 <= w < |s.workers| && s.workers[w].phase.Putting? ==> s.workers[w].phase.sent == LastSent(actions, w)
  }

  lemma StepKeepsOutcome(s: State, a: Action, t: State, actions: seq<Action>)
    requires Step(s, a, t) && RemembersOutcome(s, actions)
    ensures RemembersOutcome(t, actions + [a])
  {
    assert (actions + [a])[..|actions|] == actions;
  }

  /** What one step transfers to address a, less what it transfers away from it: at the step at which the put of a
      token that could be sent takes effect, from the account it was taken from to the worker's receiver. */
  ghost function Transferred(s: State, b: Action, t: State, sent: bool, a: Address, x: Token): int {
    if b.w < |s.workers| && b.w < |s.ledger.threads| && b.w < |t.ledger.threads| && IsEffect(s, b, t) && sent
       && s.workers[b.w].phase.Putting? && s.workers[b.w].phase.token == x then
      (if s.workers[b.w].to == a then 1 else 0) - (if s.workers[b.w].phase.owner == a then 1 else 0)
    else 0
  }

  lemma StepTransfers(s: State, b: Action, t: State, actions: seq<Action>, a: Address, x: Token)
    requires Inv(s) && Step(s, b, t) && RemembersOutcome(s, actions)
    ensures Inv(t)
    ensures TokenTransfer.Owned(Abstract(t), a, x)
            == TokenTransfer.Owned(Abstract(s), a, x) + Transferred(s, b, t, LastSent(actions, b.w), a, x)
  {
    StepKeepsWorkers(s, b, t);
    if IsEffect(s, b, t) {
      var c := EffectRefines(s, b.w, t);
      TokenTransfer.StepTransfers(Abstract(s), c, Abstract(t), a, x);
    } else {
      OtherStepRefines(s, b, t);
      if b.NoTokens? {
        TokenTransfer.StepTransfers(Abstract(s), TokenTransfer.Try(b.w), Abstract(t), a, x);
      }
    }
  }

  ghost function AllTransferred(states: seq<State>, actions: seq<Action>, i: nat, a: Address, x: Token): int
    requires i <= |actions| < |states|
  {
    if i == 0 then 0
    else
      AllTransferred(states, actions, i - 1, a, x)
      + Transferred(states[i - 1], actions[i - 1], states[i], LastSent(actions[..i - 1], actions[i - 1].w), a, x)
  }

  /** In every interleaved run, each address has of each token what it had at the start, plus the transfers to it that
      could be sent, less those from it. */
  lemma {:induction false} TransfersExplained(states: seq<State>, actions: seq<Action>, i: nat, a: Address, x: Token)
    requires IsRun(states, actions) && i < |states|
    ensures Inv(states[i]) && RemembersOutcome(states[i], actions[..i])
    ensures TokenTransfer.Owned(Abstract(states[i]), a, x)
            == TokenTransfer.Owned(Abstract(states[0]), a, x) + AllTransferred(states, actions, i, a, x)
  {
    if i == 0 {
      InitInv(states[0]);
    } else {
      TransfersExplained(states, actions, i - 1, a, x);
      var s, b, t := states[i - 1], actions[i - 1], states[i];
      StepTransfers(s, b, t, actions[..i - 1], a, x);
      StepKeepsOutcome(s, b, t, actions[..i - 1]);
      assert actions[..i] == actions[..i - 1] + [b];
    }
  }
}
