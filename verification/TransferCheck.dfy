/** The checked transfer: a worker locks both accounts, reads their balances, sends a transfer, waits for the
    receipt, and compares the balances with the ones it predicts. Any number of workers run at once; the
    chain mines the pending transfers in any order. A worker that waits in vain gives up, unlocks, and leaves
    its transfer behind: an orphan, which may be mined under the eyes of another worker. */
module TransferCheck {
  import opened AccountLocks

  const GAS_LIMIT: nat := 21000

  datatype Tx = Tx(from: Address, to: Address, value: nat, gasPrice: nat)

  /** A worker sends at most one transfer, so its index names the transfer and its receipt. A receipt
      records the gas used. */
  datatype Chain = Chain(balances: seq<int>, pending: map<nat, Tx>, receipts: map<nat, nat>, fees: int) {

    /** The node takes no transfer that the sender might not be able to pay for, and mines none. */
    predicate MayAccept(tx: Tx) {
      && tx.from < |balances| && tx.to < |balances|
      && balances[tx.from] >= tx.value + GAS_LIMIT * tx.gasPrice
    }

    predicate CanMine(w: nat, gasUsed: nat) {
      w in pending && MayAccept(pending[w]) && gasUsed <= GAS_LIMIT
    }

    function Mine(w: nat, gasUsed: nat): Chain
      requires CanMine(w, gasUsed)
    {
      var tx := pending[w];
      var fee := gasUsed * tx.gasPrice;
      Chain(Moved(balances, tx.from, tx.to, tx.value, fee), pending - {w}, receipts[w := gasUsed], fees + fee)
    }
  }

  function Moved(balances: seq<int>, from: Address, to: Address, value: int, fee: int): (moved: seq<int>)
    requires from < |balances| && to < |balances|
    ensures |moved| == |balances|
  {
    var paid := balances[from := balances[from] - value - fee];
    paid[to := paid[to] + value]
  }

  /** What a mined transfer adds to the balance of one account. */
  function Delta(tx: Tx, fee: int, account: Address): int {
    (if account == tx.from then 0 - tx.value - fee else 0) + (if account == tx.to then tx.value else 0)
  }

  datatype Phase = AtReadFrom | AtReadTo | AtSend | AtReceipt | AtCheckFrom | AtCheckTo | Returned(ok: bool)

  /** The local variables of one transferAndCheck. The former balances become the expected ones on receipt. */
  datatype Check = Check(phase: Phase, value: nat, gasPrice: nat, fromBalance: int, toBalance: int)

  /** What orphans have done to a worker's accounts since it has read their balances: how many have been mined that
      touch one of them, and what they have added to each of the two balances. */
  datatype Drift = Drift(orphans: nat, from: int, to: int)

  datatype State = State(locks: AccountLocks.State, checks: seq<Check>, chain: Chain, drifts: seq<Drift>)

  datatype Action =
    | LockOrUnlock(w: nat)
    | ReadFrom(w: nat)
    | ReadTo(w: nat)
    | SendTransfer(w: nat, accepted: bool)
    | SeeReceipt(w: nat)
    | CheckFrom(w: nat)
    | CheckTo(w: nat)
    | TimeOutReceipt(w: nat)
    | TimeOutFrom(w: nat)
    | TimeOutTo(w: nat)
    | Return(w: nat)
    | MineTransfer(w: nat, gasUsed: nat)

  function JobOf(s: State, w: nat): Job
    requires w < |s.locks.workers|
  {
    s.locks.workers[w].job
  }

  /** The worker has both locks and its body still to finish. */
  predicate InBody(worker: Worker) {
    worker.pc == |LockOrder(worker.job)|
  }

  /** A transfer between existing accounts. */
  ghost predicate TransferAmong(job: Job, accounts: nat) {
    job.Transfer? && job.from < accounts && job.to < accounts
  }

  ghost predicate WellFormed(s: State) {
    && |s.checks| == |s.locks.workers| == |s.drifts|
    && forall w :: 0 <= w < |s.checks| ==> TransferAmong(s.locks.workers[w].job, |s.chain.balances|)
  }

  ghost predicate Init(s: State) {
    && WellFormed(s)
    && AccountLocks.Init(s.locks)
    && (forall w :: 0 <= w < |s.checks| ==> s.checks[w].phase.AtReadFrom? && s.drifts[w] == Drift(0, 0, 0))
    && s.chain.pending == map[] && s.chain.receipts == map[]
    && (forall a :: 0 <= a < |s.chain.balances| ==> s.chain.balances[a] >= 0)
  }

  function SetCheck(s: State, w: nat, c: Check): State
    requires w < |s.checks|
  {
    s.(checks := s.checks[w := c])
  }

  ghost predicate Step(s: State, a: Action, t: State)
    requires WellFormed(s)
  {
    match a
    case MineTransfer(w, gasUsed) =>
      && s.chain.CanMine(w, gasUsed)
      && t == s.(chain := s.chain.Mine(w, gasUsed),
                drifts := if Orphaned(s, w) then Drifts(s, w, gasUsed) else s.drifts)
    case LockOrUnlock(w) =>
      && Enabled(s.locks, w) && !s.locks.workers[w].Next().Body?
      && t == s.(locks := Execute(s.locks, w))
    case Return(w) =>
      && Enabled(s.locks, w) && s.locks.workers[w].Next().Body? && s.checks[w].phase.Returned?
      && t == s.(locks := Execute(s.locks, w))
    case _ =>
      && a.w < |s.checks| && InBody(s.locks.workers[a.w])
      && BodyStep(s, a.w, JobOf(s, a.w), s.checks[a.w], a, t)
  }

  /** The sender of transfer w no longer waits for it. */
  predicate Orphaned(s: State, w: nat) {
    w < |s.checks| && s.checks[w].phase.Returned?
  }

  /** Orphan w is about to be mined. It matters to the workers that have read a balance of its accounts. */
  function Drifts(s: State, w: nat, gasUsed: nat): (drifts: seq<Drift>)
    requires w in s.chain.pending && |s.checks| == |s.locks.workers| == |s.drifts|
    requires forall v :: 0 <= v < |s.checks| ==> s.locks.workers[v].job.Transfer?
    ensures |drifts| == |s.drifts|
  {
    var tx := s.chain.pending[w];
    seq(|s.drifts|, v requires 0 <= v < |s.drifts| =>
      Drifted(s.drifts[v], JobOf(s, v), s.checks[v].phase, tx, gasUsed * tx.gasPrice))
  }

  function Drifted(d: Drift, job: Job, phase: Phase, tx: Tx, fee: int): Drift
    requires job.Transfer?
  {
    var from := if HasRead(phase, false) then Delta(tx, fee, job.from) else 0;
    var to := if HasRead(phase, true) then Delta(tx, fee, job.to) else 0;
    var touched := (HasRead(phase, false) && job.from in {tx.from, tx.to})
                   || (HasRead(phase, true) && job.to in {tx.from, tx.to});
    Drift(d.orphans + if touched then 1 else 0, d.from + from, d.to + to)
  }

  /** Whether a worker has read the first balance, or the second one too. */
  predicate HasRead(phase: Phase, second: bool) {
    !phase.AtReadFrom? && (second ==> !phase.AtReadTo?)
  }

  ghost predicate BodyStep(s: State, w: nat, job: Job, c: Check, a: Action, t: State)
    requires w < |s.checks| && TransferAmong(job, |s.chain.balances|)
  {
    match a
    case ReadFrom(_) =>
      && c.phase.AtReadFrom?
      && t == SetCheck(s, w, c.(phase := AtReadTo, fromBalance := s.chain.balances[job.from]))
    case ReadTo(_) =>
      && c.phase.AtReadTo?
      && t == SetCheck(s, w, c.(phase := AtSend, toBalance := s.chain.balances[job.to]))
    case SendTransfer(_, accepted) =>
      var tx := Tx(job.from, job.to, c.value, c.gasPrice);
      && c.phase.AtSend?
      && (accepted ==> s.chain.MayAccept(tx))
      && t == if accepted then
                SetCheck(s, w, c.(phase := AtReceipt)).(chain := s.chain.(pending := s.chain.pending[w := tx]))
              else SetCheck(s, w, c.(phase := Returned(false)))
    case SeeReceipt(_) =>
      && c.phase.AtReceipt? && w in s.chain.receipts
      && t == SetCheck(s, w, Predict(c, job, s.chain.receipts[w]))
    case CheckFrom(_) =>
      && c.phase.AtCheckFrom? && s.chain.balances[job.from] == c.fromBalance
      && t == SetCheck(s, w, c.(phase := if job.from == job.to then Returned(true) else AtCheckTo))
    case CheckTo(_) =>
      && c.phase.AtCheckTo? && s.chain.balances[job.to] == c.toBalance
      && t == SetCheck(s, w, c.(phase := Returned(true)))
    case TimeOutReceipt(_) =>
      && c.phase.AtReceipt?
      && t == SetCheck(s, w, c.(phase := Returned(false)))
    case TimeOutFrom(_) =>
      && c.phase.AtCheckFrom? && s.chain.balances[job.from] != c.fromBalance
      && t == SetCheck(s, w, c.(phase := Returned(false)))
    case TimeOutTo(_) =>
      && c.phase.AtCheckTo? && s.chain.balances[job.to] != c.toBalance
      && t == SetCheck(s, w, c.(phase := Returned(false)))
    case _ => false
  }

  /** The balances to expect. In a transfer to oneself the value is set to 0 first. */
  function Predict(c: Check, job: Job, gasUsed: nat): Check
    requires job.Transfer?
  {
    var value := if job.to == job.from then 0 else c.value;
    c.(phase := AtCheckFrom, value := value,
       fromBalance := c.fromBalance - value - gasUsed * c.gasPrice, toBalance := c.toBalance + value)
  }

  // ---------- the invariant ----------

  ghost predicate Inv(s: State) {
    && WellFormed(s)
    && AccountLocks.Inv(s.locks)
    && (forall a :: 0 <= a < |s.chain.balances| ==> s.chain.balances[a] >= 0)
    && (forall w :: w in s.chain.pending ==> w < |s.checks|)
    && (forall w :: 0 <= w < |s.checks| ==> CheckInv(s.chain, w, s.locks.workers[w], s.checks[w], s.drifts[w]))
  }

  ghost predicate CheckInv(chain: Chain, w: nat, worker: Worker, c: Check, d: Drift)
    requires TransferAmong(worker.job, |chain.balances|)
  {
    && (worker.pc < |LockOrder(worker.job)| ==> c.phase.AtReadFrom?)
    && (worker.pc > |LockOrder(worker.job)| ==> c.phase.Returned?)
    && (w in chain.receipts ==> w !in chain.pending)
    && (c.phase.AtReadFrom? || c.phase.AtReadTo? || c.phase.AtSend? ==> w !in chain.pending && w !in chain.receipts)
    && (w in chain.pending ==>
          && (c.phase.AtReceipt? || c.phase.Returned?)
          && chain.pending[w] == Tx(worker.job.from, worker.job.to, c.value, c.gasPrice))
    && DriftInv(c, d)
    && BodyInv(chain, w, worker.job, c, d)
  }

  /** Without orphans there is no drift, and nothing drifts before it has been read. */
  ghost predicate DriftInv(c: Check, d: Drift) {
    && (d.orphans == 0 ==> d.from == d.to == 0)
    && (!HasRead(c.phase, false) ==> d == Drift(0, 0, 0))
    && (!HasRead(c.phase, true) ==> d.to == 0)
  }

  /** While a worker is in its body, the balances of its accounts are what it thinks they are, plus the drift. */
  ghost predicate BodyInv(chain: Chain, w: nat, job: Job, c: Check, d: Drift)
    requires TransferAmong(job, |chain.balances|)
  {
    match c.phase
    case AtReadFrom => true
    case AtReadTo => chain.balances[job.from] == c.fromBalance + d.from
    case AtSend => Known(chain, job, c, d)
    case AtReceipt =>
      if w in chain.pending then
        Known(chain, job, c, d) && (d.orphans == 0 ==> chain.MayAccept(chain.pending[w]))
      else
        w in chain.receipts && Expected(chain, job, Predict(c, job, chain.receipts[w]), d)
    case AtCheckFrom => Expected(chain, job, c, d)
    case AtCheckTo => Expected(chain, job, c, d) && job.from != job.to
    case Returned(_) => true
  }

  ghost predicate Known(chain: Chain, job: Job, c: Check, d: Drift)
    requires TransferAmong(job, |chain.balances|)
  {
    chain.balances[job.from] == c.fromBalance + d.from && chain.balances[job.to] == c.toBalance + d.to
  }

  /** In a transfer to oneself the code compares one balance only. */
  ghost predicate Expected(chain: Chain, job: Job, c: Check, d: Drift)
    requires TransferAmong(job, |chain.balances|)
  {
    && chain.balances[job.from] == c.fromBalance + d.from
    && (job.from != job.to ==> chain.balances[job.to] == c.toBalance + d.to)
  }

  // ---------- preservation ----------

  lemma InBodyOwnsBoth(s: State, w: nat)
    requires WellFormed(s) && AccountLocks.Inv(s.locks) && w < |s.checks| && InBody(s.locks.workers[w])
    ensures var job := JobOf(s, w);
            && job.from in s.locks.owner && s.locks.owner[job.from] == w
            && job.to in s.locks.owner && s.locks.owner[job.to] == w
  {
    var worker := s.locks.workers[w];
    var locks := LockOrder(worker.job);
    assert locks[0] in Held(worker) && locks[|locks| - 1] in Held(worker);
    HeldIsOwned(s.locks, w, worker.job.from);
    HeldIsOwned(s.locks, w, worker.job.to);
  }

  /** Two workers in their bodies have no account in common. */
  lemma NoCommonAccount(s: State, v: nat, w: nat)
    requires WellFormed(s) && AccountLocks.Inv(s.locks) && v < |s.checks| && w < |s.checks| && v != w
    requires InBody(s.locks.workers[v]) && InBody(s.locks.workers[w])
    ensures {JobOf(s, v).from, JobOf(s, v).to} !! {JobOf(s, w).from, JobOf(s, w).to}
  {
    InBodyOwnsBoth(s, v);
    InBodyOwnsBoth(s, w);
  }

  lemma StepKeepsInv(s: State, a: Action, t: State)
    requires Inv(s) && Step(s, a, t)
    ensures Inv(t)
  {
    match a
    case MineTransfer(w, gasUsed) => MineKeepsInv(s, w, gasUsed, t);
    case LockOrUnlock(w) => LocksKeepInv(s, w, t);
    case Return(w) => LocksKeepInv(s, w, t);
    case _ => BodyStepKeepsInv(s, a, t);
  }

  lemma LocksKeepInv(s: State, w: nat, t: State)
    requires Inv(s) && Enabled(s.locks, w) && t == s.(locks := Execute(s.locks, w))
    requires s.locks.workers[w].Next().Body? ==> s.checks[w].phase.Returned?
    ensures Inv(t)
  {
    ExecuteKeepsInv(s.locks, w);
    AdvanceKeepsCheckInv(s.chain, w, s.locks.workers[w], s.checks[w], s.drifts[w]);
  }

  lemma AdvanceKeepsCheckInv(chain: Chain, w: nat, worker: Worker, c: Check, d: Drift)
    requires TransferAmong(worker.job, |chain.balances|) && CheckInv(chain, w, worker, c, d)
    requires !worker.Finished() && (worker.Next().Body? ==> c.phase.Returned?)
    ensures CheckInv(chain, w, worker.(pc := worker.pc + 1), c, d)
  {
    ProgramShape(worker.job);
  }

  lemma BodyStepKeepsInv(s: State, a: Action, t: State)
    requires Inv(s) && Step(s, a, t)
    requires !a.MineTransfer? && !a.LockOrUnlock? && !a.Return?
    ensures Inv(t)
  {
    var w := a.w;
    BodyStepKeepsCheckInv(s, w, s.locks.workers[w], s.checks[w], a, t);
    forall v | 0 <= v < |t.checks| && v != w
      ensures CheckInv(t.chain, v, t.locks.workers[v], t.checks[v], t.drifts[v])
    {
      FrameCheckInv(s.chain, t.chain, v, s.locks.workers[v], s.checks[v], s.drifts[v]);
    }
  }

  lemma BodyStepKeepsCheckInv(s: State, w: nat, worker: Worker, c: Check, a: Action, t: State)
    requires w < |s.checks| == |s.drifts| && TransferAmong(worker.job, |s.chain.balances|) && InBody(worker)
    requires CheckInv(s.chain, w, worker, c, s.drifts[w]) && BodyStep(s, w, worker.job, c, a, t)
    ensures t.locks == s.locks && t.drifts == s.drifts
    ensures t.chain.balances == s.chain.balances && t.chain.receipts == s.chain.receipts
    ensures t.chain.pending - {w} == s.chain.pending - {w}
    ensures forall v :: v in t.chain.pending ==> v == w || v in s.chain.pending
    ensures |t.checks| == |s.checks| && t.checks == s.checks[w := t.checks[w]]
    ensures CheckInv(t.chain, w, worker, t.checks[w], t.drifts[w])
  {
  }

  /** What happens to other accounts and other transfers does not concern a worker. */
  lemma FrameCheckInv(chain: Chain, chain': Chain, v: nat, worker: Worker, c: Check, d: Drift)
    requires TransferAmong(worker.job, |chain.balances|) && |chain'.balances| == |chain.balances|
    requires CheckInv(chain, v, worker, c, d)
    requires v in chain.pending <==> v in chain'.pending
    requires v in chain.pending ==> chain'.pending[v] == chain.pending[v]
    requires v in chain.receipts <==> v in chain'.receipts
    requires v in chain.receipts ==> chain'.receipts[v] == chain.receipts[v]
    requires InBody(worker) ==>
               && chain'.balances[worker.job.from] == chain.balances[worker.job.from]
               && chain'.balances[worker.job.to] == chain.balances[worker.job.to]
    ensures CheckInv(chain', v, worker, c, d)
  {
  }

  lemma MineKeepsInv(s: State, w: nat, gasUsed: nat, t: State)
    requires Inv(s) && Step(s, MineTransfer(w, gasUsed), t)
    ensures Inv(t)
  {
    assert CheckInv(s.chain, w, s.locks.workers[w], s.checks[w], s.drifts[w]);
    MinedBalances(s.chain, w, gasUsed);
    if Orphaned(s, w) {
      OrphanKeepsInv(s, w, gasUsed, t);
    } else {
      AwaitedKeepsInv(s, w, gasUsed, t);
    }
  }

  lemma OrphanKeepsInv(s: State, w: nat, gasUsed: nat, t: State)
    requires Inv(s) && s.chain.CanMine(w, gasUsed) && Orphaned(s, w)
    requires t == s.(chain := s.chain.Mine(w, gasUsed), drifts := Drifts(s, w, gasUsed))
    requires forall a :: 0 <= a < |t.chain.balances| ==> t.chain.balances[a] >= 0
    ensures Inv(t)
  {
    forall v | 0 <= v < |t.checks| ensures CheckInv(t.chain, v, t.locks.workers[v], t.checks[v], t.drifts[v]) {
      OrphanKeepsCheckInv(s.chain, w, gasUsed, v, s.locks.workers[v], s.checks[v], s.drifts[v]);
    }
  }

  lemma AwaitedKeepsInv(s: State, w: nat, gasUsed: nat, t: State)
    requires Inv(s) && s.chain.CanMine(w, gasUsed) && !Orphaned(s, w)
    requires t == s.(chain := s.chain.Mine(w, gasUsed))
    requires forall a :: 0 <= a < |t.chain.balances| ==> t.chain.balances[a] >= 0
    ensures Inv(t)
  {
    MineKeepsOwnCheckInv(s.chain, w, s.locks.workers[w], s.checks[w], s.drifts[w], gasUsed);
    forall v | 0 <= v < |t.checks| && v != w
      ensures CheckInv(t.chain, v, t.locks.workers[v], t.checks[v], t.drifts[v])
    {
      if InBody(s.locks.workers[v]) {
        NoCommonAccount(s, w, v);
      }
      FrameCheckInv(s.chain, t.chain, v, s.locks.workers[v], s.checks[v], s.drifts[v]);
    }
  }

  /** A mined transfer changes each balance by its delta, and overdraws none. */
  lemma MinedBalances(chain: Chain, w: nat, gasUsed: nat)
    requires chain.CanMine(w, gasUsed)
    requires forall a :: 0 <= a < |chain.balances| ==> chain.balances[a] >= 0
    ensures var tx := chain.pending[w];
            forall a :: 0 <= a < |chain.balances| ==>
              && chain.Mine(w, gasUsed).balances[a] == chain.balances[a] + Delta(tx, gasUsed * tx.gasPrice, a)
              && chain.Mine(w, gasUsed).balances[a] >= 0
  {
    FeeBounded(gasUsed, chain.pending[w].gasPrice);
  }

  /** The sender's own prediction comes true. */
  lemma MineKeepsOwnCheckInv(chain: Chain, w: nat, worker: Worker, c: Check, d: Drift, gasUsed: nat)
    requires TransferAmong(worker.job, |chain.balances|) && CheckInv(chain, w, worker, c, d)
    requires chain.CanMine(w, gasUsed) && !c.phase.Returned?
    ensures InBody(worker) && chain.pending[w] == Tx(worker.job.from, worker.job.to, c.value, c.gasPrice)
    ensures CheckInv(chain.Mine(w, gasUsed), w, worker, c, d)
  {
  }

  /** An orphan adds to the drift of every worker what it adds to the balances that the worker has read. */
  lemma OrphanKeepsCheckInv(chain: Chain, w: nat, gasUsed: nat, v: nat, worker: Worker, c: Check, d: Drift)
    requires TransferAmong(worker.job, |chain.balances|) && CheckInv(chain, v, worker, c, d)
    requires chain.CanMine(w, gasUsed) && (v == w ==> c.phase.Returned?)
    requires forall a :: 0 <= a < |chain.balances| ==> chain.balances[a] >= 0
    ensures var tx := chain.pending[w];
            CheckInv(chain.Mine(w, gasUsed), v, worker, c,
                     Drifted(d, worker.job, c.phase, tx, gasUsed * tx.gasPrice))
  {
    MinedBalances(chain, w, gasUsed);
  }

  lemma FeeBounded(gasUsed: nat, gasPrice: nat)
    requires gasUsed <= GAS_LIMIT
    ensures 0 <= gasUsed * gasPrice <= GAS_LIMIT * gasPrice
  {
  }

  // ---------- whole runs ----------

  ghost predicate IsRun(states: seq<State>, actions: seq<Action>) {
    && |states| == |actions| + 1
    && Init(states[0])
    && forall i :: 0 <= i < |actions| ==> StepAt(states, actions, i)
  }

  ghost predicate StepAt(states: seq<State>, actions: seq<Action>, i: nat)
    requires |states| == |actions| + 1 && i < |actions|
  {
    WellFormed(states[i]) && Step(states[i], actions[i], states[i + 1])
  }

  lemma {:induction false} RunKeepsInv(states: seq<State>, actions: seq<Action>, i: nat)
    requires IsRun(states, actions) && i < |states|
    ensures Inv(states[i])
  {
    if i == 0 {
      InitInv(states[0]);
    } else {
      RunKeepsInv(states, actions, i - 1);
      assert StepAt(states, actions, i - 1);
      StepKeepsInv(states[i - 1], actions[i - 1], states[i]);
    }
  }

  lemma InitInv(s: State)
    requires Init(s)
    ensures Inv(s)
  {
    forall w | 0 <= w < |s.checks| ensures CheckInv(s.chain, w, s.locks.workers[w], s.checks[w], s.drifts[w]) {
      ProgramShape(JobOf(s, w));
    }
  }

  /** A comparison fails exactly if orphans have changed that balance on the whole since it was read. That takes an
      orphan which touches one of the worker's accounts and has been mined since. No balance is ever overdrawn, and
      the accounts of a pending transfer are locked by its sender, as long as it waits. */
  lemma AlarmsExactly(states: seq<State>, actions: seq<Action>, i: nat, w: nat)
    requires IsRun(states, actions) && i < |states| && w < |states[i].checks|
    ensures WellFormed(states[i])
    ensures var s := states[i];
            var c, d, job := s.checks[w], s.drifts[w], JobOf(s, w);
            && (c.phase.AtCheckFrom? ==> (s.chain.balances[job.from] == c.fromBalance <==> d.from == 0))
            && (c.phase.AtCheckTo? ==> (s.chain.balances[job.to] == c.toBalance <==> d.to == 0))
            && (d.orphans == 0 ==> d.from == d.to == 0)
            && (w in s.chain.pending && !Orphaned(s, w) ==>
                  && job.from in s.locks.owner && s.locks.owner[job.from] == w
                  && job.to in s.locks.owner && s.locks.owner[job.to] == w)
    ensures forall a :: 0 <= a < |states[i].chain.balances| ==> states[i].chain.balances[a] >= 0
  {
    var s := states[i];
    RunKeepsInv(states, actions, i);
    assert CheckInv(s.chain, w, s.locks.workers[w], s.checks[w], s.drifts[w]);
    if w in s.chain.pending && !Orphaned(s, w) {
      InBodyOwnsBoth(s, w);
    }
  }

  /** A worker gives up on a transfer that is still pending. */
  ghost predicate Abandons(s: State, a: Action) {
    a.TimeOutReceipt? && a.w in s.chain.pending
  }

  ghost predicate NoOrphans(s: State) {
    && |s.drifts| == |s.checks|
    && (forall w :: w in s.chain.pending ==> !Orphaned(s, w))
    && (forall w :: 0 <= w < |s.drifts| ==> s.drifts[w].orphans == 0)
  }

  lemma {:induction false} NobodyAbandons(states: seq<State>, actions: seq<Action>, i: nat)
    requires IsRun(states, actions) && i < |states|
    requires forall k :: 0 <= k < i ==> !Abandons(states[k], actions[k])
    ensures NoOrphans(states[i])
  {
    if i > 0 {
      NobodyAbandons(states, actions, i - 1);
      RunKeepsInv(states, actions, i - 1);
      assert StepAt(states, actions, i - 1);
      StaysWithoutOrphans(states[i - 1], actions[i - 1], states[i]);
    }
  }

  lemma StaysWithoutOrphans(s: State, a: Action, t: State)
    requires Inv(s) && NoOrphans(s) && Step(s, a, t) && !Abandons(s, a)
    ensures NoOrphans(t)
  {
    assert t.drifts == s.drifts;
    forall w | w in t.chain.pending ensures !Orphaned(t, w) {
      if w in s.chain.pending && !a.MineTransfer? {
        assert CheckInv(s.chain, w, s.locks.workers[w], s.checks[w], s.drifts[w]);
        AwaitedStaysAwaited(s, a, t, w);
      }
    }
  }

  lemma AwaitedStaysAwaited(s: State, a: Action, t: State, w: nat)
    requires WellFormed(s) && w < |s.checks| && s.checks[w].phase.AtReceipt? && w in s.chain.pending
    requires w !in s.chain.receipts
    requires Step(s, a, t) && !Abandons(s, a)
    ensures !Orphaned(t, w)
  {
  }

  /** No false alarm: as long as nobody has given up on a pending transfer, every comparison succeeds at once, so
      that no comparison can time out, and every pending transfer can be mined. */
  lemma NoFalseAlarm(states: seq<State>, actions: seq<Action>, i: nat, w: nat)
    requires IsRun(states, actions) && i < |states| && w < |states[i].checks|
    requires forall k :: 0 <= k < i ==> !Abandons(states[k], actions[k])
    ensures WellFormed(states[i])
    ensures var s := states[i];
            var c, job := s.checks[w], JobOf(s, w);
            && (c.phase.AtCheckFrom? ==> s.chain.balances[job.from] == c.fromBalance)
            && (c.phase.AtCheckTo? ==> s.chain.balances[job.to] == c.toBalance)
            && (w in s.chain.pending ==>
                  && s.chain.CanMine(w, GAS_LIMIT)
                  && job.from in s.locks.owner && s.locks.owner[job.from] == w
                  && job.to in s.locks.owner && s.locks.owner[job.to] == w)
  {
    AlarmsExactly(states, actions, i, w);
    NobodyAbandons(states, actions, i);
    RunKeepsInv(states, actions, i);
    assert CheckInv(states[i].chain, w, states[i].locks.workers[w], states[i].checks[w], states[i].drifts[w]);
  }

  // ---------- what a checked transfer answers ----------

  /** Every comparison that the code makes has succeeded: one for a transfer to oneself, two for any other. */
  ghost predicate Passed(done: seq<Action>, w: nat, job: Job)
    requires job.Transfer?
  {
    CheckFrom(w) in done && (job.from == job.to || CheckTo(w) in done)
  }

  /** The node has rejected the transfer, or a wait has timed out. */
  ghost predicate Failed(done: seq<Action>, w: nat) {
    || SendTransfer(w, false) in done
    || TimeOutReceipt(w) in done
    || TimeOutFrom(w) in done
    || TimeOutTo(w) in done
  }

  ghost predicate VerdictInv(phase: Phase, done: seq<Action>, w: nat, job: Job)
    requires job.Transfer?
  {
    match phase
    case Returned(ok) =>
      if ok then Passed(done, w, job) && !Failed(done, w) else Failed(done, w) && !Passed(done, w, job)
    case AtCheckTo => CheckFrom(w) in done && CheckTo(w) !in done && !Failed(done, w) && job.from != job.to
    case _ => CheckFrom(w) !in done && CheckTo(w) !in done && !Failed(done, w)
  }

  lemma StepKeepsVerdict(s: State, a: Action, t: State, done: seq<Action>, w: nat)
    requires WellFormed(s) && w < |s.checks| && Step(s, a, t)
    requires VerdictInv(s.checks[w].phase, done, w, JobOf(s, w))
    ensures WellFormed(t) && |t.checks| == |s.checks| && JobOf(t, w) == JobOf(s, w)
    ensures VerdictInv(t.checks[w].phase, done + [a], w, JobOf(t, w))
  {
    if a.w != w || a.MineTransfer? {
      assert t.checks[w] == s.checks[w];
    }
  }

  lemma {:induction false} RunKeepsVerdict(states: seq<State>, actions: seq<Action>, i: nat, w: nat)
    requires IsRun(states, actions) && i <= |actions| && w < |states[0].checks|
    ensures WellFormed(states[i]) && |states[i].checks| == |states[0].checks|
    ensures JobOf(states[i], w) == JobOf(states[0], w)
    ensures VerdictInv(states[i].checks[w].phase, actions[..i], w, JobOf(states[0], w))
  {
    if i > 0 {
      RunKeepsVerdict(states, actions, i - 1, w);
      var s, a, t, done := states[i - 1], actions[i - 1], states[i], actions[..i - 1];
      assert StepAt(states, actions, i - 1);
      StepKeepsVerdict(s, a, t, done, w);
      assert actions[..i] == done + [a];
    }
  }

  /** A checked transfer answers that all is well exactly if each comparison it has to make has succeeded, and that
      something is wrong exactly if the node has rejected the transfer or one of the three waits has timed out. */
  lemma AnswersExactly(states: seq<State>, actions: seq<Action>, i: nat, w: nat)
    requires IsRun(states, actions) && i <= |actions| && w < |states[0].checks|
    ensures WellFormed(states[i]) && |states[i].checks| == |states[0].checks|
    ensures states[i].checks[w].phase == Returned(true) <==> Passed(actions[..i], w, JobOf(states[0], w))
    ensures states[i].checks[w].phase == Returned(false) <==> Failed(actions[..i], w)
  {
    RunKeepsVerdict(states, actions, i, w);
  }

  /** As long as nobody has given up on a pending transfer, an accepted one is reported as wrong only by a worker that
      has timed out waiting for the receipt. */
  lemma AcceptedIsWellAnswered(states: seq<State>, actions: seq<Action>, i: nat, w: nat)
    requires IsRun(states, actions) && i <= |actions| && w < |states[0].checks|
    requires forall k :: 0 <= k < i ==> !Abandons(states[k], actions[k])
    ensures WellFormed(states[i]) && |states[i].checks| == |states[0].checks|
    ensures states[i].checks[w].phase == Returned(false) ==>
              SendTransfer(w, false) in actions[..i] || TimeOutReceipt(w) in actions[..i]
  {
    AnswersExactly(states, actions, i, w);
    forall k | 0 <= k < i ensures actions[k] != TimeOutFrom(w) && actions[k] != TimeOutTo(w) {
      NoComparisonTimesOut(states, actions, k, w);
    }
  }

  lemma NoComparisonTimesOut(states: seq<State>, actions: seq<Action>, k: nat, w: nat)
    requires IsRun(states, actions) && k < |actions| && w < |states[0].checks|
    requires forall j :: 0 <= j < k ==> !Abandons(states[j], actions[j])
    ensures actions[k] != TimeOutFrom(w) && actions[k] != TimeOutTo(w)
  {
    RunKeepsVerdict(states, actions, k, w);
    assert StepAt(states, actions, k);
    NoFalseAlarm(states, actions, k, w);
  }

  // ---------- what is sent and mined ----------

  ghost predicate AsAsked(chain: Chain, w: nat, c: Check, asked: Check) {
    && c.gasPrice == asked.gasPrice
    && (w in chain.pending || !(c.phase.AtCheckFrom? || c.phase.AtCheckTo? || c.phase.Returned?) ==>
          c.value == asked.value)
  }

  lemma StepKeepsAsked(s: State, a: Action, t: State, w: nat, asked: Check)
    requires Inv(s) && w < |s.checks| && Step(s, a, t) && AsAsked(s.chain, w, s.checks[w], asked)
    ensures w < |t.checks| && AsAsked(t.chain, w, t.checks[w], asked)
  {
    assert CheckInv(s.chain, w, s.locks.workers[w], s.checks[w], s.drifts[w]);
    if a.w != w || a.MineTransfer? {
      assert t.checks[w] == s.checks[w];
    }
  }

  /** The transfer that a worker has under way is the one it was asked to make. */
  lemma {:induction false} SendsWhatIsAsked(states: seq<State>, actions: seq<Action>, i: nat, w: nat)
    requires IsRun(states, actions) && i <= |actions| && w < |states[0].checks|
    ensures WellFormed(states[i]) && |states[i].checks| == |states[0].checks|
    ensures AsAsked(states[i].chain, w, states[i].checks[w], states[0].checks[w])
    ensures w in states[i].chain.pending ==> states[i].chain.pending[w] == Asked(states[0], w)
  {
    RunKeepsVerdict(states, actions, i, w);
    RunKeepsInv(states, actions, i);
    var t := states[i];
    assert CheckInv(t.chain, w, t.locks.workers[w], t.checks[w], t.drifts[w]);
    if i > 0 {
      SendsWhatIsAsked(states, actions, i - 1, w);
      RunKeepsInv(states, actions, i - 1);
      var s, a := states[i - 1], actions[i - 1];
      assert StepAt(states, actions, i - 1);
      StepKeepsAsked(s, a, t, w, states[0].checks[w]);
    }
  }

  function Asked(s: State, w: nat): Tx
    requires w < |s.checks| == |s.locks.workers| && JobOf(s, w).Transfer?
  {
    Tx(JobOf(s, w).from, JobOf(s, w).to, s.checks[w].value, s.checks[w].gasPrice)
  }

  /** What the transfers mined in the first i steps add to one balance. */
  ghost function Flow(start: State, actions: seq<Action>, account: Address): int
    requires WellFormed(start)
  {
    if actions == [] then 0
    else Flow(start, actions[..|actions| - 1], account) + FlowOf(start, actions[|actions| - 1], account)
  }

  function FlowOf(start: State, a: Action, account: Address): int
    requires |start.checks| == |start.locks.workers|
    requires forall w :: 0 <= w < |start.checks| ==> start.locks.workers[w].job.Transfer?
  {
    if a.MineTransfer? && a.w < |start.checks| then
      Delta(Asked(start, a.w), a.gasUsed * start.checks[a.w].gasPrice, account)
    else 0
  }

  lemma StepExplained(start: State, s: State, a: Action, t: State, account: Address)
    requires WellFormed(start) && Inv(s) && Step(s, a, t) && account < |s.chain.balances|
    requires |s.checks| == |start.checks|
    requires a.MineTransfer? && a.w in s.chain.pending ==>
               a.w < |start.checks| && s.chain.pending[a.w] == Asked(start, a.w)
    ensures |t.chain.balances| == |s.chain.balances|
    ensures t.chain.balances[account] == s.chain.balances[account] + FlowOf(start, a, account)
  {
    if a.MineTransfer? {
      MinedBalances(s.chain, a.w, a.gasUsed);
    }
  }

  /** Every balance is explained: it is what it was at the start, plus what the mined transfers, as they were asked for,
      have added or taken, the sender paying the fee. */
  lemma {:induction false} BalancesExplained(states: seq<State>, actions: seq<Action>, i: nat, account: Address)
    requires IsRun(states, actions) && i <= |actions| && account < |states[0].chain.balances|
    ensures |states[i].chain.balances| == |states[0].chain.balances|
    ensures WellFormed(states[0])
    ensures states[i].chain.balances[account]
            == states[0].chain.balances[account] + Flow(states[0], actions[..i], account)
  {
    if i > 0 {
      BalancesExplained(states, actions, i - 1, account);
      var s, a := states[i - 1], actions[i - 1];
      assert StepAt(states, actions, i - 1);
      assert actions[..i][..i - 1] == actions[..i - 1];
      RunKeepsInv(states, actions, i - 1);
      SameWorkers(states, actions, i - 1);
      if a.w in s.chain.pending {
        SendsWhatIsAsked(states, actions, i - 1, a.w);
      }
      StepExplained(states[0], s, a, states[i], account);
    }
  }

  lemma {:induction false} SameWorkers(states: seq<State>, actions: seq<Action>, i: nat)
    requires IsRun(states, actions) && i <= |actions|
    ensures |states[i].checks| == |states[0].checks|
  {
    if i > 0 {
      SameWorkers(states, actions, i - 1);
      assert StepAt(states, actions, i - 1);
    }
  }

  lemma {:induction false} ReceiptsStay(states: seq<State>, actions: seq<Action>, i: nat, j: nat, w: nat)
    requires IsRun(states, actions) && i <= j <= |actions| && w in states[i].chain.receipts
    ensures w in states[j].chain.receipts
  {
    if i < j {
      ReceiptsStay(states, actions, i, j - 1, w);
      assert StepAt(states, actions, j - 1);
    }
  }

  lemma MineLeavesReceipt(s: State, a: Action, t: State)
    requires WellFormed(s) && Step(s, a, t) && a.MineTransfer?
    ensures a.w in s.chain.pending && a.w in t.chain.receipts
  {
  }

  lemma ReceiptOrPending(s: State, w: nat)
    requires Inv(s) && w in s.chain.pending
    ensures w !in s.chain.receipts
  {
    assert CheckInv(s.chain, w, s.locks.workers[w], s.checks[w], s.drifts[w]);
  }

  /** No transfer is mined twice. */
  lemma MinedOnce(states: seq<State>, actions: seq<Action>, i: nat, j: nat)
    requires IsRun(states, actions) && i < j < |actions| && actions[i].MineTransfer? && actions[j].MineTransfer?
    ensures actions[i].w != actions[j].w
  {
    assert StepAt(states, actions, i) && StepAt(states, actions, j);
    MineLeavesReceipt(states[i], actions[i], states[i + 1]);
    MineLeavesReceipt(states[j], actions[j], states[j + 1]);
    RunKeepsInv(states, actions, j);
    ReceiptOrPending(states[j], actions[j].w);
    if actions[i].w == actions[j].w {
      ReceiptsStay(states, actions, i + 1, j, actions[i].w);
    }
  }

  /** The workers and the chain together never get stuck before every worker has finished. The only wait that takes a
      timeout to end is one for a transfer whose sender an orphan has left without the means. */
  lemma NeverStuck(states: seq<State>, actions: seq<Action>, i: nat)
    requires IsRun(states, actions) && i < |states|
    requires exists w :: 0 <= w < |states[i].locks.workers| && !states[i].locks.workers[w].Finished()
    ensures WellFormed(states[i]) && exists a, t :: Step(states[i], a, t) && NeedsNoTimeout(states[i], a)
  {
    RunKeepsInv(states, actions, i);
    var s := states[i];
    var u :| 0 <= u < |s.locks.workers| && !s.locks.workers[u].Finished();
    var w := SomeoneCanGoOn(s.locks, u);
    var a, t := NextStep(s, w);
  }

  /** A timeout only where orphans have touched the worker's accounts. */
  ghost predicate NeedsNoTimeout(s: State, a: Action) {
    a.TimeOutReceipt? || a.TimeOutFrom? || a.TimeOutTo? ==> a.w < |s.drifts| && s.drifts[a.w].orphans > 0
  }

  lemma NextStep(s: State, w: nat) returns (a: Action, t: State)
    requires Inv(s) && Enabled(s.locks, w)
    ensures Step(s, a, t) && NeedsNoTimeout(s, a)
  {
    ProgramShape(JobOf(s, w));
    var c, job := s.checks[w], JobOf(s, w);
    assert CheckInv(s.chain, w, s.locks.workers[w], c, s.drifts[w]);
    if !s.locks.workers[w].Next().Body? {
      a, t := LockOrUnlock(w), s.(locks := Execute(s.locks, w));
      return;
    }
    match c.phase
    case AtReadFrom =>
      a, t := ReadFrom(w), SetCheck(s, w, c.(phase := AtReadTo, fromBalance := s.chain.balances[job.from]));
    case AtReadTo =>
      a, t := ReadTo(w), SetCheck(s, w, c.(phase := AtSend, toBalance := s.chain.balances[job.to]));
    case AtSend =>
      a, t := SendTransfer(w, false), SetCheck(s, w, c.(phase := Returned(false)));
    case AtReceipt =>
      if w in s.chain.receipts {
        a, t := SeeReceipt(w), SetCheck(s, w, Predict(c, job, s.chain.receipts[w]));
      } else if s.chain.CanMine(w, 0) {
        a, t := MineTransfer(w, 0), s.(chain := s.chain.Mine(w, 0));
      } else {
        a, t := TimeOutReceipt(w), SetCheck(s, w, c.(phase := Returned(false)));
      }
    case AtCheckFrom =>
      if s.chain.balances[job.from] == c.fromBalance {
        a, t := CheckFrom(w), SetCheck(s, w, c.(phase := if job.from == job.to then Returned(true) else AtCheckTo));
      } else {
        a, t := TimeOutFrom(w), SetCheck(s, w, c.(phase := Returned(false)));
      }
    case AtCheckTo =>
      if s.chain.balances[job.to] == c.toBalance {
        a, t := CheckTo(w), SetCheck(s, w, c.(phase := Returned(true)));
      } else {
        a, t := TimeOutTo(w), SetCheck(s, w, c.(phase := Returned(false)));
      }
    case Returned(_) =>
      a, t := Return(w), s.(locks := Execute(s.locks, w));
  }

  // ---------- a false alarm ----------

  ghost predicate Reachable(s: State) {
    exists states, actions :: IsRun(states, actions) && states[|actions|] == s
  }

  /** What holds at the start and is kept by every step holds of every reachable state. */
  ghost predicate Closed(r: State -> bool) {
    && (forall s :: Init(s) ==> r(s))
    && (forall s, a, t :: r(s) && WellFormed(s) && Step(s, a, t) ==> r(t))
  }

  lemma ReachableClosed()
    ensures Closed(s => Reachable(s))
  {
    forall s | Init(s) ensures Reachable(s) {
      var states, actions: seq<Action> := [s], [];
      assert IsRun(states, actions) && states[|actions|] == s;
    }
    forall s, a, t | Reachable(s) && WellFormed(s) && Step(s, a, t) ensures Reachable(t) {
      StepReaches(s, a, t);
    }
  }

  lemma StepReaches(s: State, a: Action, t: State)
    requires Reachable(s) && WellFormed(s) && Step(s, a, t)
    ensures Reachable(t)
  {
    var states, actions :| IsRun(states, actions) && states[|actions|] == s;
    ExtendRun(states, actions, a, t);
  }

  lemma ExtendRun(states: seq<State>, actions: seq<Action>, a: Action, t: State)
    requires IsRun(states, actions) && WellFormed(states[|actions|]) && Step(states[|actions|], a, t)
    ensures IsRun(states + [t], actions + [a]) && (states + [t])[|actions + [a]|] == t
  {
    var states', actions' := states + [t], actions + [a];
    forall i | 0 <= i < |actions'| ensures StepAt(states', actions', i) {
      if i < |actions| {
        assert StepAt(states, actions, i);
        assert states'[i] == states[i] && states'[i + 1] == states[i + 1];
      }
    }
  }

  /** A worker that sends nothing from account 0 to itself, for the fee alone. */
  function ToOneself(pc: nat): Worker {
    Worker(Transfer(0, 0), pc)
  }

  lemma ProgramToOneself(pc: nat)
    requires pc < 3
    ensures !ToOneself(pc).Finished()
    ensures ToOneself(pc).Next() == if pc == 0 then Lock(0) else if pc == 1 then Body else Unlock(0)
    ensures InBody(ToOneself(pc)) <==> pc == 1
  {
  }

  const FRESH_CHECK := Check(AtReadFrom, 0, 1, 0, 0)
  const TO_ONESELF := Tx(0, 0, 0, 1)

  lemma Locks(r: State -> bool, s: State, w: nat) returns (t: State)
    requires Closed(r) && r(s) && WellFormed(s) && w < |s.checks|
    requires s.locks.workers[w] == ToOneself(0) && 0 !in s.locks.owner
    ensures r(t) && WellFormed(t)
    ensures t == s.(locks := AccountLocks.State.State(s.locks.owner[0 := w], s.locks.workers[w := ToOneself(1)]))
  {
    ProgramToOneself(0);
    t := s.(locks := Execute(s.locks, w));
    assert Step(s, LockOrUnlock(w), t);
  }

  lemma Reads(r: State -> bool, s: State, w: nat, b: nat) returns (t: State)
    requires Closed(r) && r(s) && WellFormed(s) && w < |s.checks|
    requires s.locks.workers[w] == ToOneself(1) && s.checks[w] == FRESH_CHECK && s.chain.balances == [b]
    ensures r(t) && WellFormed(t) && t == SetCheck(s, w, Check(AtSend, 0, 1, b, b))
  {
    ProgramToOneself(1);
    var once := SetCheck(s, w, Check(AtReadTo, 0, 1, b, 0));
    assert Step(s, ReadFrom(w), once);
    t := SetCheck(once, w, Check(AtSend, 0, 1, b, b));
    assert Step(once, ReadTo(w), t);
  }

  /** A worker locks, reads and sends. */
  lemma Sends(r: State -> bool, s: State, w: nat, b: nat) returns (t: State)
    requires Closed(r) && r(s) && WellFormed(s) && w < |s.checks| && b >= GAS_LIMIT
    requires s.locks.workers[w] == ToOneself(0) && 0 !in s.locks.owner
    requires s.checks[w] == FRESH_CHECK && s.chain.balances == [b]
    ensures r(t) && WellFormed(t)
    ensures t.locks == AccountLocks.State.State(s.locks.owner[0 := w], s.locks.workers[w := ToOneself(1)])
    ensures t.checks == s.checks[w := Check(AtReceipt, 0, 1, b, b)] && t.drifts == s.drifts
    ensures t.chain == s.chain.(pending := s.chain.pending[w := TO_ONESELF])
  {
    ProgramToOneself(1);
    var locked := Locks(r, s, w);
    var read := Reads(r, locked, w, b);
    t := SetCheck(read, w, Check(AtReceipt, 0, 1, b, b)).(
           chain := s.chain.(pending := s.chain.pending[w := TO_ONESELF]));
    assert Step(read, SendTransfer(w, true), t);
  }

  /** A worker gives up on its transfer and unlocks. */
  lemma GivesUp(r: State -> bool, s: State, w: nat) returns (t: State)
    requires Closed(r) && r(s) && WellFormed(s) && w < |s.checks|
    requires s.locks.workers[w] == ToOneself(1) && s.locks.owner == map[0 := w] && s.checks[w].phase.AtReceipt?
    ensures r(t) && WellFormed(t)
    ensures t.locks == AccountLocks.State.State(map[], s.locks.workers[w := ToOneself(3)])
    ensures t.checks == s.checks[w := s.checks[w].(phase := Returned(false))]
    ensures t.chain == s.chain && t.drifts == s.drifts
  {
    ProgramToOneself(1);
    ProgramToOneself(2);
    var gaveUp := SetCheck(s, w, s.checks[w].(phase := Returned(false)));
    assert Step(s, TimeOutReceipt(w), gaveUp);
    var returned := gaveUp.(locks := Execute(s.locks, w));
    assert Step(gaveUp, Return(w), returned);
    t := returned.(locks := Execute(returned.locks, w));
    assert Step(returned, LockOrUnlock(w), t);
    assert map[0 := w] - {0} == map[];
  }

  /** The first worker has given up, and the second one waits for its own transfer. */
  lemma OneOrphan(r: State -> bool) returns (s: State)
    requires Closed(r)
    ensures r(s) && WellFormed(s)
    ensures s.locks == AccountLocks.State.State(map[0 := 1], [ToOneself(3), ToOneself(1)])
    ensures s.checks == [Check(Returned(false), 0, 1, 100000, 100000), Check(AtReceipt, 0, 1, 100000, 100000)]
    ensures s.chain == Chain([100000], map[0 := TO_ONESELF, 1 := TO_ONESELF], map[], 0)
    ensures s.drifts == [Drift(0, 0, 0), Drift(0, 0, 0)]
  {
    var start := State.State(AccountLocks.State.State(map[], [ToOneself(0), ToOneself(0)]), [FRESH_CHECK, FRESH_CHECK],
                             Chain([100000], map[], map[], 0), [Drift(0, 0, 0), Drift(0, 0, 0)]);
    assert Init(start);
    var sent := Sends(r, start, 0, 100000);
    var orphaned := GivesUp(r, sent, 0);
    s := Sends(r, orphaned, 1, 100000);
  }

  /** The orphan is mined, and then the second worker's transfer. */
  lemma BothMined(r: State -> bool, s: State) returns (t: State)
    requires Closed(r) && r(s) && WellFormed(s)
    requires s.locks.workers == [ToOneself(3), ToOneself(1)]
    requires s.checks == [Check(Returned(false), 0, 1, 100000, 100000), Check(AtReceipt, 0, 1, 100000, 100000)]
    requires s.chain == Chain([100000], map[0 := TO_ONESELF, 1 := TO_ONESELF], map[], 0)
    requires s.drifts == [Drift(0, 0, 0), Drift(0, 0, 0)]
    ensures r(t) && WellFormed(t) && t.locks == s.locks && t.checks == s.checks
    ensures t.chain.balances == [99998] && t.chain.receipts == map[0 := 1, 1 := 1]
    ensures |t.drifts| == 2 && t.drifts[1] == Drift(1, -1, -1)
  {
    var drifts := Drifts(s, 0, 1);
    var once := s.(chain := s.chain.Mine(0, 1), drifts := drifts);
    assert drifts[1] == Drifted(s.drifts[1], JobOf(s, 1), s.checks[1].phase, TO_ONESELF, 1);
    assert Step(s, MineTransfer(0, 1), once);
    assert once.chain.balances == [99999] && once.chain.pending == map[1 := TO_ONESELF];
    t := once.(chain := once.chain.Mine(1, 1));
    assert Step(once, MineTransfer(1, 1), t);
  }

  lemma AlarmRaised(r: State -> bool) returns (s: State)
    requires Closed(r)
    ensures r(s) && WellFormed(s)
    ensures |s.checks| == 2 && s.checks[1].phase.AtCheckFrom? && 1 in s.chain.receipts
    ensures s.drifts[1] == Drift(1, -1, -1) && s.chain.balances == [s.checks[1].fromBalance - 1]
  {
    ProgramToOneself(1);
    var orphaned := OneOrphan(r);
    var mined := BothMined(r, orphaned);
    s := SetCheck(mined, 1, Predict(mined.checks[1], Transfer(0, 0), 1));
    assert Step(mined, SeeReceipt(1), s);
  }

  /** A false alarm: one worker gives up, another one reads its balance and sends, and then the orphan is mined. The
      second worker's own transfer succeeds, but its balance is off by the orphan's fee, and the comparison can only
      time out. */
  lemma OrphanRaisesAlarm() returns (s: State)
    ensures Reachable(s) && WellFormed(s)
    ensures |s.checks| == 2 && s.checks[1].phase.AtCheckFrom? && 1 in s.chain.receipts
    ensures s.drifts[1] == Drift(1, -1, -1) && s.chain.balances == [s.checks[1].fromBalance - 1]
  {
    ReachableClosed();
    s := AlarmRaised(s => Reachable(s));
  }

  // ---------- conservation ----------

  function Sum(balances: seq<int>): int {
    if balances == [] then 0 else balances[0] + Sum(balances[1..])
  }

  lemma {:induction false} SumUpdate(balances: seq<int>, a: nat, x: int)
    requires a < |balances|
    ensures Sum(balances[a := x]) == Sum(balances) - balances[a] + x
  {
    if a == 0 {
      assert balances[a := x][1..] == balances[1..];
    } else {
      SumUpdate(balances[1..], a - 1, x);
      assert balances[a := x][1..] == balances[1..][a - 1 := x];
    }
  }

  // Automatic induction on `balances` would only get in the way here.
  lemma {:induction false} MovedConserves(balances: seq<int>, from: Address, to: Address, value: int, fee: int)
    requires from < |balances| && to < |balances|
    ensures Sum(Moved(balances, from, to, value, fee)) + fee == Sum(balances)
  {
    SumUpdate(balances, from, balances[from] - value - fee);
    var paid := balances[from := balances[from] - value - fee];
    SumUpdate(paid, to, paid[to] + value);
  }

  lemma StepConserves(s: State, a: Action, t: State)
    requires WellFormed(s) && Step(s, a, t)
    ensures Sum(t.chain.balances) + t.chain.fees == Sum(s.chain.balances) + s.chain.fees
  {
    if a.MineTransfer? {
      var tx := s.chain.pending[a.w];
      MovedConserves(s.chain.balances, tx.from, tx.to, tx.value, a.gasUsed * tx.gasPrice);
    }
  }

  /** Value is neither created nor lost: the balances and the fees paid keep their total in every run. */
  lemma {:induction false} ValueConserved(states: seq<State>, actions: seq<Action>, i: nat)
    requires IsRun(states, actions) && i < |states|
    ensures Sum(states[i].chain.balances) + states[i].chain.fees
            == Sum(states[0].chain.balances) + states[0].chain.fees
  {
    if i > 0 {
      ValueConserved(states, actions, i - 1);
      assert StepAt(states, actions, i - 1);
      StepConserves(states[i - 1], actions[i - 1], states[i]);
    }
  }
}
