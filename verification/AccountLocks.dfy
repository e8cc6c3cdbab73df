/** The account mutexes: any number of workers, each of which locks one account (a plain sender) or two
    accounts (a checked transfer, through doubleLock), does its work, and unlocks them. An address is
    represented by its rank in the order of address strings. */
module AccountLocks {

  type Address = nat

  datatype Job = Transfer(to: Address, from: Address) | Send(account: Address)

  datatype Instruction = Lock(locked: Address) | Body | Unlock(unlocked: Address)

  /** doubleLock: the larger address first. */
  function LockOrder(job: Job): seq<Address> {
    match job
    case Send(account) => [account]
    case Transfer(to, from) =>
      if from == to then [from]
      else if from > to then [from, to]
      else [to, from]
  }

  /** doubleUnlock. */
  function UnlockOrder(job: Job): seq<Address> {
    match job
    case Send(account) => [account]
    case Transfer(to, from) =>
      if from == to then [from]
      else if from > to then [from, to]
      else [to, from]
  }

  function Program(job: Job): seq<Instruction> {
    var locks, unlocks := LockOrder(job), UnlockOrder(job);
    seq(|locks|, i requires 0 <= i < |locks| => Lock(locks[i]))
    + [Body]
    + seq(|unlocks|, i requires 0 <= i < |unlocks| => Unlock(unlocks[i]))
  }

  /** A worker about to execute instruction `pc` of its program. */
  datatype Worker = Worker(job: Job, pc: nat) {
    predicate Finished() {
      pc >= |Program(job)|
    }

    function Next(): Instruction
      requires !Finished()
    {
      Program(job)[pc]
    }
  }

  /** `owner` maps each locked mutex to the worker that has locked it. */
  datatype State = State(owner: map<Address, nat>, workers: seq<Worker>)

  ghost predicate Init(s: State) {
    s.owner == map[] && forall w :: 0 <= w < |s.workers| ==> s.workers[w].pc == 0
  }

  /** Worker w can go on: only a locked mutex holds it up. Unlocking a mutex that is not locked is a
      run-time error, so it is no step. */
  predicate Enabled(s: State, w: nat) {
    && w < |s.workers| && !s.workers[w].Finished()
    && match s.workers[w].Next()
       case Lock(a) => a !in s.owner
       case Body => true
       case Unlock(a) => a in s.owner
  }

  function Execute(s: State, w: nat): State
    requires Enabled(s, w)
  {
    var worker := s.workers[w];
    State(OwnerAfter(s.owner, w, worker.Next()), s.workers[w := worker.(pc := worker.pc + 1)])
  }

  function OwnerAfter(owner: map<Address, nat>, w: nat, instruction: Instruction): map<Address, nat> {
    match instruction
    case Lock(a) => owner[a := w]
    case Body => owner
    case Unlock(a) => owner - {a}
  }

  // ---------- the invariant ----------

  /** The mutexes that a worker holds, by how far it has come. */
  function Held(worker: Worker): set<Address> {
    var locks := LockOrder(worker.job);
    var from := if worker.pc > |locks| then worker.pc - |locks| - 1 else 0;
    var upTo := if worker.pc < |locks| then worker.pc else |locks|;
    set i | from <= i < upTo :: locks[i]
  }

  /** The mutexes that are locked are exactly those that the workers hold, each by one worker. */
  ghost predicate Inv(s: State) {
    Consistent(s.owner, Holdings(s.workers))
  }

  ghost function Holdings(workers: seq<Worker>): (held: seq<set<Address>>)
    ensures |held| == |workers| && forall w :: 0 <= w < |workers| ==> held[w] == Held(workers[w])
  {
    seq(|workers|, w requires 0 <= w < |workers| => Held(workers[w]))
  }

  ghost predicate Consistent(owner: map<Address, nat>, held: seq<set<Address>>) {
    && (forall a :: a in owner ==> owner[a] < |held| && a in held[owner[a]])
    && (forall w, a :: 0 <= w < |held| && a in held[w] ==> a in owner && owner[a] == w)
  }

  /** The mutexes are unlocked in the order in which they were locked, and no mutex is locked twice. */
  lemma ProgramShape(job: Job)
    ensures var n := |LockOrder(job)|;
            && UnlockOrder(job) == LockOrder(job)
            && 1 <= n <= 2
            && |Program(job)| == 2 * n + 1
            && (forall i :: 0 <= i < n ==> Program(job)[i] == Lock(LockOrder(job)[i]))
            && Program(job)[n] == Body
            && (forall i :: 0 <= i < n ==> Program(job)[n + 1 + i] == Unlock(LockOrder(job)[i]))
            && (n == 2 ==> LockOrder(job)[0] > LockOrder(job)[1])
  {
  }

  ghost predicate HeldAfter(instruction: Instruction, held: set<Address>, held': set<Address>) {
    match instruction
    case Lock(a) => a !in held && held' == held + {a}
    case Body => held' == held
    case Unlock(a) => a in held && held' == held - {a}
  }

  /** One instruction of one worker changes what it holds by exactly the mutex that it names. */
  lemma HeldChanges(worker: Worker)
    requires !worker.Finished()
    ensures var held, held' := Held(worker), Held(worker.(pc := worker.pc + 1));
            HeldAfter(worker.Next(), held, held')
  {
    NextInstruction(worker);
    var locks, n := LockOrder(worker.job), |LockOrder(worker.job)|;
    if worker.pc < n {
      assert Held(worker.(pc := worker.pc + 1)) == Held(worker) + {locks[worker.pc]};
    } else if worker.pc > n {
      var k := worker.pc - n - 1;
      assert Held(worker) == {locks[k]} + Held(worker.(pc := worker.pc + 1));
    }
  }

  lemma NextInstruction(worker: Worker)
    requires !worker.Finished()
    ensures var locks, n := LockOrder(worker.job), |LockOrder(worker.job)|;
            && 1 <= n <= 2 && worker.pc < 2 * n + 1
            && (n == 2 ==> locks[0] > locks[1])
            && worker.Next() == if worker.pc < n then Lock(locks[worker.pc])
                                else if worker.pc == n then Body
                                else Unlock(locks[worker.pc - n - 1])
  {
    ProgramShape(worker.job);
    var n := |LockOrder(worker.job)|;
    if worker.pc < n {
      assert Program(worker.job)[worker.pc] == Lock(LockOrder(worker.job)[worker.pc]);
    } else if worker.pc > n {
      var k := worker.pc - n - 1;
      assert Program(worker.job)[n + 1 + k] == Unlock(LockOrder(worker.job)[k]);
    }
  }

  lemma ExecuteKeepsInv(s: State, w: nat)
    requires Inv(s) && Enabled(s, w)
    ensures Inv(Execute(s, w))
  {
    var worker := s.workers[w];
    var worker' := worker.(pc := worker.pc + 1);
    HeldChanges(worker);
    Advance(s, w, worker.Next(), worker');
  }

  lemma Advance(s: State, w: nat, instruction: Instruction, worker: Worker)
    requires Inv(s) && w < |s.workers|
    requires instruction.Lock? ==> instruction.locked !in s.owner
    requires HeldAfter(instruction, Held(s.workers[w]), Held(worker))
    ensures Inv(State(OwnerAfter(s.owner, w, instruction), s.workers[w := worker]))
  {
    OwnersFollow(s.owner, Holdings(s.workers), w, instruction, Held(worker));
    HoldingsUpdate(s.workers, w, worker);
  }

  lemma HoldingsUpdate(workers: seq<Worker>, w: nat, worker: Worker)
    requires w < |workers|
    ensures Holdings(workers[w := worker]) == Holdings(workers)[w := Held(worker)]
  {
  }

  lemma OwnersFollow(owner: map<Address, nat>, held: seq<set<Address>>, w: nat, instruction: Instruction,
                     held': set<Address>)
    requires Consistent(owner, held) && w < |held|
    requires instruction.Lock? ==> instruction.locked !in owner
    requires HeldAfter(instruction, held[w], held')
    ensures Consistent(OwnerAfter(owner, w, instruction), held[w := held'])
  {
    var owner', changed := OwnerAfter(owner, w, instruction), held[w := held'];
    forall v, a | 0 <= v < |changed| && a in changed[v] ensures a in owner' && owner'[a] == v {
      if instruction.Unlock? {
        assert owner[instruction.unlocked] == w && a in held[v];
      } else {
        assert a in held[v] || (v == w && instruction == Lock(a));
      }
    }
    forall a | a in owner' ensures owner'[a] < |changed| && a in changed[owner'[a]] {
      if a in owner {
        assert a in held[owner[a]];
      }
    }
  }

  /** What a worker holds is locked, and in its name. */
  lemma HeldIsOwned(s: State, w: nat, a: Address)
    requires Inv(s) && w < |s.workers| && a in Held(s.workers[w])
    ensures a in s.owner && s.owner[a] == w
  {
    assert a in Holdings(s.workers)[w];
  }

  /** The accounts that a job is about. */
  function Accounts(job: Job): set<Address> {
    match job
    case Send(account) => {account}
    case Transfer(to, from) => {to, from}
  }

  /** A worker that is about to do its work owns the mutexes of its job's accounts, and no others. */
  lemma BodyOwnsItsAccounts(s: State, w: nat, a: Address)
    requires Inv(s) && w < |s.workers| && !s.workers[w].Finished() && s.workers[w].Next().Body?
    ensures a in s.owner && s.owner[a] == w <==> a in Accounts(s.workers[w].job)
  {
    var worker := s.workers[w];
    NextInstruction(worker);
    var locks := LockOrder(worker.job);
    assert forall i :: 0 <= i < |locks| ==> locks[i] in Held(worker);
    assert a in Held(worker) <==> a in Accounts(worker.job);
    if a in s.owner && s.owner[a] == w {
      assert a in Holdings(s.workers)[w];
    }
    if a in Held(worker) {
      HeldIsOwned(s, w, a);
    }
  }

  /** No unlock ever fails: the mutex that a worker is about to unlock is locked, by that worker. */
  lemma UnlockFindsOwnLock(s: State, w: nat)
    requires Inv(s) && w < |s.workers| && !s.workers[w].Finished() && s.workers[w].Next().Unlock?
    ensures Enabled(s, w) && s.owner[s.workers[w].Next().unlocked] == w
  {
    HeldChanges(s.workers[w]);
  }

  // ---------- deadlock freedom ----------

  /** Waiting leads downwards: whoever holds the mutex that a worker waits for can go on, or waits for a
      smaller one. */
  lemma {:induction false} SomeoneCanGoOn(s: State, w: nat) returns (v: nat)
    requires Inv(s) && w < |s.workers| && !s.workers[w].Finished()
    ensures Enabled(s, v)
    decreases WaitedFor(s.workers[w])
  {
    if Enabled(s, w) {
      return w;
    }
    if s.workers[w].Next().Unlock? {
      UnlockFindsOwnLock(s, w);
    }
    var a := s.workers[w].Next().locked;
    var holder := s.owner[a];
    HolderWaitsLower(s.workers[holder], a);
    v := SomeoneCanGoOn(s, holder);
  }

  /** One more than the address whose lock comes next; 0 once no lock comes next. */
  function WaitedFor(worker: Worker): nat {
    if !worker.Finished() && worker.Next().Lock? then worker.Next().locked + 1 else 0
  }

  lemma HolderWaitsLower(worker: Worker, a: Address)
    requires a in Held(worker)
    ensures !worker.Finished() && WaitedFor(worker) < a + 1
  {
    ProgramShape(worker.job);
    assert !worker.Finished();
    NextInstruction(worker);
  }

  // ---------- whole runs ----------

  /** A schedule names the worker that takes each step. */
  ghost predicate IsRun(states: seq<State>, schedule: seq<nat>) {
    && |states| == |schedule| + 1
    && Init(states[0])
    && forall i :: 0 <= i < |schedule| ==>
         Enabled(states[i], schedule[i]) && states[i + 1] == Execute(states[i], schedule[i])
  }

  lemma {:induction false} RunKeepsInv(states: seq<State>, schedule: seq<nat>, i: nat)
    requires IsRun(states, schedule) && i < |states|
    ensures Inv(states[i]) && |states[i].workers| == |states[0].workers|
  {
    if i > 0 {
      RunKeepsInv(states, schedule, i - 1);
      ExecuteKeepsInv(states[i - 1], schedule[i - 1]);
    }
  }

  /** No reachable unfinished state is a deadlock, whatever the jobs and their number. */
  lemma NoDeadlock(states: seq<State>, schedule: seq<nat>, i: nat)
    requires IsRun(states, schedule) && i < |states|
    requires exists w :: 0 <= w < |states[i].workers| && !states[i].workers[w].Finished()
    ensures exists v: nat :: Enabled(states[i], v)
  {
    RunKeepsInv(states, schedule, i);
    var w :| 0 <= w < |states[i].workers| && !states[i].workers[w].Finished();
    var _ := SomeoneCanGoOn(states[i], w);
  }

  /** What worker w has executed in the first i steps of a run. */
  ghost function Executed(states: seq<State>, schedule: seq<nat>, w: nat, i: nat): seq<Instruction>
    requires IsRun(states, schedule) && i <= |schedule|
  {
    if i == 0 then []
    else if schedule[i - 1] == w then
      Executed(states, schedule, w, i - 1) + [states[i - 1].workers[w].Next()]
    else Executed(states, schedule, w, i - 1)
  }

  /** In every run each worker executes its program from the start, instruction by instruction. Once it has
      finished, it has locked and unlocked each of its accounts exactly once, and holds nothing. */
  lemma {:induction false} ProgramsRunInOrder(states: seq<State>, schedule: seq<nat>, w: nat, i: nat)
    requires IsRun(states, schedule) && i <= |schedule| && w < |states[0].workers|
    ensures |states[i].workers| == |states[0].workers|
    ensures var worker := states[i].workers[w];
            && worker.job == states[0].workers[w].job
            && worker.pc <= |Program(worker.job)|
            && Executed(states, schedule, w, i) == Program(worker.job)[..worker.pc]
            && (worker.Finished() ==> Held(worker) == {} && Executed(states, schedule, w, i) == Program(worker.job))
  {
    if i > 0 {
      ProgramsRunInOrder(states, schedule, w, i - 1);
      if schedule[i - 1] == w {
        OneInstructionMore(states[i - 1].workers[w]);
      }
    }
    FinishedHoldsNothing(states[i].workers[w]);
  }

  lemma OneInstructionMore(worker: Worker)
    requires !worker.Finished()
    ensures Program(worker.job)[..worker.pc + 1] == Program(worker.job)[..worker.pc] + [worker.Next()]
  {
  }

  lemma FinishedHoldsNothing(worker: Worker)
    ensures worker.Finished() && worker.pc <= |Program(worker.job)| ==>
              Held(worker) == {} && Program(worker.job)[..worker.pc] == Program(worker.job)
  {
    ProgramShape(worker.job);
  }

  /** All instructions that are still to come. */
  function Remaining(workers: seq<Worker>): int {
    if workers == [] then 0
    else |Program(workers[0].job)| - workers[0].pc + Remaining(workers[1..])
  }

  lemma {:induction false} RemainingDrops(workers: seq<Worker>, w: nat)
    requires w < |workers|
    ensures Remaining(workers[w := workers[w].(pc := workers[w].pc + 1)]) == Remaining(workers) - 1
  {
    var advanced := workers[w].(pc := workers[w].pc + 1);
    if w > 0 {
      RemainingDrops(workers[1..], w - 1);
      assert workers[w := advanced][1..] == workers[1..][w - 1 := advanced];
    } else {
      assert workers[w := advanced][1..] == workers[1..];
    }
  }

  /** Every run takes one step after the other off the programs, so it ends, and it ends with all mutexes
      unlocked when every worker has finished. */
  lemma {:induction false} RunsEnd(states: seq<State>, schedule: seq<nat>, i: nat)
    requires IsRun(states, schedule) && i <= |schedule|
    ensures i == Remaining(states[0].workers) - Remaining(states[i].workers)
    ensures (forall w :: 0 <= w < |states[i].workers| ==> states[i].workers[w].Finished()) ==> states[i].owner == map[]
  {
    if i > 0 {
      RunsEnd(states, schedule, i - 1);
      RemainingDrops(states[i - 1].workers, schedule[i - 1]);
    }
    RunKeepsInv(states, schedule, i);
    if forall w :: 0 <= w < |states[i].workers| ==> states[i].workers[w].Finished() {
      forall a | a in states[i].owner ensures false {
        HolderWaitsLower(states[i].workers[states[i].owner[a]], a);
      }
    }
  }
}
