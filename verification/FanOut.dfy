/** ConcurrentTransactionSend: one goroutine per account, at most as many callbacks at once as the channel has
    slots, a shared counter for the progress reports, and a wait group. */
module FanOut {

  /** The main goroutine: about to take a slot, to add to the wait group, to start the goroutine for account
      `idx`, to wait, or back from the call. */
  datatype Main = AtSend(idx: nat) | AtAdd(idx: nat) | AtSpawn(idx: nat) | AtWait | Back

  /** The goroutine for one account. `seen` is what its atomic increment has returned. */
  datatype Phase = Calling | AtReceive | AtCount | AtDone(seen: nat) | Exited(seen: nat)

  /** `workers[k]` handles account k. `handled` lists the accounts in the order in which their callbacks ended. */
  datatype State = State(main: Main, channel: nat, waitGroup: int, completed: nat,
                         workers: seq<Phase>, handled: seq<nat>)

  function Capacity(maxConcurrency: int, numCPU: nat): int {
    if maxConcurrency <= 0 then numCPU * 10 else maxConcurrency
  }

  function Start(total: nat): State {
    State(if total == 0 then Back else AtSend(0), 0, 0, 0, [], [])
  }

  datatype Actor = MainGoroutine | Goroutine(k: nat)

  predicate Enabled(s: State, a: Actor, total: nat, capacity: int) {
    match a
    case MainGoroutine =>
      (match s.main
       case AtSend(idx) => idx >= total || s.channel < capacity
       case AtAdd(_) => true
       case AtSpawn(_) => true
       case AtWait => s.waitGroup == 0
       case Back => false)
    case Goroutine(k) =>
      && k < |s.workers| && !s.workers[k].Exited?
      && (s.workers[k].AtReceive? ==> s.channel > 0)
  }

  function Next(s: State, a: Actor, total: nat, capacity: int): State
    requires Enabled(s, a, total, capacity)
  {
    match a
    case MainGoroutine =>
      (match s.main
       case AtSend(idx) =>
         if idx >= total then s.(main := AtWait) else s.(main := AtAdd(idx), channel := s.channel + 1)
       case AtAdd(idx) => s.(main := AtSpawn(idx), waitGroup := s.waitGroup + 1)
       case AtSpawn(idx) => s.(main := AtSend(idx + 1), workers := s.workers + [Calling])
       case AtWait => s.(main := Back))
    case Goroutine(k) =>
      match s.workers[k]
      case Calling => Become(s, k, AtReceive).(handled := s.handled + [k])
      case AtReceive => Become(s, k, AtCount).(channel := s.channel - 1)
      case AtCount => Become(s, k, AtDone(s.completed + 1)).(completed := s.completed + 1)
      case AtDone(seen) => Become(s, k, Exited(seen)).(waitGroup := s.waitGroup - 1)
  }

  function Become(s: State, k: nat, phase: Phase): State
    requires k < |s.workers|
  {
    s.(workers := s.workers[k := phase])
  }

  // ---------- counting ----------

  ghost function Count(phases: seq<Phase>, p: Phase -> bool): nat {
    if phases == [] then 0 else (if p(phases[0]) then 1 else 0) + Count(phases[1..], p)
  }

  lemma {:induction false} CountUpdate(phases: seq<Phase>, k: nat, phase: Phase, p: Phase -> bool)
    requires k < |phases|
    ensures Count(phases[k := phase], p)
            == Count(phases, p) + (if p(phase) then 1 else 0) - (if p(phases[k]) then 1 else 0)
  {
    if k == 0 {
      assert phases[k := phase][1..] == phases[1..];
    } else {
      CountUpdate(phases[1..], k - 1, phase, p);
      assert phases[k := phase][1..] == phases[1..][k - 1 := phase];
    }
  }

  lemma {:induction false} CountAppend(phases: seq<Phase>, phase: Phase, p: Phase -> bool)
    ensures Count(phases + [phase], p) == Count(phases, p) + if p(phase) then 1 else 0
  {
    if phases != [] {
      CountAppend(phases[1..], phase, p);
      assert (phases + [phase])[1..] == phases[1..] + [phase];
    }
  }

  lemma {:induction false} CountPositive(phases: seq<Phase>, k: nat, p: Phase -> bool)
    requires k < |phases| && p(phases[k])
    ensures Count(phases, p) > 0
  {
    if k > 0 {
      CountPositive(phases[1..], k - 1, p);
    }
  }

  lemma {:induction false} CountAll(phases: seq<Phase>, p: Phase -> bool)
    ensures Count(phases, p) <= |phases|
    ensures Count(phases, p) == |phases| <==> forall k :: 0 <= k < |phases| ==> p(phases[k])
    ensures Count(phases, p) == 0 <==> forall k :: 0 <= k < |phases| ==> !p(phases[k])
  {
    if phases != [] {
      CountAll(phases[1..], p);
      assert forall k :: 0 <= k < |phases| - 1 ==> phases[1..][k] == phases[k + 1];
      assert forall k :: 0 < k < |phases| ==> phases[k] == phases[1..][k - 1];
    }
  }

  lemma {:induction false} CountLess(phases: seq<Phase>, p: Phase -> bool, q: Phase -> bool)
    requires forall phase :: p(phase) ==> q(phase)
    ensures Count(phases, p) <= Count(phases, q)
  {
    if phases != [] {
      CountLess(phases[1..], p, q);
    }
  }

  predicate IsCalling(phase: Phase) {
    phase.Calling?
  }

  predicate HasSlot(phase: Phase) {
    phase.Calling? || phase.AtReceive?
  }

  predicate HasCounted(phase: Phase) {
    phase.AtDone? || phase.Exited?
  }

  predicate IsLive(phase: Phase) {
    !phase.Exited?
  }

  // ---------- the invariant ----------

  ghost predicate Inv(s: State, total: nat, capacity: int) {
    && MainInv(s, total, capacity)
    && s.completed == Count(s.workers, HasCounted)
    && SeenInv(s.workers, s.completed)
    && HandledInv(s.workers, s.handled)
  }

  /** Every slot in use and every unit of the wait group has its owner. */
  ghost predicate MainInv(s: State, total: nat, capacity: int) {
    && s.channel == Count(s.workers, HasSlot) + (if s.main.AtAdd? || s.main.AtSpawn? then 1 else 0)
    && s.channel <= capacity
    && s.waitGroup == Count(s.workers, IsLive) + (if s.main.AtSpawn? then 1 else 0)
    && match s.main
       case AtSend(idx) => idx == |s.workers| <= total
       case AtAdd(idx) => idx == |s.workers| < total
       case AtSpawn(idx) => idx == |s.workers| < total
       case AtWait => |s.workers| == total
       case Back => |s.workers| == total && s.waitGroup == 0
  }

  /** The counts seen are 1 up to `completed`, each by one goroutine. */
  ghost predicate SeenInv(workers: seq<Phase>, completed: nat) {
    && (forall k :: 0 <= k < |workers| && HasCounted(workers[k]) ==> 1 <= workers[k].seen <= completed)
    && (forall j, k :: 0 <= j < k < |workers| && HasCounted(workers[j]) && HasCounted(workers[k]) ==>
          workers[j].seen != workers[k].seen)
    && (forall c :: 1 <= c <= completed ==> Saw(workers, c))
  }

  ghost predicate Saw(workers: seq<Phase>, c: nat) {
    exists k :: 0 <= k < |workers| && HasCounted(workers[k]) && workers[k].seen == c
  }

  /** The accounts whose callbacks have ended are listed once each. */
  ghost predicate HandledInv(workers: seq<Phase>, handled: seq<nat>) {
    && (forall j, k :: 0 <= j < k < |handled| ==> handled[j] != handled[k])
    && (forall k: nat :: k in handled <==> k < |workers| && !workers[k].Calling?)
  }

  lemma NextKeepsInv(s: State, a: Actor, total: nat, capacity: int)
    requires Inv(s, total, capacity) && Enabled(s, a, total, capacity)
    ensures Inv(Next(s, a, total, capacity), total, capacity)
  {
    match a
    case MainGoroutine => MainKeepsInv(s, total, capacity);
    case Goroutine(k) => GoroutineKeepsInv(s, k, total, capacity);
  }

  lemma MainKeepsInv(s: State, total: nat, capacity: int)
    requires Inv(s, total, capacity) && Enabled(s, MainGoroutine, total, capacity)
    ensures Inv(Next(s, MainGoroutine, total, capacity), total, capacity)
  {
    if s.main.AtSpawn? {
      CountAppend(s.workers, Calling, HasSlot);
      CountAppend(s.workers, Calling, HasCounted);
      CountAppend(s.workers, Calling, IsLive);
      SpawnKeepsSeen(s.workers, s.completed);
    }
  }

  lemma SpawnKeepsSeen(workers: seq<Phase>, completed: nat)
    requires SeenInv(workers, completed)
    ensures SeenInv(workers + [Calling], completed)
  {
    forall c | 1 <= c <= completed ensures Saw(workers + [Calling], c) {
      assert Saw(workers, c);
      var k :| 0 <= k < |workers| && HasCounted(workers[k]) && workers[k].seen == c;
      assert (workers + [Calling])[k] == workers[k];
    }
  }

  lemma GoroutineKeepsInv(s: State, k: nat, total: nat, capacity: int)
    requires Inv(s, total, capacity) && Enabled(s, Goroutine(k), total, capacity)
    ensures Inv(Next(s, Goroutine(k), total, capacity), total, capacity)
  {
    var t := Next(s, Goroutine(k), total, capacity);
    CountUpdate(s.workers, k, t.workers[k], HasSlot);
    CountUpdate(s.workers, k, t.workers[k], HasCounted);
    CountUpdate(s.workers, k, t.workers[k], IsLive);
    CountPositive(s.workers, k, IsLive);
    SeenFollows(s.workers, k, t.workers[k], s.completed);
    HandledFollows(s.workers, k, t.workers[k], s.handled);
  }

  lemma SeenFollows(workers: seq<Phase>, k: nat, phase: Phase, completed: nat)
    requires SeenInv(workers, completed) && k < |workers|
    requires HasCounted(workers[k]) ==> HasCounted(phase) && phase.seen == workers[k].seen
    requires !HasCounted(workers[k]) && HasCounted(phase) ==> phase.seen == completed + 1
    ensures SeenInv(workers[k := phase],
                    if !HasCounted(workers[k]) && HasCounted(phase) then completed + 1 else completed)
  {
    var workers' := workers[k := phase];
    if HasCounted(phase) {
      assert workers'[k] == phase;
      assert Saw(workers', phase.seen);
    }
    forall c | 1 <= c <= completed ensures Saw(workers', c) {
      assert Saw(workers, c);
      var j :| 0 <= j < |workers| && HasCounted(workers[j]) && workers[j].seen == c;
      assert HasCounted(workers'[j]) && workers'[j].seen == c;
    }
  }

  lemma HandledFollows(workers: seq<Phase>, k: nat, phase: Phase, handled: seq<nat>)
    requires HandledInv(workers, handled) && k < |workers| && !phase.Calling?
    ensures HandledInv(workers[k := phase], if workers[k].Calling? then handled + [k] else handled)
  {
    if workers[k].Calling? {
      assert k !in handled;
      forall j | 0 <= j < |handled| ensures handled[j] != k {
        assert handled[j] in handled;
      }
    }
  }

  // ---------- whole runs ----------

  ghost predicate IsRun(states: seq<State>, schedule: seq<Actor>, total: nat, capacity: int) {
    && |states| == |schedule| + 1
    && states[0] == Start(total)
    && forall i :: 0 <= i < |schedule| ==>
         && Enabled(states[i], schedule[i], total, capacity)
         && states[i + 1] == Next(states[i], schedule[i], total, capacity)
  }

  lemma {:induction false} RunKeepsInv(states: seq<State>, schedule: seq<Actor>, total: nat, capacity: int, i: nat)
    requires IsRun(states, schedule, total, capacity) && capacity >= 1 && i < |states|
    ensures Inv(states[i], total, capacity)
  {
    if i > 0 {
      RunKeepsInv(states, schedule, total, capacity, i - 1);
      NextKeepsInv(states[i - 1], schedule[i - 1], total, capacity);
    }
  }

  /** The default makes room for at least one callback, as any positive setting does. */
  lemma CapacityPositive(maxConcurrency: int, numCPU: nat)
    requires numCPU >= 1
    ensures Capacity(maxConcurrency, numCPU) >= 1
  {
  }

  /** At no time are more callbacks running than the channel has slots. */
  lemma ConcurrencyBounded(states: seq<State>, schedule: seq<Actor>, total: nat, capacity: int, i: nat)
    requires IsRun(states, schedule, total, capacity) && capacity >= 1 && i < |states|
    ensures Count(states[i].workers, IsCalling) <= capacity
  {
    RunKeepsInv(states, schedule, total, capacity, i);
    CountLess(states[i].workers, IsCalling, HasSlot);
  }

  /** In terms of the setting: at most as many as it says, or ten for each CPU if it says none. */
  lemma ConcurrencyAsSet(states: seq<State>, schedule: seq<Actor>, total: nat, maxConcurrency: int, numCPU: nat, i: nat)
    requires IsRun(states, schedule, total, Capacity(maxConcurrency, numCPU)) && numCPU >= 1 && i < |states|
    ensures maxConcurrency > 0 ==> Count(states[i].workers, IsCalling) <= maxConcurrency
    ensures maxConcurrency <= 0 ==> Count(states[i].workers, IsCalling) <= 10 * numCPU
  {
    CapacityPositive(maxConcurrency, numCPU);
    ConcurrencyBounded(states, schedule, total, Capacity(maxConcurrency, numCPU), i);
  }

  /** n goroutines have been started, and all of them are in their callbacks. */
  function Started(n: nat): State {
    State(AtSend(n), n, n, 0, seq(n, _ => Calling), [])
  }

  lemma {:induction false} AllCalling(n: nat)
    ensures Count(seq(n, _ => Calling), IsCalling) == n
  {
    if n > 0 {
      AllCalling(n - 1);
      assert seq(n, _ => Calling)[1..] == seq(n - 1, _ => Calling);
    }
  }

  lemma {:induction false} StartSome(total: nat, capacity: int, n: nat)
    returns (states: seq<State>, schedule: seq<Actor>)
    requires 0 < total && n <= total && n <= capacity
    ensures IsRun(states, schedule, total, capacity) && states[|schedule|] == Started(n)
  {
    if n == 0 {
      states, schedule := [Start(total)], [];
    } else {
      states, schedule := StartSome(total, capacity, n - 1);
      states, schedule := MainStep(states, schedule, total, capacity);
      states, schedule := MainStep(states, schedule, total, capacity);
      states, schedule := MainStep(states, schedule, total, capacity);
      assert seq(n - 1, _ => Calling) + [Calling] == seq(n, _ => Calling);
    }
  }

  lemma MainStep(states: seq<State>, schedule: seq<Actor>, total: nat, capacity: int)
    returns (states': seq<State>, schedule': seq<Actor>)
    requires IsRun(states, schedule, total, capacity) && Enabled(states[|schedule|], MainGoroutine, total, capacity)
    ensures IsRun(states', schedule', total, capacity)
    ensures states'[|schedule'|] == Next(states[|schedule|], MainGoroutine, total, capacity)
  {
    states' := states + [Next(states[|schedule|], MainGoroutine, total, capacity)];
    schedule' := schedule + [MainGoroutine];
  }

  /** The bound is reached: with enough accounts, that many callbacks can run at once. */
  lemma ConcurrencyReached(total: nat, maxConcurrency: int, numCPU: nat, n: nat)
    returns (states: seq<State>, schedule: seq<Actor>)
    requires 0 < n <= total && n == if maxConcurrency > 0 then maxConcurrency else 10 * numCPU
    ensures IsRun(states, schedule, total, Capacity(maxConcurrency, numCPU))
    ensures Count(states[|schedule|].workers, IsCalling) == n
  {
    states, schedule := StartSome(total, Capacity(maxConcurrency, numCPU), n);
    AllCalling(n);
  }

  lemma {:induction false} CountDisjoint(phases: seq<Phase>, p: Phase -> bool, q: Phase -> bool)
    requires forall phase :: !(p(phase) && q(phase))
    ensures Count(phases, p) + Count(phases, q) <= |phases|
  {
    if phases != [] {
      CountDisjoint(phases[1..], p, q);
    }
  }

  /** A goroutine gives its slot back before it counts: once the count has reached the total, all slots are free. */
  lemma LastCountFindsSlotsFree(states: seq<State>, schedule: seq<Actor>, total: nat, capacity: int, i: nat)
    requires IsRun(states, schedule, total, capacity) && capacity >= 1 && i < |states|
    ensures states[i].completed <= total
    ensures states[i].completed == total ==> states[i].channel == 0
  {
    RunKeepsInv(states, schedule, total, capacity, i);
    CountDisjoint(states[i].workers, HasCounted, HasSlot);
  }

  /** When the call returns, every account has been handled exactly once, all slots are free, the counter has
      reached the total, and exactly one goroutine has seen it there. */
  lemma ReturnsComplete(states: seq<State>, schedule: seq<Actor>, total: nat, capacity: int, i: nat)
    requires IsRun(states, schedule, total, capacity) && capacity >= 1 && i < |states|
    requires states[i].main.Back?
    ensures var s := states[i];
            && s.completed == total && s.channel == 0 && |s.workers| == total
            && (forall k :: 0 <= k < total ==> s.workers[k].Exited?)
            && (forall k: nat :: k in s.handled <==> k < total)
            && (forall j, k :: 0 <= j < k < |s.handled| ==> s.handled[j] != s.handled[k])
            && (total > 0 ==> exists k :: 0 <= k < total && s.workers[k].seen == total)
            && (forall j, k :: 0 <= j < k < total ==> s.workers[j].seen != s.workers[k].seen)
  {
    RunKeepsInv(states, schedule, total, capacity, i);
    var s := states[i];
    CountAll(s.workers, IsLive);
    CountAll(s.workers, HasCounted);
    CountAll(s.workers, HasSlot);
    if total > 0 {
      assert Saw(s.workers, total);
    }
  }

  /** Until the call returns, some goroutine can go on. */
  lemma NoDeadlock(states: seq<State>, schedule: seq<Actor>, total: nat, capacity: int, i: nat) returns (a: Actor)
    requires IsRun(states, schedule, total, capacity) && capacity >= 1 && i < |states|
    requires !states[i].main.Back?
    ensures Enabled(states[i], a, total, capacity)
  {
    RunKeepsInv(states, schedule, total, capacity, i);
    var s := states[i];
    if k :| 0 <= k < |s.workers| && !s.workers[k].Exited? {
      if s.workers[k].AtReceive? {
        CountPositive(s.workers, k, HasSlot);
      }
      return Goroutine(k);
    }
    CountAll(s.workers, IsLive);
    CountAll(s.workers, HasSlot);
    return MainGoroutine;
  }

  ghost function StepsLeft(phase: Phase): nat {
    match phase
    case Calling => 4
    case AtReceive => 3
    case AtCount => 2
    case AtDone(_) => 1
    case Exited(_) => 0
  }

  ghost function WorkersLeft(workers: seq<Phase>): nat {
    if workers == [] then 0 else StepsLeft(workers[0]) + WorkersLeft(workers[1..])
  }

  /** The steps that are still to come: seven for each account, one to find the list exhausted, one to wait. */
  ghost function Left(s: State, total: nat): int {
    WorkersLeft(s.workers) +
    match s.main
    case AtSend(idx) => 7 * (total - idx) + 2
    case AtAdd(idx) => 7 * (total - idx) + 1
    case AtSpawn(idx) => 7 * (total - idx)
    case AtWait => 1
    case Back => 0
  }

  lemma {:induction false} WorkersLeftUpdate(workers: seq<Phase>, k: nat, phase: Phase)
    requires k < |workers|
    ensures WorkersLeft(workers[k := phase]) == WorkersLeft(workers) + StepsLeft(phase) - StepsLeft(workers[k])
  {
    if k == 0 {
      assert workers[k := phase][1..] == workers[1..];
    } else {
      WorkersLeftUpdate(workers[1..], k - 1, phase);
      assert workers[k := phase][1..] == workers[1..][k - 1 := phase];
    }
  }

  lemma {:induction false} WorkersLeftAppend(workers: seq<Phase>)
    ensures WorkersLeft(workers + [Calling]) == WorkersLeft(workers) + 4
  {
    if workers != [] {
      WorkersLeftAppend(workers[1..]);
      assert (workers + [Calling])[1..] == workers[1..] + [Calling];
    }
  }

  lemma StepTaken(s: State, a: Actor, total: nat, capacity: int)
    requires MainInv(s, total, capacity) && Enabled(s, a, total, capacity)
    ensures Left(Next(s, a, total, capacity), total) == Left(s, total) - 1
  {
    match a
    case MainGoroutine =>
      if s.main.AtSpawn? {
        WorkersLeftAppend(s.workers);
      }
    case Goroutine(k) =>
      WorkersLeftUpdate(s.workers, k, Next(s, a, total, capacity).workers[k]);
  }

  /** Every run is finite: it takes exactly the steps that are left at the start, if it goes on to the return. */
  lemma {:induction false} RunsEnd(states: seq<State>, schedule: seq<Actor>, total: nat, capacity: int, i: nat)
    requires IsRun(states, schedule, total, capacity) && capacity >= 1 && i < |states|
    ensures i + Left(states[i], total) == if total == 0 then 0 else 7 * total + 2
    ensures Left(states[i], total) >= 0
    ensures states[i].main.Back? ==> Left(states[i], total) == 0
  {
    if i > 0 {
      RunsEnd(states, schedule, total, capacity, i - 1);
      RunKeepsInv(states, schedule, total, capacity, i - 1);
      StepTaken(states[i - 1], schedule[i - 1], total, capacity);
    }
    RunKeepsInv(states, schedule, total, capacity, i);
    if states[i].main.Back? {
      CountAll(states[i].workers, IsLive);
      ExitedLeaveNothing(states[i].workers);
    }
  }

  lemma {:induction false} ExitedLeaveNothing(workers: seq<Phase>)
    requires forall k :: 0 <= k < |workers| ==> workers[k].Exited?
    ensures WorkersLeft(workers) == 0
  {
    if workers != [] {
      ExitedLeaveNothing(workers[1..]);
    }
  }
}
