/** The ERC721 token ledger as its callers see it: a map from addresses to FIFO queues, on which every
    operation acts at once. */
module LedgerSpec {
  import opened Wrappers

  type Address = nat
  type Token = int

  datatype Op =
    | PutToken(addr: Address, token: Token)
    | RemoveToken(addr: Address)
    | InitializeAccount(addr: Address)

  /** RemoveToken returns a token or nil; the other operations return nothing, for which None stands too. */
  type Result = Option<Token>

  type Queues = map<Address, seq<Token>>

  function QueueOf(q: Queues, addr: Address): seq<Token> {
    if addr in q then q[addr] else []
  }

  function Apply(q: Queues, op: Op): (Queues, Result) {
    match op
    case PutToken(a, token) => (q[a := QueueOf(q, a) + [token]], None)
    case RemoveToken(a) =>
      if QueueOf(q, a) == [] then (q, None) else (q[a := q[a][1..]], Some(q[a][0]))
    case InitializeAccount(a) =>
      if a in q then (q, None) else (q[a := []], None)
  }
}

/** The ledger as it is implemented: two concurrent maps, and a mutex per address that is created on demand.
    Any number of operations run at once. Each lookup, lock, load, store and unlock is a step of its own. */
module TokenLedger {
  import opened LedgerSpec
  import opened Wrappers

  type MutexId = nat

  datatype Pc =
    | AtLoadMutex
    | AtLoadOrStoreMutex(created: MutexId)
    | AtLock(mutex: MutexId)
    | AtLoadQueue(mutex: MutexId)
    | AtStoreQueue(mutex: MutexId, loaded: Option<seq<Token>>)
    | AtUnlock(mutex: MutexId)
    | Returned

  datatype Thread = Thread(op: Op, pc: Pc, result: Result)

  /** `locked` maps each locked mutex to its holder. `created` counts the mutexes created so far. */
  datatype State = State(mutexes: map<Address, MutexId>, queues: Queues,
                         locked: map<MutexId, nat>, threads: seq<Thread>, created: nat)

  ghost predicate Init(s: State) {
    && s.mutexes == map[] && s.locked == map[]
    && forall w :: 0 <= w < |s.threads| ==> s.threads[w].pc.AtLoadMutex?
  }

  predicate Enabled(s: State, w: nat) {
    && w < |s.threads|
    && !s.threads[w].pc.Returned?
    && (s.threads[w].pc.AtLock? ==> s.threads[w].pc.mutex !in s.locked)
  }

  function Goto(s: State, w: nat, pc: Pc): State
    requires w < |s.threads|
  {
    s.(threads := s.threads[w := s.threads[w].(pc := pc)])
  }

  function Return(s: State, w: nat, m: MutexId, result: Result): State
    requires w < |s.threads|
  {
    s.(threads := s.threads[w := s.threads[w].(pc := AtUnlock(m), result := result)])
  }

  function Next(s: State, w: nat): State
    requires Enabled(s, w)
  {
    var addr := s.threads[w].op.addr;
    match s.threads[w].pc
    case AtLoadMutex =>
      if addr in s.mutexes then Goto(s, w, AtLock(s.mutexes[addr]))
      else Goto(s, w, AtLoadOrStoreMutex(s.created)).(created := s.created + 1)
    case AtLoadOrStoreMutex(created) =>
      if addr in s.mutexes then Goto(s, w, AtLock(s.mutexes[addr]))
      else Goto(s, w, AtLock(created)).(mutexes := s.mutexes[addr := created])
    case AtLock(m) =>
      Goto(s, w, AtLoadQueue(m)).(locked := s.locked[m := w])
    case AtLoadQueue(m) =>
      LoadQueue(s, w, m, if addr in s.queues then Some(s.queues[addr]) else None)
    case AtStoreQueue(m, loaded) =>
      StoreQueue(s, w, m, loaded)
    case AtUnlock(m) =>
      Goto(s, w, Returned).(locked := s.locked - {m})
  }

  /** RemoveToken gives up on a missing or empty queue, InitializeAccount on an existing one. */
  function LoadQueue(s: State, w: nat, m: MutexId, loaded: Option<seq<Token>>): State
    requires w < |s.threads|
  {
    match s.threads[w].op
    case PutToken(_, _) => Goto(s, w, AtStoreQueue(m, loaded))
    case RemoveToken(_) =>
      if loaded.None? || loaded.value == [] then Return(s, w, m, None) else Goto(s, w, AtStoreQueue(m, loaded))
    case InitializeAccount(_) =>
      if loaded.Some? then Return(s, w, m, None) else Goto(s, w, AtStoreQueue(m, loaded))
  }

  function StoreQueue(s: State, w: nat, m: MutexId, loaded: Option<seq<Token>>): State
    requires w < |s.threads|
  {
    match s.threads[w].op
    case PutToken(a, token) =>
      Return(s, w, m, None).(queues := s.queues[a := (if loaded.Some? then loaded.value else []) + [token]])
    case RemoveToken(a) =>
      if loaded.None? || loaded.value == [] then s
      else Return(s, w, m, Some(loaded.value[0])).(queues := s.queues[a := loaded.value[1..]])
    case InitializeAccount(a) =>
      Return(s, w, m, None).(queues := s.queues[a := []])
  }

  // ---------- the invariant ----------

  predicate HasMutex(pc: Pc) {
    pc.AtLock? || pc.AtLoadQueue? || pc.AtStoreQueue? || pc.AtUnlock?
  }

  predicate HoldsMutex(pc: Pc) {
    pc.AtLoadQueue? || pc.AtStoreQueue? || pc.AtUnlock?
  }

  ghost predicate Inv(s: State) {
    && (forall w :: 0 <= w < |s.threads| ==> ThreadInv(s, w, s.threads[w]))
    && (forall m :: m in s.locked ==> LockedByHolder(s, m))
    && (forall a :: a in s.mutexes ==> s.mutexes[a] < s.created)
    && (forall a, b :: a in s.mutexes && b in s.mutexes && a != b ==> s.mutexes[a] != s.mutexes[b])
    && (forall v, w :: 0 <= v < |s.threads| && 0 <= w < |s.threads| && v != w ==>
          CreatedApart(s.threads[v].pc, s.threads[w].pc))
  }

  /** A mutex that a thread has created but not yet stored is its own. */
  ghost predicate CreatedApart(p: Pc, q: Pc) {
    p.AtLoadOrStoreMutex? && q.AtLoadOrStoreMutex? ==> p.created != q.created
  }

  ghost predicate ThreadInv(s: State, w: nat, t: Thread) {
    && (HasMutex(t.pc) ==> t.op.addr in s.mutexes && s.mutexes[t.op.addr] == t.pc.mutex)
    && (HoldsMutex(t.pc) ==> t.pc.mutex in s.locked && s.locked[t.pc.mutex] == w)
    && (t.pc.AtStoreQueue? ==> LoadedIsCurrent(s.queues, t.op, t.pc.loaded))
    && (t.pc.AtLoadOrStoreMutex? ==> t.pc.created < s.created && t.pc.created !in s.mutexes.Values)
  }

  ghost predicate LockedByHolder(s: State, m: MutexId)
    requires m in s.locked
  {
    var w := s.locked[m];
    w < |s.threads| && HoldsMutex(s.threads[w].pc) && s.threads[w].pc.mutex == m
  }

  /** Nobody else has changed the queue since this thread has loaded it. */
  ghost predicate LoadedIsCurrent(q: Queues, op: Op, loaded: Option<seq<Token>>) {
    && loaded == (if op.addr in q then Some(q[op.addr]) else None)
    && (op.RemoveToken? ==> loaded.Some? && loaded.value != [])
    && (op.InitializeAccount? ==> loaded.None?)
  }

  /** A step moves one thread; the operations stay what they are, and what has taken effect has done so. */
  lemma NextShape(s: State, w: nat)
    requires Enabled(s, w)
    ensures Moved(s, Next(s, w), w)
  {
  }

  lemma NextKeepsInv(s: State, w: nat)
    requires Inv(s) && Enabled(s, w)
    ensures Inv(Next(s, w))
  {
    match s.threads[w].pc
    case AtLoadMutex => LookupKeepsInv(s, w);
    case AtLoadOrStoreMutex(_) => LookupKeepsInv(s, w);
    case AtLock(_) => LockKeepsInv(s, w);
    case AtLoadQueue(_) => QueueStepKeepsInv(s, w);
    case AtStoreQueue(_, _) => QueueStepKeepsInv(s, w);
    case AtUnlock(_) => UnlockKeepsInv(s, w);
  }

  lemma LookupKeepsInv(s: State, w: nat)
    requires Inv(s) && Enabled(s, w) && (s.threads[w].pc.AtLoadMutex? || s.threads[w].pc.AtLoadOrStoreMutex?)
    ensures Inv(Next(s, w))
  {
    var t, addr := Next(s, w), s.threads[w].op.addr;
    assert ThreadInv(s, w, s.threads[w]);
    assert ThreadInv(t, w, t.threads[w]) by {
      forall a | a in s.mutexes ensures s.mutexes[a] < s.created {
      }
    }
    forall v | 0 <= v < |t.threads| && v != w ensures ThreadInv(t, v, t.threads[v]) {
      assert ThreadInv(s, v, s.threads[v]) && CreatedApart(s.threads[v].pc, s.threads[w].pc);
      LookupLeavesOthers(s, w, v);
    }
    ForeignLocksKept(s, t, w);
    CreatedStayApart(s, t, w);
    MutexesStayDistinct(s, w);
  }

  lemma LookupLeavesOthers(s: State, w: nat, v: nat)
    requires Enabled(s, w) && (s.threads[w].pc.AtLoadMutex? || s.threads[w].pc.AtLoadOrStoreMutex?)
    requires v < |s.threads| && v != w
    requires ThreadInv(s, v, s.threads[v]) && CreatedApart(s.threads[v].pc, s.threads[w].pc)
    ensures ThreadInv(Next(s, w), v, s.threads[v])
  {
    var t, addr := Next(s, w), s.threads[w].op.addr;
    if addr !in s.mutexes && s.threads[w].pc.AtLoadOrStoreMutex? {
      assert t.mutexes.Values <= s.mutexes.Values + {s.threads[w].pc.created};
    }
  }

  lemma ForeignLocksKept(s: State, t: State, w: nat)
    requires Inv(s) && w < |s.threads| == |t.threads| && t.locked == s.locked
    requires t.threads == s.threads[w := t.threads[w]]
    requires HoldsMutex(s.threads[w].pc) ==>
               (HoldsMutex(t.threads[w].pc) && t.threads[w].pc.mutex == s.threads[w].pc.mutex)
    ensures forall m :: m in t.locked ==> LockedByHolder(t, m)
  {
    forall m | m in t.locked ensures LockedByHolder(t, m) {
      assert LockedByHolder(s, m);
    }
  }

  lemma CreatedStayApart(s: State, t: State, w: nat)
    requires Inv(s) && w < |s.threads| == |t.threads| && t.threads == s.threads[w := t.threads[w]]
    requires t.threads[w].pc.AtLoadOrStoreMutex? ==> t.threads[w].pc.created == s.created
    ensures forall u, v :: 0 <= u < |t.threads| && 0 <= v < |t.threads| && u != v ==>
              CreatedApart(t.threads[u].pc, t.threads[v].pc)
  {
    forall u, v | 0 <= u < |t.threads| && 0 <= v < |t.threads| && u != v
      ensures CreatedApart(t.threads[u].pc, t.threads[v].pc)
    {
      assert CreatedApart(s.threads[u].pc, s.threads[v].pc);
      assert ThreadInv(s, u, s.threads[u]) && ThreadInv(s, v, s.threads[v]);
    }
  }

  lemma MutexesStayDistinct(s: State, w: nat)
    requires Inv(s) && Enabled(s, w) && (s.threads[w].pc.AtLoadMutex? || s.threads[w].pc.AtLoadOrStoreMutex?)
    ensures var t := Next(s, w);
            && (forall a :: a in t.mutexes ==> t.mutexes[a] < t.created)
            && (forall a, b :: a in t.mutexes && b in t.mutexes && a != b ==> t.mutexes[a] != t.mutexes[b])
  {
    assert ThreadInv(s, w, s.threads[w]);
    forall a | a in s.mutexes ensures s.mutexes[a] < s.created && s.mutexes[a] in s.mutexes.Values {
    }
  }

  lemma LockKeepsInv(s: State, w: nat)
    requires Inv(s) && Enabled(s, w) && s.threads[w].pc.AtLock?
    ensures Inv(Next(s, w))
  {
    var t := Next(s, w);
    forall v | 0 <= v < |t.threads| ensures ThreadInv(t, v, t.threads[v]) {
      assert ThreadInv(s, v, s.threads[v]);
    }
    forall m | m in t.locked ensures LockedByHolder(t, m) {
      if m in s.locked {
        assert LockedByHolder(s, m);
      }
    }
    CreatedStayApart(s, t, w);
  }

  lemma QueueStepKeepsInv(s: State, w: nat)
    requires Inv(s) && Enabled(s, w) && (s.threads[w].pc.AtLoadQueue? || s.threads[w].pc.AtStoreQueue?)
    ensures Inv(Next(s, w))
  {
    var t := Next(s, w);
    assert ThreadInv(s, w, s.threads[w]);
    QueueStepShape(s, w);
    forall v | 0 <= v < |t.threads| && v != w ensures ThreadInv(t, v, t.threads[v]) {
      assert ThreadInv(s, v, s.threads[v]);
      HoldersDiffer(s, v, w);
    }
    ForeignLocksKept(s, t, w);
    CreatedStayApart(s, t, w);
  }

  /** Loading and storing concern one queue, and keep the mutex. */
  lemma QueueStepShape(s: State, w: nat)
    requires Enabled(s, w) && (s.threads[w].pc.AtLoadQueue? || s.threads[w].pc.AtStoreQueue?)
    requires ThreadInv(s, w, s.threads[w])
    ensures var t, addr := Next(s, w), s.threads[w].op.addr;
            && t.mutexes == s.mutexes && t.locked == s.locked && t.created == s.created
            && |t.threads| == |s.threads| && t.threads == s.threads[w := t.threads[w]]
            && t.threads[w].op == s.threads[w].op
            && HoldsMutex(t.threads[w].pc) && t.threads[w].pc.mutex == s.threads[w].pc.mutex
            && (forall a :: a != addr ==> (a in t.queues <==> a in s.queues))
            && (forall a :: a != addr && a in t.queues ==> t.queues[a] == s.queues[a])
            && ThreadInv(t, w, t.threads[w])
  {
  }

  lemma UnlockKeepsInv(s: State, w: nat)
    requires Inv(s) && Enabled(s, w) && s.threads[w].pc.AtUnlock?
    ensures Inv(Next(s, w))
  {
    var t := Next(s, w);
    assert ThreadInv(s, w, s.threads[w]);
    forall v | 0 <= v < |t.threads| ensures ThreadInv(t, v, t.threads[v]) {
      assert ThreadInv(s, v, s.threads[v]);
    }
    forall m | m in t.locked ensures LockedByHolder(t, m) {
      assert LockedByHolder(s, m);
    }
    CreatedStayApart(s, t, w);
  }

  /** Threads that work on one address use the same mutex, and at most one of them holds it. */
  lemma HoldersDiffer(s: State, v: nat, w: nat)
    requires Inv(s) && v < |s.threads| && w < |s.threads| && v != w
    ensures HasMutex(s.threads[v].pc) && HasMutex(s.threads[w].pc) ==>
              (s.threads[v].op.addr == s.threads[w].op.addr <==> s.threads[v].pc.mutex == s.threads[w].pc.mutex)
    ensures HoldsMutex(s.threads[v].pc) && HoldsMutex(s.threads[w].pc) ==>
              s.threads[v].op.addr != s.threads[w].op.addr
  {
    assert ThreadInv(s, v, s.threads[v]) && ThreadInv(s, w, s.threads[w]);
  }

  // ---------- refinement ----------

  /** Between these two states of a thread its operation takes effect. */
  predicate TakesEffect(before: Thread, after: Thread) {
    !Effective(before.pc) && Effective(after.pc)
  }

  /** The operation of a thread that has come this far has taken effect. */
  predicate Effective(pc: Pc) {
    pc.AtUnlock? || pc.Returned?
  }

  /** Each step of the implementation either leaves the queues alone, or is one whole atomic operation whose
      result is the one that the thread will return. */
  lemma StepRefines(s: State, w: nat)
    requires Inv(s) && Enabled(s, w)
    ensures var t := Next(s, w);
            if TakesEffect(s.threads[w], t.threads[w]) then
              (t.queues, t.threads[w].result) == Apply(s.queues, s.threads[w].op)
            else t.queues == s.queues
  {
    assert ThreadInv(s, w, s.threads[w]);
  }

  // ---------- whole runs ----------

  ghost predicate IsRun(states: seq<State>, schedule: seq<nat>) {
    && |states| == |schedule| + 1
    && Init(states[0])
    && forall i :: 0 <= i < |schedule| ==>
         Enabled(states[i], schedule[i]) && states[i + 1] == Next(states[i], schedule[i])
  }

  lemma {:induction false} RunKeepsInv(states: seq<State>, schedule: seq<nat>, i: nat)
    requires IsRun(states, schedule) && i < |states|
    ensures Inv(states[i])
  {
    if i > 0 {
      RunKeepsInv(states, schedule, i - 1);
      NextKeepsInv(states[i - 1], schedule[i - 1]);
    }
  }

  /** All callers for one address obtain the same mutex, whatever the interleaving of their lookups, and
      callers for different addresses obtain different ones. */
  lemma OneMutexPerAddress(states: seq<State>, schedule: seq<nat>, i: nat, v: nat, w: nat)
    requires IsRun(states, schedule) && i < |states|
    requires v < |states[i].threads| && w < |states[i].threads|
    requires HasMutex(states[i].threads[v].pc) && HasMutex(states[i].threads[w].pc)
    ensures states[i].threads[v].op.addr == states[i].threads[w].op.addr
            <==> states[i].threads[v].pc.mutex == states[i].threads[w].pc.mutex
  {
    RunKeepsInv(states, schedule, i);
    if v != w {
      HoldersDiffer(states[i], v, w);
    }
  }

  // ---------- progress ----------

  /** The most steps that an operation has still to take: lookup, creation, lock, load, store, unlock. */
  function StepsLeft(pc: Pc): nat {
    match pc
    case AtLoadMutex => 6
    case AtLoadOrStoreMutex(_) => 5
    case AtLock(_) => 4
    case AtLoadQueue(_) => 3
    case AtStoreQueue(_, _) => 2
    case AtUnlock(_) => 1
    case Returned => 0
  }

  lemma StepTaken(s: State, w: nat)
    requires Inv(s) && Enabled(s, w)
    ensures StepsLeft(Next(s, w).threads[w].pc) < StepsLeft(s.threads[w].pc)
  {
    assert ThreadInv(s, w, s.threads[w]);
  }

  function StepsOf(schedule: seq<nat>, w: nat): nat {
    if schedule == [] then 0
    else StepsOf(schedule[..|schedule| - 1], w) + if schedule[|schedule| - 1] == w then 1 else 0
  }

  /** No operation takes more than six steps of its own. */
  lemma {:induction false} SixStepsAtMost(states: seq<State>, schedule: seq<nat>, i: nat, w: nat)
    requires IsRun(states, schedule) && i <= |schedule| && w < |states[0].threads|
    ensures |states[i].threads| == |states[0].threads|
    ensures StepsOf(schedule[..i], w) + StepsLeft(states[i].threads[w].pc) <= 6
  {
    if i > 0 {
      SixStepsAtMost(states, schedule, i - 1, w);
      RunKeepsInv(states, schedule, i - 1);
      StepTaken(states[i - 1], schedule[i - 1]);
      NextShape(states[i - 1], schedule[i - 1]);
      assert schedule[..i][..i - 1] == schedule[..i - 1];
    }
  }

  /** As long as some operation has not returned, some operation can take a step. */
  lemma NoDeadlock(states: seq<State>, schedule: seq<nat>, i: nat, w: nat) returns (v: nat)
    requires IsRun(states, schedule) && i < |states|
    requires w < |states[i].threads| && !states[i].threads[w].pc.Returned?
    ensures Enabled(states[i], v)
  {
    var s := states[i];
    RunKeepsInv(states, schedule, i);
    if Enabled(s, w) {
      return w;
    }
    assert LockedByHolder(s, s.threads[w].pc.mutex);
    v := s.locked[s.threads[w].pc.mutex];
  }

  /** One thread has moved, and nothing that had taken effect has been undone. */
  ghost predicate Moved(s: State, t: State, w: nat) {
    && w < |s.threads| == |t.threads|
    && t.threads == s.threads[w := t.threads[w]]
    && t.threads[w].op == s.threads[w].op
    && (Effective(s.threads[w].pc) ==> Effective(t.threads[w].pc) && t.threads[w].result == s.threads[w].result)
  }

  ghost predicate Moves(states: seq<State>, schedule: seq<nat>) {
    && |states| == |schedule| + 1
    && forall i :: 0 <= i < |schedule| ==> Moved(states[i], states[i + 1], schedule[i])
  }

  lemma RunMoves(states: seq<State>, schedule: seq<nat>)
    requires IsRun(states, schedule)
    ensures Moves(states, schedule)
  {
    forall i | 0 <= i < |schedule| ensures Moved(states[i], states[i + 1], schedule[i]) {
      NextShape(states[i], schedule[i]);
    }
  }

  /** The threads in the order in which their operations have taken effect during the first i steps. */
  ghost function Order(states: seq<State>, schedule: seq<nat>, i: nat): seq<nat>
    requires Moves(states, schedule) && i <= |schedule|
  {
    if i == 0 then [] else Extended(states[i - 1], states[i], schedule[i - 1], Order(states, schedule, i - 1))
  }

  ghost function Extended(s: State, t: State, w: nat, order: seq<nat>): seq<nat>
    requires Moved(s, t, w)
  {
    if TakesEffect(s.threads[w], t.threads[w]) then order + [w] else order
  }

  /** The atomic ledger executes operations one after the other. */
  function Replay(q: Queues, ops: seq<Op>): Queues {
    if ops == [] then q else Apply(Replay(q, ops[..|ops| - 1]), ops[|ops| - 1]).0
  }

  /** The result that operation k has there. */
  function ReplayedResult(q: Queues, ops: seq<Op>, k: nat): Result
    requires k < |ops|
  {
    Apply(Replay(q, ops[..k]), ops[k]).1
  }

  function Ops(threads: seq<Thread>, order: seq<nat>): (ops: seq<Op>)
    requires forall k :: 0 <= k < |order| ==> order[k] < |threads|
    ensures |ops| == |order| && forall k :: 0 <= k < |order| ==> ops[k] == threads[order[k]].op
  {
    seq(|order|, k requires 0 <= k < |order| => threads[order[k]].op)
  }

  function Results(threads: seq<Thread>, order: seq<nat>): (results: seq<Result>)
    requires forall k :: 0 <= k < |order| ==> order[k] < |threads|
    ensures |results| == |order| && forall k :: 0 <= k < |order| ==> results[k] == threads[order[k]].result
  {
    seq(|order|, k requires 0 <= k < |order| => threads[order[k]].result)
  }

  /** The order consists of exactly the threads whose operations have taken effect, each of them once. */
  ghost predicate Complete(threads: seq<Thread>, order: seq<nat>) {
    && (forall w :: 0 <= w < |threads| ==> (w in order <==> Effective(threads[w].pc)))
    && (forall k :: 0 <= k < |order| ==> order[k] < |threads|)
    && (forall j, k :: 0 <= j < k < |order| ==> order[j] != order[k])
  }

  /** Replaying the order on the atomic ledger yields the present queues and every result. */
  ghost predicate Replays(q: Queues, s: State, order: seq<nat>) {
    && (forall k :: 0 <= k < |order| ==> order[k] < |s.threads|)
    && ReplayYields(q, Ops(s.threads, order), s.queues, Results(s.threads, order))
  }

  ghost predicate ReplayYields(q: Queues, ops: seq<Op>, queues: Queues, results: seq<Result>) {
    && |results| == |ops|
    && Replay(q, ops) == queues
    && forall k :: 0 <= k < |ops| ==> results[k] == ReplayedResult(q, ops, k)
  }

  lemma CompleteExtended(s: State, t: State, w: nat, order: seq<nat>)
    requires Moved(s, t, w) && Complete(s.threads, order)
    ensures Complete(t.threads, Extended(s, t, w, order))
  {
    var order' := Extended(s, t, w, order);
    forall v | 0 <= v < |t.threads| ensures v in order' <==> Effective(t.threads[v].pc) {
      assert v in order' <==> v in order || (v == w && TakesEffect(s.threads[w], t.threads[w]));
    }
  }

  lemma ReplayExtended(q: Queues, s: State, t: State, w: nat, order: seq<nat>)
    requires Moved(s, t, w) && Complete(s.threads, order) && Replays(q, s, order)
    requires if TakesEffect(s.threads[w], t.threads[w]) then
               (t.queues, t.threads[w].result) == Apply(s.queues, s.threads[w].op)
             else t.queues == s.queues
    ensures Replays(q, t, Extended(s, t, w, order))
  {
    OutcomesStay(s, t, w, order);
    if TakesEffect(s.threads[w], t.threads[w]) {
      var op, result := s.threads[w].op, t.threads[w].result;
      assert Ops(t.threads, order + [w]) == Ops(t.threads, order) + [op];
      assert Results(t.threads, order + [w]) == Results(t.threads, order) + [result];
      ReplayOneMore(q, Ops(s.threads, order), s.queues, Results(s.threads, order), op);
    }
  }

  lemma OutcomesStay(s: State, t: State, w: nat, order: seq<nat>)
    requires Moved(s, t, w) && Complete(s.threads, order)
    ensures Ops(t.threads, order) == Ops(s.threads, order)
    ensures Results(t.threads, order) == Results(s.threads, order)
  {
    forall k | 0 <= k < |order| ensures t.threads[order[k]].result == s.threads[order[k]].result {
      assert order[k] in order;
    }
  }

  lemma ReplayOneMore(q: Queues, ops: seq<Op>, queues: Queues, results: seq<Result>, op: Op)
    requires ReplayYields(q, ops, queues, results)
    ensures ReplayYields(q, ops + [op], Apply(queues, op).0, results + [Apply(queues, op).1])
  {
    assert (ops + [op])[..|ops|] == ops;
    forall k | 0 <= k < |ops| ensures ReplayedResult(q, ops + [op], k) == ReplayedResult(q, ops, k) {
      assert (ops + [op])[..k] == ops[..k];
    }
  }

  lemma {:induction false} OrderIsComplete(states: seq<State>, schedule: seq<nat>, i: nat)
    requires Moves(states, schedule) && i <= |schedule|
    requires forall w :: 0 <= w < |states[0].threads| ==> !Effective(states[0].threads[w].pc)
    ensures Complete(states[i].threads, Order(states, schedule, i))
  {
    if i > 0 {
      OrderIsComplete(states, schedule, i - 1);
      CompleteExtended(states[i - 1], states[i], schedule[i - 1], Order(states, schedule, i - 1));
    }
  }

  /** In every run the ledger behaves like the atomic one: at any time there is an order of the operations that
      have taken effect, whose replay on the atomic ledger yields the present queues and every result. So no
      put and no remove is lost. */
  lemma {:induction false} Linearizable(states: seq<State>, schedule: seq<nat>, i: nat)
    requires IsRun(states, schedule) && i <= |schedule|
    ensures Moves(states, schedule)
    ensures Complete(states[i].threads, Order(states, schedule, i))
    ensures Replays(states[0].queues, states[i], Order(states, schedule, i))
  {
    RunMoves(states, schedule);
    OrderIsComplete(states, schedule, i);
    if i > 0 {
      Linearizable(states, schedule, i - 1);
      RunKeepsInv(states, schedule, i - 1);
      StepRefines(states[i - 1], schedule[i - 1]);
      ReplayExtended(states[0].queues, states[i - 1], states[i], schedule[i - 1], Order(states, schedule, i - 1));
    }
  }

  lemma {:induction false} OrderGrows(states: seq<State>, schedule: seq<nat>, i: nat, j: nat)
    requires Moves(states, schedule) && i <= j <= |schedule|
    ensures Order(states, schedule, i) <= Order(states, schedule, j)
  {
    if i < j {
      OrderGrows(states, schedule, i, j - 1);
    }
  }

  /** An operation that has returned before another one begins precedes it in the order. */
  lemma RealTimeOrderKept(states: seq<State>, schedule: seq<nat>, i: nat, j: nat, v: nat, w: nat)
    requires IsRun(states, schedule) && i <= j <= |schedule|
    requires v < |states[i].threads| && states[i].threads[v].pc.Returned?
    requires w < |states[i].threads| && states[i].threads[w].pc.AtLoadMutex?
    requires w < |states[j].threads| && states[j].threads[w].pc.Returned?
    ensures Moves(states, schedule)
    ensures exists k, l :: 0 <= k < l < |Order(states, schedule, j)| &&
              Order(states, schedule, j)[k] == v && Order(states, schedule, j)[l] == w
  {
    RunMoves(states, schedule);
    OrderIsComplete(states, schedule, i);
    OrderIsComplete(states, schedule, j);
    OrderGrows(states, schedule, i, j);
    LaterInExtension(Order(states, schedule, i), Order(states, schedule, j), v, w);
  }

  lemma LaterInExtension(before: seq<nat>, after: seq<nat>, v: nat, w: nat)
    requires before <= after && v in before && w !in before && w in after
    ensures exists k, l :: 0 <= k < l < |after| && after[k] == v && after[l] == w
  {
    var k :| 0 <= k < |before| && before[k] == v;
    var l :| 0 <= l < |after| && after[l] == w;
    assert after[k] == v;
  }
}
