/** The charging of ERC721 tokens: one goroutine for each account, each of them with its own ledger operations. */
module TokenCharging {
  import opened LedgerSpec
  import opened TokenTransfer

  /** The accounts are charged at the same time; `done[w]` says how many ledger operations account w has seen. */
  datatype Charging = Charging(queues: Queues, done: seq<nat>)

  const OPERATIONS_PER_ACCOUNT: nat := 6

  /** The operations for one account, in their order. */
  function ChargeOp(addr: Address, idx: nat, baseOffset: Token, k: nat): Op {
    if k == 0 then InitializeAccount(addr) else PutToken(addr, baseOffset + idx * 5 + (k - 1))
  }

  ghost predicate ChargeStep(s: Charging, w: nat, t: Charging, accounts: seq<Address>, baseOffset: Token) {
    && w < |accounts| == |s.done| && s.done[w] < OPERATIONS_PER_ACCOUNT
    && t == Charging(Apply(s.queues, ChargeOp(accounts[w], w, baseOffset, s.done[w])).0, s.done[w := s.done[w] + 1])
  }

  ghost predicate IsChargeRun(states: seq<Charging>, schedule: seq<nat>, accounts: seq<Address>, baseOffset: Token) {
    && |states| == |schedule| + 1
    && (forall i, j :: 0 <= i < j < |accounts| ==> accounts[i] != accounts[j])
    && states[0].done == seq(|accounts|, _ => 0)
    && forall i :: 0 <= i < |schedule| ==> ChargeStep(states[i], schedule[i], states[i + 1], accounts, baseOffset)
  }

  /** One queue after `done` operations. */
  ghost predicate ChargedUpTo(before: seq<Token>, now: seq<Token>, idx: nat, baseOffset: Token, done: nat) {
    && done <= OPERATIONS_PER_ACCOUNT
    && now == before + MintedIds(baseOffset, idx)[..if done == 0 then 0 else done - 1]
  }

  lemma OneMoreOperation(q: Queues, addr: Address, before: seq<Token>, idx: nat, baseOffset: Token, done: nat)
    requires done < OPERATIONS_PER_ACCOUNT && ChargedUpTo(before, QueueOf(q, addr), idx, baseOffset, done)
    ensures var q' := Apply(q, ChargeOp(addr, idx, baseOffset, done)).0;
            && ChargedUpTo(before, QueueOf(q', addr), idx, baseOffset, done + 1)
            && forall a :: a != addr ==> QueueOf(q', a) == QueueOf(q, a)
  {
    var ids := MintedIds(baseOffset, idx);
    if done > 0 {
      assert ids[..done] == ids[..done - 1] + [ids[done - 1]];
    }
  }

  /** Each account has the ids that have been put so far at the end of its queue, and no other queue has changed. */
  ghost predicate ChargedSoFar(q: Queues, s: Charging, accounts: seq<Address>, baseOffset: Token) {
    && |s.done| == |accounts|
    && (forall w :: 0 <= w < |accounts| ==>
          ChargedUpTo(QueueOf(q, accounts[w]), QueueOf(s.queues, accounts[w]), w, baseOffset, s.done[w]))
    && (forall a :: a !in accounts ==> QueueOf(s.queues, a) == QueueOf(q, a))
  }

  lemma ChargeStepKeepsCharged(q: Queues, s: Charging, w: nat, t: Charging, accounts: seq<Address>, baseOffset: Token)
    requires forall i, j :: 0 <= i < j < |accounts| ==> accounts[i] != accounts[j]
    requires ChargedSoFar(q, s, accounts, baseOffset) && ChargeStep(s, w, t, accounts, baseOffset)
    ensures ChargedSoFar(q, t, accounts, baseOffset)
  {
    OneMoreOperation(s.queues, accounts[w], QueueOf(q, accounts[w]), w, baseOffset, s.done[w]);
  }

  lemma {:induction false} ChargeRunKeepsCharged(states: seq<Charging>, schedule: seq<nat>, accounts: seq<Address>,
                                                 baseOffset: Token, i: nat)
    requires IsChargeRun(states, schedule, accounts, baseOffset) && i < |states|
    ensures ChargedSoFar(states[0].queues, states[i], accounts, baseOffset)
  {
    if i > 0 {
      ChargeRunKeepsCharged(states, schedule, accounts, baseOffset, i - 1);
      ChargeStepKeepsCharged(states[0].queues, states[i - 1], schedule[i - 1], states[i], accounts, baseOffset);
    }
  }

  /** However the operations for the accounts interleave, once all are done each account has its own five ids at the
      end of its queue, in order, and nobody else has any. */
  lemma ChargedInAnyInterleaving(states: seq<Charging>, schedule: seq<nat>, accounts: seq<Address>,
                                 baseOffset: Token, i: nat)
    requires IsChargeRun(states, schedule, accounts, baseOffset) && i < |states|
    requires forall w :: 0 <= w < |states[i].done| ==> states[i].done[w] == OPERATIONS_PER_ACCOUNT
    ensures forall w :: 0 <= w < |accounts| ==>
              QueueOf(states[i].queues, accounts[w])
              == QueueOf(states[0].queues, accounts[w]) + MintedIds(baseOffset, w)
    ensures forall a :: a !in accounts ==> QueueOf(states[i].queues, a) == QueueOf(states[0].queues, a)
    ensures (forall a :: QueueOf(states[0].queues, a) == []) ==> Charged(states[i].queues, accounts, baseOffset)
  {
    ChargeRunKeepsCharged(states, schedule, accounts, baseOffset, i);
    forall w | 0 <= w < |accounts|
      ensures QueueOf(states[i].queues, accounts[w])
              == QueueOf(states[0].queues, accounts[w]) + MintedIds(baseOffset, w)
    {
      assert MintedIds(baseOffset, w)[..5] == MintedIds(baseOffset, w);
    }
  }
}
