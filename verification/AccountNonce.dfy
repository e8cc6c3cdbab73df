/** One account's own view of its nonce: the fetch, the send and the resending loop, as one sender
    executes them while no other client uses the account. */
module AccountNonce {
  import opened TxPool

  // ---------- the resending loop as a sequence of attempts ----------

  /** One attempt: the local nonce and the pool that it finds, whether it asks the node for the nonce in vain, the
      nonce that it tries, and the node's reply. */
  datatype Attempt = Attempt(local: nat, pool: Pool, fetchFails: bool, nonce: nat, reply: Reply) {

    /** Success and nonce errors step over the nonce. Any other error leaves it for the next attempt. */
    function LocalAfter(): nat {
      if reply.Accepted? || reply.NonceError() then nonce + 1 else nonce
    }

    function PoolAfter(): Pool {
      pool.Deliver(nonce, reply)
    }
  }

  /** What GetNonce returns: 0 asks for a fetch, which yields the confirmed nonce unless it fails. */
  function Fetched(local: nat, confirmed: nat, fetchFails: bool): nat {
    if local != 0 then local else if fetchFails then 0 else confirmed
  }

  /** Whether a node lets a transaction replace a pooled one is a property of the node. */
  predicate Possible(a: Attempt, allowsReplacement: bool) {
    && (a.fetchFails ==> a.local == 0)
    && a.nonce == Fetched(a.local, a.pool.confirmed, a.fetchFails)
    && a.pool.MayReply(a.nonce, a.reply)
    && (a.reply.Accepted? && a.nonce in a.pool.pending ==> allowsReplacement)
  }

  /** Any number of blocks have gone by. */
  ghost predicate Later(p: Pool, q: Pool) {
    q.Gapless() && q.FirstFree() == p.FirstFree() && q.confirmed >= p.confirmed
  }

  ghost predicate IsResend(log: seq<Attempt>, allowsReplacement: bool, skip: Reply -> bool) {
    && log != []
    && log[0].pool.Gapless() && log[0].local <= log[0].pool.FirstFree()
    && (forall k :: 0 <= k < |log| ==> Possible(log[k], allowsReplacement))
    && (forall k :: 0 <= k < |log| - 1 ==> Follows(log[k], log[k + 1], skip))
  }

  /** Attempt b is made because a has failed with an error that the caller does not skip. */
  ghost predicate Follows(a: Attempt, b: Attempt, skip: Reply -> bool) {
    !a.reply.Accepted? && !skip(a.reply) && b.local == a.LocalAfter() && Later(a.PoolAfter(), b.pool)
  }

  /** How many of the first n attempts have failed with an error other than the two nonce errors. */
  function OtherErrors(log: seq<Attempt>, n: nat): (count: nat)
    requires n <= |log|
    ensures count <= n
  {
    if n == 0 then 0 else OtherErrors(log, n - 1) + if log[n - 1].reply.OtherError? then 1 else 0
  }

  /** How many of the first n attempts have asked the node for the nonce in vain. */
  function FailedFetches(log: seq<Attempt>, n: nat): (count: nat)
    requires n <= |log|
    ensures count <= n
  {
    if n == 0 then 0 else FailedFetches(log, n - 1) + if log[n - 1].fetchFails then 1 else 0
  }

  predicate Counts(log: seq<Attempt>, others: int, failures: int) {
    OtherErrors(log, |log|) == others && FailedFetches(log, |log|) == failures
  }

  lemma {:induction false} CountsBefore(log: seq<Attempt>, a: Attempt, n: nat)
    requires n <= |log|
    ensures OtherErrors(log + [a], n) == OtherErrors(log, n)
    ensures FailedFetches(log + [a], n) == FailedFetches(log, n)
  {
    if n > 0 {
      CountsBefore(log, a, n - 1);
    }
  }

  lemma {:induction false} FailedFetchesMonotone(log: seq<Attempt>, m: nat, n: nat)
    requires m <= n <= |log|
    ensures FailedFetches(log, m) <= FailedFetches(log, n)
  {
    if m < n {
      FailedFetchesMonotone(log, m, n - 1);
    }
  }

  lemma OneMoreAttempt(log: seq<Attempt>, a: Attempt, allowsReplacement: bool, skip: Reply -> bool)
    requires IsResend(log, allowsReplacement, skip)
    requires Follows(log[|log| - 1], a, skip) && Possible(a, allowsReplacement)
    ensures IsResend(log + [a], allowsReplacement, skip)
    ensures forall others, failures :: Counts(log, others, failures) ==>
              Counts(log + [a], others + if a.reply.OtherError? then 1 else 0, failures + if a.fetchFails then 1 else 0)
  {
    CountsBefore(log, a, |log|);
  }

  /** The nonces tried climb from the first one towards the first free one, one step for each nonce error. */
  lemma {:induction false} NoncesClimb(log: seq<Attempt>, allowsReplacement: bool, skip: Reply -> bool, k: nat)
    requires IsResend(log, allowsReplacement, skip) && k < |log|
    ensures Later(log[0].pool, log[k].pool) && log[k].pool.pending <= log[0].pool.pending
    ensures log[0].local <= log[k].local <= log[k].nonce <= log[0].pool.FirstFree()
    ensures k - OtherErrors(log, k) <= log[k].local - log[0].local
    ensures OtherErrors(log, k) == 0 ==> log[k].nonce == log[0].nonce + k
  {
    if k > 0 {
      NoncesClimb(log, allowsReplacement, skip, k - 1);
      assert Possible(log[k - 1], allowsReplacement) && Follows(log[k - 1], log[k], skip);
      DeliverGapless(log[k - 1].pool, log[k - 1].nonce, log[k - 1].reply);
    }
    assert Possible(log[k], allowsReplacement);
  }

  /** There are at most as many attempts as nonces from the local up to the first free one, and one more for each
      other error. */
  lemma AttemptsBounded(log: seq<Attempt>, allowsReplacement: bool, skip: Reply -> bool)
    requires IsResend(log, allowsReplacement, skip)
    ensures |log| <= log[0].pool.FirstFree() - log[0].local + 1 + OtherErrors(log, |log| - 1)
    ensures OtherErrors(log, |log| - 1) == 0 ==> |log| == log[|log| - 1].nonce - log[0].nonce + 1
  {
    NoncesClimb(log, allowsReplacement, skip, |log| - 1);
  }

  /** From 0, and with no fetch failing, the first nonce tried is the confirmed one. With no other error either, there
      is at most one attempt for each pooled transaction, and one more. */
  lemma StartsAtConfirmed(log: seq<Attempt>, allowsReplacement: bool, skip: Reply -> bool)
    requires IsResend(log, allowsReplacement, skip) && log[0].local == 0 && FailedFetches(log, |log|) == 0
    ensures log[0].nonce == log[0].pool.confirmed
    ensures OtherErrors(log, |log| - 1) == 0 ==> |log| <= |log[0].pool.pending| + 1
  {
    FailedFetchesMonotone(log, 1, |log|);
    assert Possible(log[0], allowsReplacement);
    NoncesClimb(log, allowsReplacement, skip, |log| - 1);
  }

  ghost predicate StartsAt(log: seq<Attempt>, local: nat, pool: Pool)
    requires log != []
  {
    log[0].local == local && log[0].pool == pool
  }

  /** The last attempt has tried nonce n, got reply r, and left this state behind. */
  ghost predicate EndsAt(log: seq<Attempt>, r: Reply, n: nat, local: nat, pool: Pool)
    requires log != []
  {
    var last := log[|log| - 1];
    last.reply == r && last.nonce == n && last.LocalAfter() == local && last.PoolAfter() == pool
  }

  // ---------- when is the first free nonce certain? ----------

  /** A caller can check before the loop: the node allows no replacement, or no nonce from the local one on is
      pooled. The third case never ends in acceptance, because the first reply is one that the caller skips. */
  predicate CertainOfFirstFree(pool: Pool, local: nat, allowsReplacement: bool, skip: Reply -> bool) {
    || !allowsReplacement
    || (forall n :: n in pool.pending ==> n < local)
    || (0 < local < pool.confirmed && skip(NonceTooLow))
  }

  ghost predicate AcceptedRun(log: seq<Attempt>, pool: Pool, local: nat, allowsReplacement: bool, skip: Reply -> bool) {
    && IsResend(log, allowsReplacement, skip)
    && StartsAt(log, local, pool)
    && log[|log| - 1].reply.Accepted?
  }

  lemma AcceptedAtFirstFree(log: seq<Attempt>, pool: Pool, local: nat, allowsReplacement: bool, skip: Reply -> bool)
    requires AcceptedRun(log, pool, local, allowsReplacement, skip)
    requires CertainOfFirstFree(pool, local, allowsReplacement, skip)
    ensures log[|log| - 1].nonce == pool.FirstFree()
  {
    var last := log[|log| - 1];
    NoncesClimb(log, allowsReplacement, skip, |log| - 1);
    assert Possible(last, allowsReplacement);
    if last.nonce < pool.FirstFree() {
      assert last.nonce in last.pool.pending && last.nonce in pool.pending;
    }
    if 0 < local < pool.confirmed && skip(NonceTooLow) {
      StuckBelow(log, pool, local, allowsReplacement, skip, |log| - 1);
    }
  }

  /** Below the confirmed nonce, a caller that skips its error gets no further. */
  lemma {:induction false} StuckBelow(log: seq<Attempt>, pool: Pool, local: nat, allowsReplacement: bool,
                                      skip: Reply -> bool, k: nat)
    requires IsResend(log, allowsReplacement, skip) && StartsAt(log, local, pool) && k < |log|
    requires 0 < local < pool.confirmed && skip(NonceTooLow)
    ensures log[k].nonce == log[k].local == local && !log[k].reply.Accepted?
  {
    NoncesClimb(log, allowsReplacement, skip, k);
    if k > 0 {
      StuckBelow(log, pool, local, allowsReplacement, skip, k - 1);
      NoncesClimb(log, allowsReplacement, skip, k - 1);
      assert Possible(log[k - 1], allowsReplacement) && Follows(log[k - 1], log[k], skip);
    }
    assert Possible(log[k], allowsReplacement);
  }

  /** Otherwise some run ends with a replacement: the nonce climbs to the confirmed one, if it is below it, and the
      transaction that is pooled there gets replaced. */
  lemma {:induction false} Replacement(pool: Pool, local: nat, skip: Reply -> bool) returns (log: seq<Attempt>)
    requires pool.Gapless() && local <= pool.FirstFree()
    requires !CertainOfFirstFree(pool, local, true, skip)
    ensures AcceptedRun(log, pool, local, true, skip) && log[|log| - 1].nonce != pool.FirstFree()
    decreases pool.confirmed - local
  {
    if 0 < local < pool.confirmed {
      var rest := Replacement(pool, local + 1, skip);
      var first := Attempt(local, pool, false, local, NonceTooLow);
      log := [first] + rest;
      forall k | 0 <= k < |log| ensures Possible(log[k], true) {
        assert k > 0 ==> log[k] == rest[k - 1];
      }
      forall k | 0 <= k < |log| - 1 ensures Follows(log[k], log[k + 1], skip) {
        assert log[k + 1] == rest[k];
        assert k > 0 ==> log[k] == rest[k - 1] && Follows(rest[k - 1], rest[k], skip);
      }
    } else {
      var n := if local == 0 then pool.confirmed else local;
      log := [Attempt(local, pool, false, n, Accepted)];
    }
  }

  /** The loop is accepted at exactly the first free nonce, in every run in which it is accepted at all, if and only
      if the condition holds beforehand. */
  lemma FirstFreeIffCertain(pool: Pool, local: nat, allowsReplacement: bool, skip: Reply -> bool)
    requires pool.Gapless() && local <= pool.FirstFree()
    ensures (forall log: seq<Attempt> :: AcceptedRun(log, pool, local, allowsReplacement, skip) ==>
               log[|log| - 1].nonce == pool.FirstFree())
            <==> CertainOfFirstFree(pool, local, allowsReplacement, skip)
  {
    if CertainOfFirstFree(pool, local, allowsReplacement, skip) {
      forall log: seq<Attempt> | AcceptedRun(log, pool, local, allowsReplacement, skip)
        ensures log[|log| - 1].nonce == pool.FirstFree()
      {
        AcceptedAtFirstFree(log, pool, local, allowsReplacement, skip);
      }
    } else {
      var log := Replacement(pool, local, skip);
    }
  }

  /** A new account with one pooled transaction: the resent one may replace it instead of following it. */
  lemma ReplacedInsteadOfFirstFree(skip: Reply -> bool) returns (log: seq<Attempt>)
    ensures log == [Attempt(0, Pool(0, {0}), false, 0, Accepted)]
    ensures AcceptedRun(log, Pool(0, {0}), 0, true, skip)
    ensures log[0].nonce != Pool(0, {0}).FirstFree()
  {
    log := [Attempt(0, Pool(0, {0}), false, 0, Accepted)];
  }

  /** What all of this says about the loop once it has ended. */
  lemma LoopEnds(log: seq<Attempt>, allowsReplacement: bool, skip: Reply -> bool, others: int, failures: int)
    requires IsResend(log, allowsReplacement, skip) && Counts(log, others, failures)
    ensures var first, last := log[0], log[|log| - 1];
            && 1 <= |log| <= first.pool.FirstFree() - first.local + 1 + others
            && (others == 0 ==> |log| == last.nonce - first.nonce + 1)
            && (first.local == 0 && failures == 0 ==> first.nonce == first.pool.confirmed)
            && (first.local == 0 && failures == others == 0 ==> |log| <= |first.pool.pending| + 1)
            && (last.reply.Accepted? && CertainOfFirstFree(first.pool, first.local, allowsReplacement, skip) ==>
                  last.nonce == first.pool.FirstFree())
  {
    AttemptsBounded(log, allowsReplacement, skip);
    if log[0].local == 0 && failures == 0 {
      StartsAtConfirmed(log, allowsReplacement, skip);
    }
    if log[|log| - 1].reply.Accepted? && CertainOfFirstFree(log[0].pool, log[0].local, allowsReplacement, skip) {
      AcceptedAtFirstFree(log, log[0].pool, log[0].local, allowsReplacement, skip);
    }
  }

  // ---------- the node and the account ----------

  /** A node that still has `otherErrors` replies to give that are neither acceptance nor a nonce error, and
      `failingFetches` requests for a nonce to turn down. */
  class Node {
    var pool: Pool
    var failingFetches: nat
    var otherErrors: nat
    const allowsReplacement: bool

    constructor (pool: Pool, failingFetches: nat, otherErrors: nat, allowsReplacement: bool)
      ensures this.pool == pool && this.allowsReplacement == allowsReplacement
      ensures this.failingFetches == failingFetches && this.otherErrors == otherErrors
    {
      this.pool := pool;
      this.failingFetches := failingFetches;
      this.otherErrors := otherErrors;
      this.allowsReplacement := allowsReplacement;
    }

    method NonceAt() returns (ok: bool, n: nat)
      modifies this`failingFetches
      ensures ok ==> n == pool.confirmed
      ensures failingFetches == old(failingFetches) - if ok then 0 else 1
    {
      var fails: bool := *;
      if fails && failingFetches > 0 {
        failingFetches := failingFetches - 1;
        return false, 0;
      }
      return true, pool.confirmed;
    }

    method SendRawTransaction(n: nat) returns (r: Reply)
      modifies this`pool, this`otherErrors
      ensures old(pool).MayReply(n, r) && pool == old(pool).Deliver(n, r)
      ensures r.Accepted? && n in old(pool).pending ==> allowsReplacement
      ensures otherErrors == old(otherErrors) - if r.OtherError? then 1 else 0
    {
      var fails: bool := *;
      if fails && otherErrors > 0 {
        otherErrors := otherErrors - 1;
        return OtherError;
      }
      if n < pool.confirmed {
        r := NonceTooLow;
      } else if n in pool.pending {
        var replace: bool := *;
        r := if allowsReplacement && replace then Accepted else ReplaceUnderpriced;
      } else {
        r := Accepted;
      }
      pool := pool.Deliver(n, r);
    }

    method MineBlocks()
      requires pool.Gapless()
      modifies this`pool
      ensures Later(old(pool), pool)
    {
      var blocks: nat :| blocks >= 0;
      for i := 0 to blocks
        invariant Later(old(pool), pool)
      {
        if pool.CanMine() {
          MineGapless(pool);
          pool := pool.Mine();
        }
      }
    }
  }

  class Account {
    var nonce: nat

    constructor ()
      ensures nonce == 0
    {
      nonce := 0;
    }

    /** The cached nonce. 0 means that it has to be fetched, and stays 0 only when the node turns the request down. */
    method GetNonce(node: Node) returns (n: nat)
      modifies this, node`failingFetches
      ensures n == nonce
      ensures old(nonce) != 0 ==> n == old(nonce) && node.failingFetches == old(node.failingFetches)
      ensures old(nonce) == 0 && node.failingFetches == old(node.failingFetches) ==> n == node.pool.confirmed
      ensures old(nonce) == 0 && node.failingFetches != old(node.failingFetches) ==>
                n == 0 && node.failingFetches == old(node.failingFetches) - 1
    {
      if nonce != 0 {
        return nonce;
      }
      var ok, fetched := node.NonceAt();
      if !ok {
        return nonce;
      }
      nonce := fetched;
      return nonce;
    }

    /** Success and nonce errors advance the local nonce, any other error leaves it alone. */
    method SendRawTx(node: Node, n: nat) returns (r: Reply)
      modifies this, node`pool, node`otherErrors
      ensures old(node.pool).MayReply(n, r) && node.pool == old(node.pool).Deliver(n, r)
      ensures r.Accepted? && n in old(node.pool).pending ==> node.allowsReplacement
      ensures nonce == old(nonce) + if r.Accepted? || r.NonceError() then 1 else 0
      ensures node.otherErrors == old(node.otherErrors) - if r.OtherError? then 1 else 0
    {
      r := node.SendRawTransaction(n);
      if !r.Accepted? {
        if r.NonceError() {
          nonce := nonce + 1;
        }
        return r;
      }
      nonce := nonce + 1;
    }

    /** Makes one attempt. A local nonce that does not exceed the first free one still does not afterwards. */
    method SendTransaction(node: Node) returns (r: Reply, n: nat, ghost attempt: Attempt)
      requires node.pool.Gapless() && nonce <= node.pool.FirstFree()
      modifies this, node
      ensures attempt == Attempt(old(nonce), old(node.pool), old(node.failingFetches) != node.failingFetches, n, r)
      ensures Possible(attempt, node.allowsReplacement)
      ensures nonce == attempt.LocalAfter() && node.pool == attempt.PoolAfter()
      ensures node.failingFetches == old(node.failingFetches) - if attempt.fetchFails then 1 else 0
      ensures node.otherErrors == old(node.otherErrors) - if r.OtherError? then 1 else 0
      ensures node.pool.Gapless() && nonce <= node.pool.FirstFree()
    {
      n := GetNonce(node);
      r := SendRawTx(node, n);
      attempt := Attempt(old(nonce), old(node.pool), old(node.failingFetches) != node.failingFetches, n, r);
      DeliverGapless(old(node.pool), n, r);
    }

    /** The inner loop of RunWithRetry: resends until accepted, or until an error that the caller skips. Blocks are
        mined between the attempts. */
    method SendUntilAccepted(node: Node, skip: Reply -> bool) returns (r: Reply, n: nat, ghost log: seq<Attempt>)
      requires node.pool.Gapless() && nonce <= node.pool.FirstFree()
      modifies this, node
      ensures r.Accepted? || skip(r)
      ensures IsResend(log, node.allowsReplacement, skip)
      ensures StartsAt(log, old(nonce), old(node.pool)) && EndsAt(log, r, n, nonce, node.pool)
      ensures 1 <= |log| <= old(node.pool).FirstFree() - old(nonce) + 1 + old(node.otherErrors) - node.otherErrors
      ensures old(node.otherErrors) == node.otherErrors ==> |log| == n - log[0].nonce + 1
      ensures r.Accepted? && CertainOfFirstFree(old(node.pool), old(nonce), node.allowsReplacement, skip) ==>
                n == old(node.pool).FirstFree()
      ensures old(nonce) == 0 && old(node.failingFetches) == node.failingFetches ==>
                && log[0].nonce == old(node.pool).confirmed
                && (old(node.otherErrors) == node.otherErrors ==> |log| <= |old(node.pool).pending| + 1)
      ensures r.Accepted? ==> nonce == n + 1
      ensures node.pool.Gapless() && nonce <= node.pool.FirstFree()
    {
      ghost var attempt;
      r, n, attempt := SendTransaction(node);
      log := [attempt];
      while !r.Accepted? && !skip(r)
        invariant IsResend(log, node.allowsReplacement, skip)
        invariant StartsAt(log, old(nonce), old(node.pool)) && EndsAt(log, r, n, nonce, node.pool)
        invariant Counts(log, old(node.otherErrors) - node.otherErrors, old(node.failingFetches) - node.failingFetches)
        invariant node.pool.Gapless() && nonce <= node.pool.FirstFree()
        invariant !r.Accepted? ==> node.pool.FirstFree() == old(node.pool).FirstFree()
        decreases old(node.pool).FirstFree() - nonce + node.otherErrors, !r.Accepted?
      {
        node.MineBlocks();
        ghost var previous := log;
        r, n, attempt := SendTransaction(node);
        log := previous + [attempt];
        OneMoreAttempt(previous, attempt, node.allowsReplacement, skip);
      }
      LoopEnds(log, node.allowsReplacement, skip,
               old(node.otherErrors) - node.otherErrors, old(node.failingFetches) - node.failingFetches);
    }
  }
}
