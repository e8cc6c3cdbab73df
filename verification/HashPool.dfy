/** The receipt check test case: a ring buffer of transaction hashes, and the counter that decides whether a
    call sends a transaction or reads a receipt. */
module HashPool {

  type Hash = nat

  datatype Read = Panics | Got(hash: Hash)

  /** The last n hashes added, or all of them if there are fewer. */
  function Recent(added: seq<Hash>, n: nat): seq<Hash> {
    if |added| <= n then added else added[|added| - n..]
  }

  class Pool {
    const hashPool: array<Hash>
    var tail: nat
    var isFull: bool
    ghost var added: seq<Hash>

    ghost predicate Valid()
      reads this, hashPool
    {
      && tail < hashPool.Length
      && (!isFull ==> tail == |added| && hashPool[..tail] == added)
      && (isFull ==>
            hashPool.Length <= |added| && hashPool[tail..] + hashPool[..tail] == Recent(added, hashPool.Length))
    }

    constructor (hashPoolSize: nat)
      requires hashPoolSize > 0
      ensures Valid() && added == [] && hashPool.Length == hashPoolSize && fresh(hashPool)
    {
      hashPool := new Hash[hashPoolSize](_ => 0);
      tail, isFull, added := 0, false, [];
    }

    method AddHash(hash: Hash)
      requires Valid()
      modifies this, hashPool
      ensures Valid() && added == old(added) + [hash]
    {
      ghost var before, oldTail := hashPool[..], tail;
      hashPool[tail] := hash;
      tail := (tail + 1) % hashPool.Length;
      if tail == 0 {
        isFull := true;
      }
      added := added + [hash];
      TailMoves(oldTail, hashPool.Length);
      assert hashPool[..] == before[oldTail := hash];
      assert before == hashPool[..][oldTail := before[oldTail]];
      if old(isFull) {
        RingMoves(before, hash, oldTail, old(added));
      }
    }

    /** How many slots a read may choose from. */
    function Readable(): (n: nat)
      requires tail < hashPool.Length
      reads this
      ensures n <= hashPool.Length
    {
      if isFull then hashPool.Length else tail
    }

    /** Reads the slot that a random number selects. With no readable slot the program divides by zero. */
    method GetHash(random: nat) returns (r: Read)
      requires Valid()
      ensures r.Panics? <==> added == []
      ensures r.Got? ==> r.hash in Recent(added, hashPool.Length)
      ensures r.Got? ==> r.hash == hashPool[random % Readable()]
    {
      if isFull {
        ReadableAreRecent();
        assert hashPool[random % hashPool.Length] in multiset(hashPool[..Readable()]);
        return Got(hashPool[random % hashPool.Length]);
      }
      if tail == 0 {
        return Panics;
      }
      return Got(hashPool[random % tail]);
    }

    /** The readable slots hold exactly the last min(k, hashPoolSize) hashes of the k added so far. */
    lemma ReadableAreRecent()
      requires Valid()
      ensures multiset(hashPool[..Readable()]) == multiset(Recent(added, hashPool.Length))
      ensures forall h :: h in Recent(added, hashPool.Length) <==> h in multiset(hashPool[..Readable()])
    {
      if isFull {
        assert hashPool[..] == hashPool[..tail] + hashPool[tail..];
        assert hashPool[..hashPool.Length] == hashPool[..];
        assert multiset(hashPool[..]) == multiset(hashPool[tail..] + hashPool[..tail]);
      }
    }
  }

  lemma TailMoves(tail: nat, n: nat)
    requires tail < n
    ensures (tail + 1) % n == if tail + 1 == n then 0 else tail + 1
  {
  }

  /** Overwriting the oldest slot of a full ring and moving on drops the oldest hash and adds the new one. */
  lemma RingMoves(slots: seq<Hash>, hash: Hash, tail: nat, added: seq<Hash>)
    requires tail < |slots| <= |added|
    requires slots[tail..] + slots[..tail] == Recent(added, |slots|)
    ensures var slots', tail' := slots[tail := hash], if tail + 1 == |slots| then 0 else tail + 1;
            slots'[tail'..] + slots'[..tail'] == Recent(added + [hash], |slots|)
  {
    var n := |slots|;
    var slots', tail' := slots[tail := hash], if tail + 1 == n then 0 else tail + 1;
    assert Recent(added + [hash], n) == Recent(added, n)[1..] + [hash];
    assert slots'[tail'..] + slots'[..tail'] == (slots[tail..] + slots[..tail])[1..] + [hash];
  }

  // ---------- sending and reading ----------

  const COUNTER_LIMIT: nat := 0x1_0000_0000
  const DEFAULT_INIT_SEND_TX: nat := 10000
  const RATIO_READ_PER_SEND: nat := 9

  /** The 32-bit counter after one more call. */
  function Incremented(cnt: nat): nat {
    (cnt + 1) % COUNTER_LIMIT
  }

  predicate StillInitial(cnt: nat, initFlag: bool) {
    !initFlag && Incremented(cnt) < DEFAULT_INIT_SEND_TX
  }

  predicate Sends(cnt: nat, initFlag: bool) {
    StillInitial(cnt, initFlag) || Incremented(cnt) % (RATIO_READ_PER_SEND + 1) == RATIO_READ_PER_SEND
  }

  class TestCase {
    const pool: Pool
    var cnt: nat
    var initFlag: bool

    /** The initial phase cannot end before a hash has been added. */
    ghost predicate Valid()
      reads this, pool, pool.hashPool
    {
      && pool.Valid()
      && cnt < COUNTER_LIMIT
      && (pool.added == [] ==> cnt == 0 && !initFlag)
    }

    constructor (hashPoolSize: nat)
      requires hashPoolSize > 0
      ensures Valid() && pool.added == [] && cnt == 0 && !initFlag
      ensures fresh(pool) && fresh(pool.hashPool) && pool.hashPool.Length == hashPoolSize
    {
      pool := new Pool(hashPoolSize);
      cnt, initFlag := 0, false;
    }

    /** One call, `hash` being the hash of the transaction that it sends, if it does. A read never meets an
        empty pool, not even when the counter has wrapped around to 0. */
    method Run(hash: Hash, random: nat) returns (sent: bool, read: Read)
      requires Valid()
      modifies this, pool, pool.hashPool
      ensures Valid()
      ensures cnt == Incremented(old(cnt))
      ensures initFlag <==> !StillInitial(old(cnt), old(initFlag))
      ensures sent <==> Sends(old(cnt), old(initFlag))
      ensures pool.added == if sent then old(pool.added) + [hash] else old(pool.added)
      ensures !sent ==> read.Got? && read.hash in Recent(pool.added, pool.hashPool.Length)
    {
      cnt := (cnt + 1) % COUNTER_LIMIT;
      var nc := cnt;
      read := Panics;
      if !initFlag && nc < DEFAULT_INIT_SEND_TX {
        pool.AddHash(hash);
        sent := true;
      } else {
        initFlag := true;
        nc := nc % (RATIO_READ_PER_SEND + 1);
        if nc == RATIO_READ_PER_SEND {
          pool.AddHash(hash);
          sent := true;
        } else {
          read := pool.GetHash(random);
          sent := false;
        }
      }
    }
  }

  /** The counter and the flag after k calls of a fresh test case. */
  function After(k: nat): (state: (nat, bool))
    ensures state.0 < COUNTER_LIMIT
  {
    if k == 0 then (0, false)
    else (Incremented(After(k - 1).0), !StillInitial(After(k - 1).0, After(k - 1).1))
  }

  lemma {:induction false} AfterInitialPhase(k: nat)
    ensures if k <= 9999 then After(k) == (k, false) else After(k).1
  {
    if k > 0 {
      AfterInitialPhase(k - 1);
      OneCallOn(After(k - 1), k - 1);
    }
  }

  lemma OneCallOn(state: (nat, bool), k: nat)
    requires state.0 < COUNTER_LIMIT && if k <= 9999 then state == (k, false) else state.1
    ensures var after := (Incremented(state.0), !StillInitial(state.0, state.1));
            if k + 1 <= 9999 then after == (k + 1, false) else after.1
  {
    IncrementedBelowLimit(state.0);
  }

  /** The first 9999 calls of a fresh test case send, and no later call belongs to the initial phase. */
  lemma FirstCallsSend(k: nat)
    ensures StillInitial(After(k).0, After(k).1) <==> k < 9999
    ensures k < 9999 ==> Sends(After(k).0, After(k).1)
  {
    AfterInitialPhase(k);
    if k <= 9999 {
      IncrementedBelowLimit(k);
    }
  }

  /** The sends among the next k calls after the initial phase. */
  function SendsAmong(cnt: nat, k: nat): nat
    requires cnt < COUNTER_LIMIT
    decreases k
  {
    if k == 0 then 0 else (if Sends(cnt, true) then 1 else 0) + SendsAmong(Incremented(cnt), k - 1)
  }

  lemma IncrementedBelowLimit(cnt: nat)
    requires cnt < COUNTER_LIMIT
    ensures Incremented(cnt) == if cnt + 1 < COUNTER_LIMIT then cnt + 1 else 0
  {
  }

  lemma TenthsUpTo(nc: nat)
    ensures (nc + 1) / 10 == nc / 10 + if nc % 10 == 9 then 1 else 0
  {
  }

  /** As long as the counter does not wrap, the sends are the calls whose number ends in 9. */
  lemma {:induction false} SendsUntilWrap(cnt: nat, k: nat)
    requires cnt + k < COUNTER_LIMIT
    ensures SendsAmong(cnt, k) == (cnt + k + 1) / 10 - (cnt + 1) / 10
    decreases k
  {
    if k > 0 {
      IncrementedBelowLimit(cnt);
      SendsUntilWrap(cnt + 1, k - 1);
      TenthsUpTo(cnt + 1);
    }
  }

  lemma {:induction false} SendsAmongSplit(cnt: nat, j: nat, k: nat)
    requires cnt + j < COUNTER_LIMIT
    ensures SendsAmong(cnt, j + k) == SendsAmong(cnt, j) + SendsAmong(cnt + j, k)
    decreases j
  {
    if j > 0 {
      IncrementedBelowLimit(cnt);
      SendsAmongSplit(cnt + 1, j - 1, k);
    }
  }

  lemma WrappingCallReads(k: nat)
    ensures SendsAmong(COUNTER_LIMIT - 1, k + 1) == SendsAmong(0, k)
  {
    var last := COUNTER_LIMIT - 1;
    IncrementedBelowLimit(last);
    assert !Sends(last, true);
  }

  /** Among j calls up to the wrap, the call that wraps to 0, and k calls after it, the ratio slips, because 2^32
      is no multiple of ten. */
  lemma SendsAcrossWrap(cnt: nat, j: nat, k: nat)
    requires cnt + j == COUNTER_LIMIT - 1 && k + 1 < COUNTER_LIMIT
    ensures SendsAmong(cnt, j + (k + 1)) == COUNTER_LIMIT / 10 - (cnt + 1) / 10 + (k + 1) / 10
  {
    SendsAmongSplit(cnt, j, k + 1);
    WrappingCallReads(k);
    SendsBeforeWrap(cnt, j);
    SendsAfterWrap(k);
  }

  lemma SendsBeforeWrap(cnt: nat, j: nat)
    requires cnt + j == COUNTER_LIMIT - 1
    ensures SendsAmong(cnt, j) == COUNTER_LIMIT / 10 - (cnt + 1) / 10
  {
    SendsUntilWrap(cnt, j);
    assert cnt + j + 1 == COUNTER_LIMIT;
  }

  lemma SendsAfterWrap(k: nat)
    requires k + 1 < COUNTER_LIMIT
    ensures SendsAmong(0, k) == (k + 1) / 10
  {
    SendsUntilWrap(0, k);
  }

  /** The ratio 9 : 1 that the program aims at: ten calls in a row have exactly one send, unless the counter
      stands two to seven below 2^32 before them. Those windows have none. */
  lemma OneSendInTen(cnt: nat)
    requires cnt < COUNTER_LIMIT
    ensures SendsAmong(cnt, 10) == 1 <==> !(COUNTER_LIMIT - 7 <= cnt <= COUNTER_LIMIT - 2)
    ensures SendsAmong(cnt, 10) <= 1
  {
    if cnt + 10 < COUNTER_LIMIT {
      SendsUntilWrap(cnt, 10);
      TenCallsOn(cnt + 1);
    } else {
      var j := COUNTER_LIMIT - 1 - cnt;
      SendsAcrossWrap(cnt, j, 9 - j);
      TenCallsAcrossWrap(j);
    }
  }

  lemma TenCallsOn(n: nat)
    ensures (n + 10) / 10 - n / 10 == 1
  {
  }

  lemma TenCallsAcrossWrap(j: nat)
    requires j < 10
    ensures COUNTER_LIMIT / 10 - (COUNTER_LIMIT - j) / 10 + (10 - j) / 10 == if 1 <= j <= 6 then 0 else 1
  {
  }

  /** Up to fifteen calls in a row around the wrap send nothing. */
  lemma SilenceAcrossWrap(cnt: nat, j: nat, k: nat)
    requires cnt + j == COUNTER_LIMIT - 1 && j <= 6 && k <= 8
    ensures SendsAmong(cnt, j + (k + 1)) == 0
  {
    SendsAcrossWrap(cnt, j, k);
    TenthsAroundWrap(cnt + 1, k + 1);
  }

  lemma TenthsAroundWrap(before: nat, after: nat)
    requires COUNTER_LIMIT - 6 <= before <= COUNTER_LIMIT && after < 10
    ensures before / 10 == COUNTER_LIMIT / 10 && after / 10 == 0
  {
  }
}
