/** The pool of RPC clients. A client is represented by its number in the order of creation. */
module ClientPool {

  type Client = nat

  function Max(a: int, b: int): int {
    if a < b then b else a
  }

  /** `lent` holds the clients that callers have and have not yet freed; `peak` is the largest number of
      clients ever lent at the same time. */
  class ClientPool {
    var init: int
    var max: int
    var cnt: nat
    var freeList: seq<Client>
    ghost var lent: set<Client>
    ghost var peak: nat

    /** Every client created is either free or lent, and none is both or free twice. No more clients have been
        created than were needed at once. */
    ghost predicate Valid()
      reads this
    {
      && (forall i, j :: 0 <= i < j < |freeList| ==> freeList[i] != freeList[j])
      && (forall c :: c in freeList ==> c !in lent)
      && (forall c :: c in freeList || c in lent <==> 0 <= c < cnt)
      && cnt == |freeList| + |lent|
      && cnt == Max(Max(init, 0), peak)
      && |lent| <= peak
    }

    constructor ()
      ensures Valid() && cnt == 0 && freeList == [] && lent == {} && peak == 0
    {
      init, max, cnt, freeList, lent, peak := 0, 0, 0, [], {}, 0;
    }

    method Init(init: int, max: int)
      requires Valid() && cnt == 0
      modifies this
      ensures Valid() && this.init == init && this.max == max
      ensures cnt == Max(init, 0) && |freeList| == cnt && lent == {} && peak == 0
    {
      this.init := init;
      this.max := max;
      var i := 0;
      while i < this.init
        invariant this.init == init && this.max == max && lent == {} && peak == 0
        invariant 0 <= i && cnt == i == |freeList| && i <= Max(init, 0)
        invariant forall k :: 0 <= k < i ==> freeList[k] == k
        decreases init - i
      {
        var cli := Create();
        freeList := freeList + [cli];
        cnt := cnt + 1;
        i := i + 1;
      }
      forall c: Client ensures c in freeList <==> c < cnt {
        if c < cnt {
          assert freeList[c] == c;
        }
      }
    }

    /** allocFunc: a client that has not been there before. */
    function Create(): Client
      reads this
    {
      cnt
    }

    method Alloc() returns (ret: Client)
      requires Valid()
      modifies this
      ensures Valid() && init == old(init) && max == old(max)
      ensures ret !in old(lent) && lent == old(lent) + {ret}
      ensures peak == Max(old(peak), |lent|)
      ensures old(freeList) == [] ==> ret == old(cnt) && cnt == old(cnt) + 1 && freeList == []
      ensures old(freeList) != [] ==> ret == old(freeList)[0] && cnt == old(cnt) && freeList == old(freeList)[1..]
    {
      if |freeList| == 0 {
        var cli := Create();
        ret := cli;
        cnt := cnt + 1;
      } else {
        ret := freeList[0];
        assert freeList == [ret] + freeList[1..];
        freeList := freeList[1..];
      }
      assert ret !in lent;
      lent := lent + {ret};
      peak := Max(peak, |lent|);
    }

    method Free(v: Client)
      requires Valid() && v in lent
      modifies this
      ensures Valid() && init == old(init) && max == old(max)
      ensures lent == old(lent) - {v} && freeList == old(freeList) + [v]
      ensures cnt == old(cnt) && peak == old(peak)
    {
      freeList := freeList + [v];
      lent := lent - {v};
    }
  }
}
