/** The ledger as one goroutine sees it, the search for a token, one run of the transfer test case, and charging
    account after account. */
module SequentialLedger {
  import opened LedgerSpec
  import opened TokenTransfer
  import opened Wrappers

  ghost predicate AllEmpty(q: Queues, accounts: seq<Address>, indices: seq<nat>) {
    forall i :: i in indices && i < |accounts| ==> QueueOf(q, accounts[i]) == []
  }

  /** The search from queues q to queues q' has visited these accounts, in rotated order. It has failed exactly if
      all queues are empty; otherwise it has taken the oldest token of the first account that has one. */
  ghost predicate SearchResult(q: Queues, q': Queues, accounts: seq<Address>, start: nat,
                               token: Option<Token>, found: nat, visited: seq<nat>)
    requires start < |accounts|
  {
    && visited <= Rotation(start, |accounts|) && found < |accounts|
    && (token.None? <==> forall i :: 0 <= i < |accounts| ==> QueueOf(q, accounts[i]) == [])
    && if token.None? then visited == Rotation(start, |accounts|) && q' == q
       else
         && visited != [] && visited[|visited| - 1] == found
         && AllEmpty(q, accounts, visited[..|visited| - 1])
         && QueueOf(q, accounts[found]) == [token.value] + QueueOf(q', accounts[found])
         && (forall a :: a != accounts[found] ==> QueueOf(q', a) == QueueOf(q, a))
  }

  /** From queues q to queues q', the oldest token of one address has gone to the end of the queue of another, or to
      the end of the same. */
  ghost predicate HandOver(q: Queues, q': Queues, from: Address, to: Address, token: Token) {
    && QueueOf(q, from) != [] && QueueOf(q, from)[0] == token
    && forall a :: QueueOf(q', a) == (if a == from then QueueOf(q, from)[1..] else QueueOf(q, a))
                                     + if a == to then [token] else []
  }

  lemma {:induction false} QueuedWithout(q: Queues, q': Queues, a: Address, token: Token, n: nat, x: Token)
    requires QueueOf(q, a) == [token] + QueueOf(q', a)
    requires forall b :: b != a ==> QueueOf(q', b) == QueueOf(q, b)
    ensures Queued(q, n, x) == Queued(q', n, x) + if a < n && token == x then 1 else 0
  {
    if n > 0 {
      QueuedWithout(q, q', a, token, n - 1, x);
      assert n - 1 == a ==> Copies(QueueOf(q, a), x) == Copies(QueueOf(q', a), x) + if token == x then 1 else 0;
    }
  }

  lemma HandedOverOnly(q: Queues, taken: Queues, q': Queues, from: Address, to: Address, token: Token)
    requires QueueOf(q, from) == [token] + QueueOf(taken, from)
    requires forall a :: a != from ==> QueueOf(taken, a) == QueueOf(q, a)
    requires q' == Apply(taken, PutToken(to, token)).0
    ensures HandOver(q, q', from, to, token)
    ensures forall n: nat, x :: from < n && to < n ==> Queued(q', n, x) == Queued(q, n, x)
    ensures to == from ==> forall a, x :: Copies(QueueOf(q', a), x) == Copies(QueueOf(q, a), x)
  {
    forall n: nat, x | from < n && to < n ensures Queued(q', n, x) == Queued(q, n, x) {
      QueuedWithout(q, taken, from, token, n, x);
      ApplyMovesOneToken(taken, PutToken(to, token), n, x);
    }
    if to == from {
      forall a, x ensures Copies(QueueOf(q', a), x) == Copies(QueueOf(q, a), x) {
        if a == from {
          CopiesAfterRemove(QueueOf(q, a), x);
          CopiesAfterPut(QueueOf(taken, a), token, x);
        }
      }
    }
  }

  lemma RemoveEffect(q: Queues, a: Address)
    ensures var (q', token) := Apply(q, RemoveToken(a));
            && (token.None? <==> QueueOf(q, a) == [])
            && (token.None? ==> q' == q)
            && (token.Some? ==> QueueOf(q, a) == [token.value] + QueueOf(q', a))
            && (forall b :: b != a ==> QueueOf(q', b) == QueueOf(q, b))
  {
  }

  lemma RotationStarts(start: nat, n: nat)
    requires start < n
    ensures Rotation(start, n)[0] == start
  {
    ModWraps(start, n);
  }

  lemma TokenFound(q: Queues, q': Queues, accounts: seq<Address>, start: nat, i: nat, token: Option<Token>)
    requires start < |accounts| && i < |accounts| && Rotation(start, |accounts|)[i] < |accounts|
    requires AllEmpty(q, accounts, Rotation(start, |accounts|)[..i])
    requires (q', token) == Apply(q, RemoveToken(accounts[Rotation(start, |accounts|)[i]])) && token.Some?
    ensures SearchResult(q, q', accounts, start, token, Rotation(start, |accounts|)[i],
                         Rotation(start, |accounts|)[..i + 1])
  {
    var rotation := Rotation(start, |accounts|);
    RemoveEffect(q, accounts[rotation[i]]);
    assert rotation[..i + 1][..i] == rotation[..i];
  }

  lemma NothingHere(q: Queues, accounts: seq<Address>, start: nat, i: nat)
    requires start < |accounts| && i < |accounts| && Rotation(start, |accounts|)[i] < |accounts|
    requires AllEmpty(q, accounts, Rotation(start, |accounts|)[..i])
    requires QueueOf(q, accounts[Rotation(start, |accounts|)[i]]) == []
    ensures AllEmpty(q, accounts, Rotation(start, |accounts|)[..i + 1])
    ensures i + 1 < |accounts| ==>
              (Rotation(start, |accounts|)[i] + 1) % |accounts| == Rotation(start, |accounts|)[i + 1] < |accounts|
  {
    var rotation := Rotation(start, |accounts|);
    assert rotation[..i + 1] == rotation[..i] + [rotation[i]];
    RotationVisitsEachOnce(start, |accounts|);
    if i + 1 < |accounts| {
      RotationStep(start, |accounts|, i);
    }
  }

  lemma NothingFound(q: Queues, accounts: seq<Address>, start: nat)
    requires start < |accounts|
    requires AllEmpty(q, accounts, Rotation(start, |accounts|)[..|accounts|])
    ensures SearchResult(q, q, accounts, start, None, start, Rotation(start, |accounts|))
  {
    var rotation := Rotation(start, |accounts|);
    RotationVisitsEachOnce(start, |accounts|);
    assert rotation[..|accounts|] == rotation;
    forall j | 0 <= j < |accounts| ensures QueueOf(q, accounts[j]) == [] {
      assert j in rotation;
    }
  }

  class Ledger {
    var queues: Queues

    constructor ()
      ensures queues == map[]
    {
      queues := map[];
    }

    method Put(addr: Address, token: Token)
      modifies this
      ensures queues == Apply(old(queues), PutToken(addr, token)).0
    {
      var tokens := if addr in queues then queues[addr] else [];
      tokens := tokens + [token];
      queues := queues[addr := tokens];
    }

    method Remove(addr: Address) returns (token: Option<Token>)
      modifies this
      ensures (queues, token) == Apply(old(queues), RemoveToken(addr))
    {
      if addr !in queues {
        return None;
      }
      var tokens := queues[addr];
      if |tokens| == 0 {
        return None;
      }
      queues := queues[addr := tokens[1..]];
      return Some(tokens[0]);
    }

    method Initialize(addr: Address)
      modifies this
      ensures queues == Apply(old(queues), InitializeAccount(addr)).0
    {
      if addr !in queues {
        queues := queues[addr := []];
      }
    }

    /** Tries the accounts in rotated order. `found` is the index of the account that the token comes from. */
    method FindToken(accounts: seq<Address>, start: nat)
      returns (token: Option<Token>, found: nat, ghost visited: seq<nat>)
      requires start < |accounts|
      modifies this
      ensures SearchResult(old(queues), queues, accounts, start, token, found, visited)
    {
      var candidate := start;
      token, found := None, start;
      ghost var rotation := Rotation(start, |accounts|);
      RotationStarts(start, |accounts|);
      ghost var before := queues;
      var i := 0;
      while i < |accounts|
        invariant i <= |accounts|
        invariant i < |accounts| ==> candidate == rotation[i] < |accounts|
        invariant queues == before && token.None?
        invariant AllEmpty(before, accounts, rotation[..i])
      {
        token := Remove(accounts[candidate]);
        RemoveEffect(before, accounts[candidate]);
        if token.Some? {
          TokenFound(before, queues, accounts, start, i, token);
          found, visited := candidate, rotation[..i + 1];
          return;
        }
        NothingHere(before, accounts, start, i);
        candidate := (candidate + 1) % |accounts|;
        i := i + 1;
      }
      NothingFound(before, accounts, start);
      visited := rotation;
    }

    /** One run of the test case. It finds nothing exactly when all queues are empty. Otherwise it takes the oldest
        token of the first account, in rotated order, that has one, and puts it at the end of the receiver's queue
        if it could be sent, and else at the end of the owner's own; no other queue changes. */
    method TransferOne(accounts: seq<Address>, start: nat, to: Address, sent: bool)
      returns (transferred: bool, token: Option<Token>, found: nat, ghost visited: seq<nat>)
      requires start < |accounts|
      modifies this
      ensures found < |accounts| && visited <= Rotation(start, |accounts|)
      ensures token.None? <==> forall i :: 0 <= i < |accounts| ==> QueueOf(old(queues), accounts[i]) == []
      ensures token.None? ==> queues == old(queues)
      ensures token.Some? ==> visited != [] && visited[|visited| - 1] == found
      ensures token.Some? ==> AllEmpty(old(queues), accounts, visited[..|visited| - 1])
      ensures token.Some? ==>
                HandOver(old(queues), queues, accounts[found], if sent then to else accounts[found], token.value)
      ensures forall n: nat, x :: to < n && accounts[found] < n ==> Queued(queues, n, x) == Queued(old(queues), n, x)
      ensures token.Some? && !sent ==>
                forall a, x :: Copies(QueueOf(queues, a), x) == Copies(QueueOf(old(queues), a), x)
      ensures transferred <==> sent && token.Some?
    {
      ghost var before := queues;
      token, found, visited := FindToken(accounts, start);
      if token.None? {
        return false, token, found, visited;
      }
      ghost var taken := queues;
      var receiver := if sent then to else accounts[found];
      Put(receiver, token.value);
      HandedOverOnly(before, taken, queues, accounts[found], receiver, token.value);
      transferred := sent;
    }

    /** The charging loop: five new ids for each account. */
    method ChargeTokens(accounts: seq<Address>, baseOffset: Token)
      requires forall i, j :: 0 <= i < j < |accounts| ==> accounts[i] != accounts[j]
      modifies this
      ensures forall i :: 0 <= i < |accounts| ==>
                QueueOf(queues, accounts[i]) == QueueOf(old(queues), accounts[i]) + MintedIds(baseOffset, i)
      ensures forall a :: a !in accounts ==> QueueOf(queues, a) == QueueOf(old(queues), a)
      ensures (forall a :: QueueOf(old(queues), a) == []) ==> Charged(queues, accounts, baseOffset)
    {
      for idx := 0 to |accounts|
        invariant forall i :: 0 <= i < idx ==>
                    QueueOf(queues, accounts[i]) == QueueOf(old(queues), accounts[i]) + MintedIds(baseOffset, i)
        invariant forall a :: a !in accounts[..idx] ==> QueueOf(queues, a) == QueueOf(old(queues), a)
      {
        assert accounts[idx] !in accounts[..idx];
        ChargeAccount(accounts[idx], idx, baseOffset);
        assert accounts[..idx + 1] == accounts[..idx] + [accounts[idx]];
      }
      assert accounts[..|accounts|] == accounts;
    }

    method ChargeAccount(addr: Address, idx: nat, baseOffset: Token)
      modifies this
      ensures QueueOf(queues, addr) == QueueOf(old(queues), addr) + MintedIds(baseOffset, idx)
      ensures forall a :: a != addr ==> QueueOf(queues, a) == QueueOf(old(queues), a)
    {
      Initialize(addr);
      var startTokenId, endTokenId := baseOffset + idx * 5, baseOffset + (idx + 1) * 5;
      var tokenId := startTokenId;
      ghost var ids := MintedIds(baseOffset, idx);
      while tokenId < endTokenId
        invariant startTokenId <= tokenId <= endTokenId
        invariant QueueOf(queues, addr) == QueueOf(old(queues), addr) + ids[..tokenId - startTokenId]
        invariant forall a :: a != addr ==> QueueOf(queues, a) == QueueOf(old(queues), a)
      {
        var k := tokenId - startTokenId;
        assert ids[..k + 1] == ids[..k] + [tokenId];
        Put(addr, tokenId);
        tokenId := tokenId + 1;
      }
      assert ids[..5] == ids;
    }
  }
}
