/** What a session leaves behind: how far it moves the local nonce, for each answer that it gets, and for which block
    the account is remembered to have bid. A session starts here once it has fetched its nonce, and is undisturbed
    if no reset and no unlocked fetch falls before its release. */
module SessionOutcome {
  import opened TxPool
  import opened NonceProtocol
  import opened Wrappers

  // ---------- what each answer earns ----------

  /** By how much the actions of a session move the local nonce: the last answer that decides about it counts. */
  ghost function Gain(kind: Kind, actions: seq<Action>): nat {
    if actions == [] then 0
    else
      match actions[|actions| - 1]
      case SendFirst(r) => GainOfFirst(kind, r)
      case SendSecond(r) => GainOfSecond(kind, r)
      case PreSendBid(r) => GainOfApprove(kind, r)
      case BidVerdict(arrived) => if StepsOver(arrived) then 1 else 0
      case PostSendBid(r) => GainOfSwap(kind, r)
      case _ => Gain(kind, actions[..|actions| - 1])
  }

  /** A plain sender moves on upon success and upon both nonce errors, and stays upon any other error. The senders of
      two transactions wait for the second one. Approve-only never moves on. */
  function GainOfFirst(kind: Kind, r: Reply): nat {
    match kind
    case GaslessApproveOnly => 0
    case Plain => if r == OtherError then 0 else 1
    case _ => if r == NonceTooLow || r == ReplaceUnderpriced then 1 else 0
  }

  /** The cancel has the nonce of the first transaction, the gasless swap the next one. */
  function GainOfSecond(kind: Kind, r: Reply): nat {
    match r
    case Accepted => if kind.Gasless? then 2 else 1
    case OtherError => 0
    case _ => 1
  }

  /** Of the transactions ahead of a bid, only the approve of GAS is the bidder's own. */
  function GainOfApprove(kind: Kind, r: Reply): nat {
    if kind.IsAuction() && kind.Target().GAS? && (r == NonceTooLow || r == ReplaceUnderpriced) then 1 else 0
  }

  /** A successful bid is worth its own target, and the approve or swap that goes with it. */
  function GainOfSwap(kind: Kind, r: Reply): nat {
    if !kind.IsAuction() then 0
    else
      match kind.Target()
      case GAA => (match r case Accepted => 2 case OtherError => 0 case _ => 1)
      case GAS => 2
      case RGAA => 0
      case RGAS => 0
      case _ => 1
  }

  /** The bid has been successful, and so has everything that goes with it, with a target of the bidder's own. */
  predicate Wins(kind: Kind, actions: seq<Action>) {
    if actions == [] then false
    else
      match actions[|actions| - 1]
      case PostSendBid(r) => kind.IsAuction() && !kind.Target().FromTemporary() && (kind.Target().GAA? ==> r.Accepted?)
      case _ => Wins(kind, actions[..|actions| - 1])
  }

  /** The block that the session has been told. */
  function BlockTold(actions: seq<Action>): Option<nat> {
    if actions == [] then None
    else
      match actions[|actions| - 1]
      case GetBlockNumber(answer) => answer
      case _ => BlockTold(actions[..|actions| - 1])
  }

  predicate Undisturbed(a: Action) {
    !a.ResetByRetry? && !a.FetchUnlocked? && !a.Acquire? && !a.Release?
  }

  // ---------- tracking a session ----------

  /** Where an undisturbed session stands, after these actions: the nonce that it works with is still the local one
      until it has written its gain, and the block is recorded after that. */
  ghost predicate Tracks(s: State, start: State, actions: seq<Action>)
    requires start.holder.Some?
  {
    && s.holder.Some?
    && var h, h0 := s.holder.value, start.holder.value;
       && h.kind == h0.kind && h.nonce == h0.nonce && OnItsPath(h)
       && GainTracked(s.local, h, Gain(h0.kind, actions))
       && BlockTracked(s.lastBlock, h, start.lastBlock, Wins(h0.kind, actions), BlockTold(actions))
  }

  ghost predicate GainTracked(local: nat, h: Session, gain: nat) {
    match h.pc
    case AtFetch => false
    case AtStoreFetched(_) => false
    case AtIncrement(amount) => local == h.nonce && amount == gain
    case AtWrite(value) => value == h.nonce + gain
    case AtRecordBlock(_) => local == h.nonce + gain
    case AtUnlock => local == h.nonce + gain
    case _ => local == h.nonce && gain == 0
  }

  ghost predicate BlockTracked(lastBlock: nat, h: Session, before: nat, wins: bool, told: Option<nat>) {
    match h.pc
    case AtBids(block, _) => !wins && told == Some(block) && block != before && lastBlock == before
    case AtPostSendBid(block) => !wins && told == Some(block) && block != before && lastBlock == before
    case AtIncrement(_) => lastBlock == before && h.afterIncrement == Afterwards(wins, told)
    case AtWrite(_) => lastBlock == before && h.afterIncrement == Afterwards(wins, told)
    case AtRecordBlock(block) => wins && told == Some(block) && lastBlock == before
    case AtUnlock => lastBlock == if wins && told.Some? then told.value else before
    case _ => !wins && lastBlock == before && (h.pc.AtBlockNumber? || told.None?)
  }

  function Afterwards(wins: bool, told: Option<nat>): Pc {
    if wins && told.Some? then AtRecordBlock(told.value) else AtUnlock
  }

  ghost predicate Fetched(s: State) {
    && s.holder.Some?
    && var h := s.holder.value;
       && h.pc == AfterFetch(h.kind) && s.local == h.nonce && h.afterIncrement == AtUnlock
  }

  /** A session works with the cached nonce, with the node's answer, which it caches, or with 0 if the fetch fails. In
      all three cases it goes on from there. */
  lemma FetchEnds(s: State, a: Action, t: State)
    requires Step(s, a, t) && (a.FetchLocal? || a.FetchFails? || a.StoreFetched?)
    requires s.holder.value.afterIncrement == AtUnlock
    ensures Fetched(t) && t.pool == s.pool && t.lastBlock == s.lastBlock
    ensures var n := t.holder.value.nonce;
            if a.FetchLocal? then n == s.local != 0
            else if a.FetchFails? then n == s.local == 0
            else s.holder.value.pc == AtStoreFetched(n)
  {
  }

  /** What it will cache is what the node has confirmed, and it asks only if nothing is cached. */
  lemma FetchAsks(s: State, t: State)
    requires Step(s, FetchRemote, t)
    ensures s.local == t.local == 0 && t.holder.value.pc == AtStoreFetched(s.pool.confirmed)
  {
  }

  lemma StepTracks(start: State, s: State, a: Action, t: State, actions: seq<Action>)
    requires start.holder.Some? && Tracks(s, start, actions) && Step(s, a, t) && Undisturbed(a)
    ensures Tracks(t, start, actions + [a])
  {
    assert (actions + [a])[..|actions|] == actions;
    if a.SendFirst? || a.SendSecond? {
      SendTracks(start, s, a, t, actions);
    } else if a.PreSendBid? || a.PostSendBid? {
      SwapTracks(start, s, a, t, actions);
    } else if a.SubmitBid? || a.BidVerdict? {
      BidTracks(start, s, a, t, actions);
    } else if !a.MineBlock? {
      LocalTracks(start, s, a, t, actions);
    }
  }

  lemma SendTracks(start: State, s: State, a: Action, t: State, actions: seq<Action>)
    requires start.holder.Some? && Tracks(s, start, actions) && Step(s, a, t)
    requires a.SendFirst? || a.SendSecond?
    ensures Tracks(t, start, actions + [a])
  {
    assert (actions + [a])[..|actions|] == actions;
  }

  lemma SwapTracks(start: State, s: State, a: Action, t: State, actions: seq<Action>)
    requires start.holder.Some? && Tracks(s, start, actions) && Step(s, a, t)
    requires a.PreSendBid? || a.PostSendBid?
    ensures Tracks(t, start, actions + [a])
  {
    assert (actions + [a])[..|actions|] == actions;
  }

  lemma BidTracks(start: State, s: State, a: Action, t: State, actions: seq<Action>)
    requires start.holder.Some? && Tracks(s, start, actions) && Step(s, a, t)
    requires a.SubmitBid? || a.BidVerdict?
    ensures Tracks(t, start, actions + [a])
  {
    assert (actions + [a])[..|actions|] == actions;
  }

  lemma LocalTracks(start: State, s: State, a: Action, t: State, actions: seq<Action>)
    requires start.holder.Some? && Tracks(s, start, actions) && s.holder.Some?
    requires Undisturbed(a) && LocalStep(s, s.holder.value, a, t)
    ensures Tracks(t, start, actions + [a])
  {
    assert (actions + [a])[..|actions|] == actions;
  }

  lemma {:induction false} PathTracks(states: seq<State>, actions: seq<Action>, i: nat)
    requires IsPath(states, actions) && i <= |actions| && Fetched(states[0])
    requires forall k :: 0 <= k < i ==> Undisturbed(actions[k])
    ensures Tracks(states[i], states[0], actions[..i])
  {
    if i > 0 {
      PathTracks(states, actions, i - 1);
      assert StepAt(states, actions, i - 1);
      StepTracks(states[0], states[i - 1], actions[i - 1], states[i], actions[..i - 1]);
      assert actions[..i] == actions[..i - 1] + [actions[i - 1]];
    }
  }

  /** Every undisturbed session leaves the local nonce exactly its gain above the nonce that it has worked with, and
      remembers the block it was told exactly if it has won. */
  lemma SessionEnds(states: seq<State>, actions: seq<Action>)
    requires IsPath(states, actions) && Fetched(states[0])
    requires actions != [] && actions[|actions| - 1] == Release
    requires forall k :: 0 <= k < |actions| - 1 ==> Undisturbed(actions[k])
    ensures var h, done := states[0].holder.value, actions[..|actions| - 1];
            && states[|actions|].holder.None?
            && states[|actions|].local == h.nonce + Gain(h.kind, done)
            && states[|actions|].lastBlock
               == if Wins(h.kind, done) && BlockTold(done).Some? then BlockTold(done).value else states[0].lastBlock
  {
    PathTracks(states, actions, |actions| - 1);
    assert StepAt(states, actions, |actions| - 1);
  }

  // ---------- the bids of a session ----------

  /** The results of the bids that have been submitted. */
  function Submitted(actions: seq<Action>): seq<BidResult> {
    if actions == [] then []
    else
      Submitted(actions[..|actions| - 1])
      + match actions[|actions| - 1] case SubmitBid(result) => [result] case _ => []
  }

  ghost predicate BidsTracked(s: State, actions: seq<Action>) {
    s.holder.Some? ==>
      match s.holder.value.pc
      case AtSend => Submitted(actions) == []
      case AtSecondSend => Submitted(actions) == []
      case AtPreSendBid => Submitted(actions) == []
      case AtBlockNumber => Submitted(actions) == []
      case AtBids(_, results) => Submitted(actions) == results
      case AtFetch => false
      case AtStoreFetched(_) => false
      case _ => true
  }

  lemma StepTracksBids(start: State, s: State, a: Action, t: State, actions: seq<Action>)
    requires start.holder.Some? && Tracks(s, start, actions) && BidsTracked(s, actions)
    requires Step(s, a, t) && Undisturbed(a) && t.holder.Some?
    ensures BidsTracked(t, actions + [a])
  {
    assert (actions + [a])[..|actions|] == actions;
    if a.SendFirst? || a.SendSecond? || a.PreSendBid? || a.PostSendBid? {
      SendTracksBids(s, a, t, actions);
    } else if a.Increments() {
      IncrementTracksBids(start, s, a, t, actions);
    } else if !a.MineBlock? {
      OtherTracksBids(start, s, a, t, actions);
    }
  }

  lemma IncrementTracksBids(start: State, s: State, a: Action, t: State, actions: seq<Action>)
    requires start.holder.Some? && Tracks(s, start, actions) && BidsTracked(s, actions)
    requires Step(s, a, t) && a.Increments()
    ensures BidsTracked(t, actions + [a])
  {
    assert (actions + [a])[..|actions|] == actions;
  }

  lemma OtherTracksBids(start: State, s: State, a: Action, t: State, actions: seq<Action>)
    requires start.holder.Some? && Tracks(s, start, actions) && BidsTracked(s, actions)
    requires Step(s, a, t) && t.holder.Some? && Undisturbed(a) && !a.MineBlock? && !a.Increments()
    requires !a.SendFirst? && !a.SendSecond? && !a.PreSendBid? && !a.PostSendBid?
    ensures BidsTracked(t, actions + [a])
  {
    assert (actions + [a])[..|actions|] == actions;
  }

  lemma SendTracksBids(s: State, a: Action, t: State, actions: seq<Action>)
    requires s.holder.Some? && BidsTracked(s, actions) && Step(s, a, t) && t.holder.Some?
    requires a.SendFirst? || a.SendSecond? || a.PreSendBid? || a.PostSendBid?
    ensures BidsTracked(t, actions + [a])
  {
    assert (actions + [a])[..|actions|] == actions;
  }

  lemma {:induction false} PathTracksBids(states: seq<State>, actions: seq<Action>, i: nat)
    requires IsPath(states, actions) && i <= |actions| && Fetched(states[0])
    requires forall k :: 0 <= k < i ==> Undisturbed(actions[k])
    ensures Tracks(states[i], states[0], actions[..i]) && BidsTracked(states[i], actions[..i])
  {
    PathTracks(states, actions, i);
    if i > 0 {
      PathTracksBids(states, actions, i - 1);
      assert StepAt(states, actions, i - 1);
      StepTracksBids(states[0], states[i - 1], actions[i - 1], states[i], actions[..i - 1]);
      assert actions[..i] == actions[..i - 1] + [actions[i - 1]];
    }
  }

  /** A session looks at its results once two bids have been submitted, or one if it is to be reverted, and it looks at
      the results of just these, in the order in which they have arrived. */
  lemma VerdictOnAllBids(states: seq<State>, actions: seq<Action>, i: nat)
    requires IsPath(states, actions) && i < |actions| && Fetched(states[0])
    requires forall k :: 0 <= k < i ==> Undisturbed(actions[k])
    requires actions[i].BidVerdict?
    ensures multiset(actions[i].arrived) == multiset(Submitted(actions[..i]))
    ensures |Submitted(actions[..i])| == if states[0].holder.value.kind.AuctionBid? then 2 else 1
  {
    PathTracksBids(states, actions, i);
    assert StepAt(states, actions, i);
  }

  /** An accepted approve without its swap takes its nonce in the pool, but leaves the local nonce behind. */
  lemma ApproveOnlyFallsBehind(s: State, h: Session, t: State)
    requires Inv(s) && s.holder == Some(h) && h.kind.GaslessApproveOnly? && h.pc.AtSend? && s.local == h.nonce
    requires Step(s, SendFirst(Accepted), t)
    ensures t.local == h.nonce < t.pool.FirstFree() && t.holder.value.pc == AtUnlock
    ensures h.nonce == s.pool.FirstFree() ==> t.pool.FirstFree() == h.nonce + 1
  {
    DeliverGapless(s.pool, h.nonce, Accepted);
  }

  // ---------- nothing but nonce errors ----------

  /** Senders that are turned away with a nonce error each time, and nothing else goes wrong. */
  predicate OnlyNonceErrors(a: Action) {
    match a
    case Acquire(kind) => kind.Plain? || kind.WithCancel? || kind.Gasless?
    case SendFirst(r) => r == NonceTooLow || r == ReplaceUnderpriced
    case SuggestGasPriceFails => false
    case ResetByRetry => false
    case FetchUnlocked(_) => false
    case _ => true
  }

  function Releases(actions: seq<Action>): nat {
    if actions == [] then 0 else Releases(actions[..|actions| - 1]) + if actions[|actions| - 1].Release? then 1 else 0
  }

  ghost predicate Climbs(s: State, local: nat, free: nat) {
    && s.pool.FirstFree() == free
    && match s.holder
       case None => s.local == local
       case Some(h) =>
         && (h.kind.Plain? || h.kind.WithCancel? || h.kind.Gasless?)
         && match h.pc
            case AtFetch => s.local == local
            case AtSend => s.local == h.nonce == local
            case AtIncrement(amount) => s.local == local && amount == 1 && h.afterIncrement == AtUnlock
            case AtWrite(value) => value == local + 1 && h.afterIncrement == AtUnlock
            case AtUnlock => s.local == local + 1
            case _ => false
  }

  lemma StepClimbs(s: State, a: Action, t: State, local: nat, free: nat)
    requires Inv(s) && Climbs(s, local, free) && local > 0 && Step(s, a, t) && OnlyNonceErrors(a)
    ensures Climbs(t, if a.Release? then local + 1 else local, free)
  {
    if a.MineBlock? {
      MineGapless(s.pool);
    } else if a.SendFirst? {
      DeliverGapless(s.pool, s.holder.value.nonce, a.firstReply);
    }
  }

  lemma {:induction false} PathClimbs(states: seq<State>, actions: seq<Action>, i: nat)
    requires IsPath(states, actions) && i <= |actions|
    requires Inv(states[0]) && states[0].holder.None? && states[0].local > 0
    requires forall k :: 0 <= k < i ==> OnlyNonceErrors(actions[k])
    ensures Climbs(states[i], states[0].local + Releases(actions[..i]), states[0].pool.FirstFree())
  {
    if i > 0 {
      PathClimbs(states, actions, i - 1);
      PathKeepsInv(states, actions, i - 1);
      assert StepAt(states, actions, i - 1);
      var s, a, t, done := states[i - 1], actions[i - 1], states[i], actions[..i - 1];
      StepClimbs(s, a, t, states[0].local + Releases(done), states[0].pool.FirstFree());
      assert actions[..i] == done + [a] && actions[..i][..i - 1] == done;
    }
  }

  /** Each session moves the local nonce on by one, so at most FirstFree - local sessions can go by in this way. After
      that many, the local nonce is the first free one, to which the node cannot answer with a nonce error. */
  lemma NonceErrorsReachFirstFree(states: seq<State>, actions: seq<Action>, i: nat)
    requires IsPath(states, actions) && i <= |actions|
    requires Inv(states[0]) && states[0].holder.None? && states[0].local > 0
    requires forall k :: 0 <= k < i ==> OnlyNonceErrors(actions[k])
    ensures states[i].pool.FirstFree() == states[0].pool.FirstFree()
    ensures states[i].holder.None? ==>
              && Releases(actions[..i]) <= states[0].pool.FirstFree() - states[0].local
              && states[i].local == states[0].local + Releases(actions[..i])
  {
    PathClimbs(states, actions, i);
    PathKeepsInv(states, actions, i);
  }

  /** At the first free nonce there are no nonce errors. */
  lemma NoNonceErrorAtFirstFree(p: Pool, r: Reply)
    requires p.Gapless() && p.MayReply(p.FirstFree(), r)
    ensures r == Accepted || r == OtherError
  {
  }

  // ---------- one bid for a block ----------

  /** The node's block numbers do not fall below one that the account has recorded. */
  ghost predicate BlocksGoOn(s: State, a: Action) {
    a.GetBlockNumber? && a.blockAnswer.Some? ==> a.blockAnswer.value >= s.lastBlock
  }

  ghost predicate BlockAhead(s: State) {
    s.holder.Some? ==>
      var h := s.holder.value;
      match h.pc
      case AtBids(block, _) => block > s.lastBlock
      case AtPostSendBid(block) => block > s.lastBlock
      case AtIncrement(_) => RecordsAhead(h.afterIncrement, s.lastBlock)
      case AtWrite(_) => RecordsAhead(h.afterIncrement, s.lastBlock)
      case AtRecordBlock(block) => block > s.lastBlock
      case _ => true
  }

  ghost predicate RecordsAhead(pc: Pc, lastBlock: nat) {
    match pc
    case AtUnlock => true
    case AtRecordBlock(block) => block > lastBlock
    case _ => false
  }

  lemma StepKeepsBlockAhead(s: State, a: Action, t: State)
    requires BlockAhead(s) && Step(s, a, t) && BlocksGoOn(s, a)
    ensures BlockAhead(t) && t.lastBlock >= s.lastBlock
    ensures a.RecordBlock? ==> t.lastBlock > s.lastBlock
  {
  }

  lemma {:induction false} StaysAhead(states: seq<State>, actions: seq<Action>, i: nat)
    requires IsPath(states, actions) && i <= |actions| && BlockAhead(states[0])
    requires forall k :: 0 <= k < |actions| ==> BlocksGoOn(states[k], actions[k])
    ensures BlockAhead(states[i])
  {
    if i > 0 {
      StaysAhead(states, actions, i - 1);
      assert StepAt(states, actions, i - 1);
      StepKeepsBlockAhead(states[i - 1], actions[i - 1], states[i]);
    }
  }

  lemma {:induction false} BlocksRise(states: seq<State>, actions: seq<Action>, i: nat, j: nat)
    requires IsPath(states, actions) && i <= j <= |actions| && BlockAhead(states[0])
    requires forall k :: 0 <= k < |actions| ==> BlocksGoOn(states[k], actions[k])
    ensures states[i].lastBlock <= states[j].lastBlock
  {
    if i < j {
      BlocksRise(states, actions, i, j - 1);
      StaysAhead(states, actions, j - 1);
      assert StepAt(states, actions, j - 1);
      StepKeepsBlockAhead(states[j - 1], actions[j - 1], states[j]);
    }
  }

  /** An account wins with a target of its own at most once for each block: the blocks it records rise strictly, and
      no bid goes out for a block up to the one recorded last. */
  lemma OneBidForABlock(states: seq<State>, actions: seq<Action>, i: nat, j: nat)
    requires IsRun(states, actions) && i < j < |actions|
    requires forall k :: 0 <= k < |actions| ==> BlocksGoOn(states[k], actions[k])
    ensures actions[i].RecordBlock? && actions[j].RecordBlock? ==>
              states[i].lastBlock < states[i + 1].lastBlock <= states[j].lastBlock < states[j + 1].lastBlock
    ensures actions[i].RecordBlock? && actions[j].SubmitBid? ==>
              states[j].holder.Some? && states[j].holder.value.pc.AtBids?
              && states[j].holder.value.pc.block > states[i + 1].lastBlock
  {
    StaysAhead(states, actions, i);
    StaysAhead(states, actions, j);
    assert StepAt(states, actions, i) && StepAt(states, actions, j);
    BlocksRise(states, actions, i + 1, j);
    StepKeepsBlockAhead(states[i], actions[i], states[i + 1]);
    StepKeepsBlockAhead(states[j], actions[j], states[j + 1]);
  }
}
