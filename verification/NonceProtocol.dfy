/** The transaction pool of a node, as far as one account's nonces are concerned. */
module TxPool {

  datatype Reply = Accepted | NonceTooLow | ReplaceUnderpriced | OtherError {
    /** The two errors upon which the senders step over the nonce they tried. */
    predicate NonceError() {
      NonceTooLow? || ReplaceUnderpriced?
    }
  }

  /** The nonce of the next transaction to be mined, and the nonces of the pooled ones. */
  datatype Pool = Pool(confirmed: nat, pending: set<nat>) {

    /** Which answers the node may give to a transaction with nonce n. */
    predicate MayReply(n: nat, r: Reply) {
      match r
      case Accepted => n >= confirmed
      case NonceTooLow => n < confirmed
      case ReplaceUnderpriced => n in pending
      case OtherError => true
    }

    function Deliver(n: nat, r: Reply): Pool {
      if r.Accepted? then this.(pending := pending + {n}) else this
    }

    predicate CanMine() {
      confirmed in pending
    }

    function Mine(): Pool {
      Pool(confirmed + 1, pending - {confirmed})
    }

    /** The nonces in the pool follow one another, starting from the confirmed nonce. */
    ghost predicate Gapless() {
      forall n :: n in pending <==> confirmed <= n < FirstFree()
    }

    /** The first nonce that is neither mined nor pooled, if the pool is gapless. */
    function FirstFree(): (n: nat)
      ensures n >= confirmed
    {
      confirmed + |pending|
    }
  }

  const FRESH := Pool(0, {})

  /** A transaction at or below the first free nonce leaves no gap; accepted, it is below it afterwards. */
  lemma DeliverGapless(p: Pool, n: nat, r: Reply)
    requires p.Gapless() && n <= p.FirstFree() && p.MayReply(n, r)
    ensures p.Deliver(n, r).Gapless()
    ensures p.Deliver(n, r).FirstFree() == if r.Accepted? && n == p.FirstFree() then n + 1 else p.FirstFree()
    ensures r.Accepted? || r.NonceError() ==> n < p.Deliver(n, r).FirstFree()
  {
    if r.Accepted? && n != p.FirstFree() {
      assert p.pending + {n} == p.pending;
    }
  }

  lemma MineGapless(p: Pool)
    requires p.Gapless() && p.CanMine()
    ensures p.Mine().Gapless() && p.Mine().FirstFree() == p.FirstFree()
  {
  }

  /** One transaction beyond the first free nonce is all it takes to open a gap. */
  lemma GapOpens(p: Pool, n: nat)
    requires p.Gapless() && n > p.FirstFree()
    ensures p.MayReply(n, Accepted) && !p.Deliver(n, Accepted).Gapless()
  {
    var q := p.Deliver(n, Accepted);
    assert p.FirstFree() !in q.pending && n in q.pending;
    assert q.FirstFree() == p.FirstFree() + 1;
  }
}

/** The nonce of one account under concurrent use. Senders hold the account's mutex; a goroutine in
    RunWithRetry resets the nonce to 0 at any time without it; GetNonce may be called without it as long as
    it does not overtake a sender; the node mines at any time. A read and the write that follows it in
    `nonce++` are separate steps, so that a reset may fall in between. */
module NonceProtocol {
  import opened TxPool
  import opened Wrappers

  datatype TargetType = VT | SC | RSC | GAA | GAS | RGAA | RGAS {
    /** The target transaction comes from a throw-away account, not from the bidder. */
    predicate FromTemporary() {
      RGAA? || RGAS?
    }

    /** The target's distance from the nonce that the sender has read. */
    function Offset(): nat {
      if GAS? then 1 else 0
    }

    /** The nonce of the target in the throw-away account. */
    function TemporaryNonce(): nat {
      if RGAS? then 1 else 0
    }
  }

  /** The ways of sending. `Plain` stands for every sender of a single transaction. */
  datatype Kind =
    | Plain
    | WithCancel
    | Gasless
    | GaslessApproveOnly
    | AuctionBid(target: TargetType)
    | AuctionRevertedBid(revertedTarget: TargetType)
  {
    predicate IsAuction() {
      AuctionBid? || AuctionRevertedBid?
    }

    function Target(): TargetType
      requires IsAuction()
    {
      if AuctionBid? then target else revertedTarget
    }

    /** The most that one call adds to the local nonce. */
    function MostIncrement(): nat {
      match this
      case Plain => 1
      case WithCancel => 1
      case Gasless => 2
      case GaslessApproveOnly => 0
      case _ => if Target().FromTemporary() then 0 else if Target().GAA? || Target().GAS? then 2 else 1
    }

    /** How many bids a sender submits for one target. */
    function Bids(): nat {
      if AuctionBid? then 2 else 1
    }
  }

  /** What the caller sees of one submitted bid: the node's verdict on the target transaction, or a
      failed call that carries no verdict. */
  datatype BidResult = Verdict(reply: Reply) | CallFailed

  datatype Pc =
    | AtFetch                             // about to read the local nonce
    | AtStoreFetched(fetched: nat)        // the node has answered NonceAt
    | AtSend                              // about to send the first transaction
    | AtSecondSend                        // about to send the cancel or the gasless swap
    | AtPreSendBid
    | AtBlockNumber
    | AtBids(block: nat, results: seq<BidResult>)
    | AtPostSendBid(postBlock: nat)
    | AtIncrement(amount: nat)            // about to read the nonce for `nonce += amount`
    | AtWrite(value: nat)                 // about to write it back
    | AtRecordBlock(recorded: nat)        // about to set lastBlocknumSentTx
    | AtUnlock

  /** A sender that holds the mutex. `nonce` is the value it works with once it has fetched it. */
  datatype Session = Session(kind: Kind, pc: Pc, nonce: nat, temporary: Pool, afterIncrement: Pc)

  datatype State = State(local: nat, lastBlock: nat, pool: Pool, holder: Option<Session>)

  datatype Action =
    | Acquire(kind: Kind)
    | FetchLocal
    | FetchRemote
    | FetchFails
    | StoreFetched
    | SendFirst(firstReply: Reply)
    | SuggestGasPriceFails
    | SendSecond(secondReply: Reply)
    | PreSendBid(preReply: Reply)
    | GetBlockNumber(blockAnswer: Option<nat>)
    | SubmitBid(result: BidResult)
    | BidVerdict(arrived: seq<BidResult>)
    | PostSendBid(postReply: Reply)
    | ReadForIncrement
    | WriteIncremented
    | RecordBlock
    | Release
    | ResetByRetry
    | FetchUnlocked(answer: nat)
    | MineBlock
    | MineTemporary
  {
    /** Steps that are not taken by the sender that holds the mutex. */
    predicate OutsideMutex() {
      Acquire? || ResetByRetry? || FetchUnlocked? || MineBlock?
    }

    /** The steps of GetNonce. */
    predicate Fetches() {
      FetchLocal? || FetchRemote? || FetchFails? || StoreFetched?
    }

    /** The steps from the read of the nonce, for its increment, on. */
    predicate Increments() {
      ReadForIncrement? || WriteIncremented? || RecordBlock?
    }
  }

  ghost predicate Init(s: State) {
    s.local == 0 && s.holder.None? && s.pool.Gapless()
  }

  function With(s: State, h: Session): State {
    s.(holder := Some(h))
  }

  /** Where a session goes once its nonce is known. */
  function AfterFetch(kind: Kind): Pc {
    if kind.IsAuction() then AtPreSendBid else AtSend
  }

  /** A nonce error makes a sender step over the nonce; any other error ends the call. */
  function AfterError(h: Session, r: Reply): Session {
    if r.NonceError() then h.(pc := AtIncrement(1), afterIncrement := AtUnlock) else h.(pc := AtUnlock)
  }

  /** The loop over the results of both bids: whether one succeeded, and how many of those before it count
      as nonce errors. As in the code, a failed call without a verdict counts again what the previous
      result said, because the error text is kept from one round to the next. */
  function ScanResults(results: seq<BidResult>, lastWasNonceError: bool, errors: nat): (bool, nat) {
    if results == [] then (false, errors)
    else
      match results[0]
      case Verdict(r) =>
        if r.Accepted? then (true, errors)
        else ScanResults(results[1..], r.NonceError(), if r.NonceError() then errors + 1 else errors)
      case CallFailed =>
        ScanResults(results[1..], lastWasNonceError, if lastWasNonceError then errors + 1 else errors)
  }

  /** The same loop as it is written: the last error text outlives the round that sets it. */
  method HandleResults(results: seq<BidResult>) returns (success: bool, errors: nat)
    ensures (success, errors) == ScanResults(results, false, 0)
  {
    success, errors := false, 0;
    var lastWasNonceError := false;
    for i := 0 to |results|
      invariant !success
      invariant ScanResults(results[i..], lastWasNonceError, errors) == ScanResults(results, false, 0)
    {
      assert results[i..][1..] == results[i + 1..];
      if results[i] == Verdict(Accepted) {
        return true, errors;
      }
      if results[i].Verdict? {
        lastWasNonceError := results[i].reply.NonceError();
      }
      if lastWasNonceError {
        errors := errors + 1;
      }
    }
  }

  /** The target's pool and its nonce there. */
  function TargetNonce(h: Session): nat
    requires h.kind.IsAuction()
  {
    if h.kind.Target().FromTemporary() then h.kind.Target().TemporaryNonce() else h.nonce + h.kind.Target().Offset()
  }

  function TargetPool(s: State, h: Session): Pool
    requires h.kind.IsAuction()
  {
    if h.kind.Target().FromTemporary() then h.temporary else s.pool
  }

  function DeliverTarget(s: State, h: Session, r: Reply): State
    requires h.kind.IsAuction()
  {
    if h.kind.Target().FromTemporary() then
      With(s, h.(temporary := h.temporary.Deliver(TargetNonce(h), r)))
    else
      With(s.(pool := s.pool.Deliver(TargetNonce(h), r)), h)
  }

  function SetPc(s: State, pc: Pc): State
    requires s.holder.Some?
  {
    With(s, s.holder.value.(pc := pc))
  }

  ghost predicate Step(s: State, a: Action, t: State) {
    if a.OutsideMutex() then FreeStep(s, a, t)
    else s.holder.Some? && SessionStep(s, s.holder.value, a, t)
  }

  /** The store that ends a GetNonce outside the mutex, as when a deployer is asked whether it has deployed
      already. Since the nonce was found to be 0 and the node was asked, blocks may have been mined and senders may
      have come and gone, so the local nonce need not be 0 any more. */
  ghost predicate UnlockedFetch(s: State, answer: nat, t: State) {
    answer <= s.pool.confirmed && t == s.(local := answer)
  }

  /** A sender is about to use the local nonce, and the node has mined the nonce that it works with: the answer
      counts that transaction, the sender will count it again, and there may not be room for both. */
  predicate Overtakes(s: State, answer: nat) {
    && s.holder.Some? && UsesLocal(s.holder.value.pc)
    && !HasRoom(s.holder.value, answer, s.pool.FirstFree())
  }

  /** Whatever the session may still add to this local nonce leaves it at or below the first free one. */
  predicate HasRoom(h: Session, local: nat, free: nat) {
    if h.pc.AtIncrement? then local + h.pc.amount <= free
    else local <= h.nonce || local + h.kind.MostIncrement() <= free
  }

  /** The sender has fetched its nonce, and may still read the local one for its increment. */
  predicate UsesLocal(pc: Pc) {
    HasNonce(pc) && !pc.AtWrite?
  }

  predicate HasNonce(pc: Pc) {
    !pc.AtFetch? && !pc.AtStoreFetched? && !pc.AtRecordBlock? && !pc.AtUnlock?
  }

  /** A sender takes the mutex, a goroutine in RunWithRetry resets the nonce, another one fetches it, a block is
      mined. */
  ghost predicate FreeStep(s: State, a: Action, t: State) {
    match a
    case Acquire(kind) => s.holder.None? && t == With(s, Session(kind, AtFetch, 0, FRESH, AtUnlock))
    case ResetByRetry => t == s.(local := 0)
    case FetchUnlocked(answer) => UnlockedFetch(s, answer, t) && !Overtakes(s, answer)
    case MineBlock => s.pool.CanMine() && t == s.(pool := s.pool.Mine())
    case _ => false
  }

  /** The steps of the sender that holds the mutex. */
  ghost predicate SessionStep(s: State, h: Session, a: Action, t: State)
    requires s.holder == Some(h)
  {
    match a
    case SendFirst(r) => h.pc.AtSend? && SendFirstStep(s, h, r, t)
    case SendSecond(r) => h.pc.AtSecondSend? && SendSecondStep(s, h, r, t)
    case PreSendBid(r) => h.pc.AtPreSendBid? && h.kind.IsAuction() && PreSendBidStep(s, h, r, t)
    case SubmitBid(result) => h.pc.AtBids? && h.kind.IsAuction() && SubmitBidStep(s, h, result, t)
    case BidVerdict(arrived) => h.pc.AtBids? && h.kind.IsAuction() && BidVerdictStep(s, h, arrived, t)
    case PostSendBid(r) => h.pc.AtPostSendBid? && h.kind.IsAuction() && PostSendBidStep(s, h, r, t)
    case _ => LocalStep(s, h, a, t)
  }

  /** The steps that send nothing: GetNonce, the increment as a read and a write, the failures of other
      calls, and the release of the mutex. */
  ghost predicate LocalStep(s: State, h: Session, a: Action, t: State)
    requires s.holder == Some(h)
  {
    match a
    case FetchLocal =>
      h.pc.AtFetch? && s.local != 0 && t == With(s, h.(nonce := s.local, pc := AfterFetch(h.kind)))
    case FetchRemote =>
      h.pc.AtFetch? && s.local == 0 && t == SetPc(s, AtStoreFetched(s.pool.confirmed))
    case FetchFails =>
      h.pc.AtFetch? && s.local == 0 && t == With(s, h.(nonce := 0, pc := AfterFetch(h.kind)))
    case StoreFetched =>
      && h.pc.AtStoreFetched?
      && t == With(s.(local := h.pc.fetched), h.(nonce := h.pc.fetched, pc := AfterFetch(h.kind)))
    case SuggestGasPriceFails =>
      && ((h.pc.AtSend? && (h.kind.Gasless? || h.kind.GaslessApproveOnly?)) || h.pc.AtPreSendBid?)
      && t == SetPc(s, AtUnlock)
    case GetBlockNumber(answer) =>
      && h.pc.AtBlockNumber?
      && t == SetPc(s, if answer.None? || answer.value == s.lastBlock then AtUnlock else AtBids(answer.value, []))
    case ReadForIncrement =>
      h.pc.AtIncrement? && t == SetPc(s, AtWrite(s.local + h.pc.amount))
    case WriteIncremented =>
      h.pc.AtWrite? && t == With(s.(local := h.pc.value), h.(pc := h.afterIncrement))
    case RecordBlock =>
      h.pc.AtRecordBlock? && t == With(s.(lastBlock := h.pc.recorded), h.(pc := AtUnlock))
    case MineTemporary =>
      h.temporary.CanMine() && t == With(s, h.(temporary := h.temporary.Mine()))
    case Release =>
      h.pc.AtUnlock? && t == s.(holder := None)
    case _ => false
  }

  /** The transaction that carries the fetched nonce. A rejected approve-only changes no nonce. */
  ghost predicate SendFirstStep(s: State, h: Session, r: Reply, t: State) {
    && s.pool.MayReply(h.nonce, r)
    && t == With(s.(pool := s.pool.Deliver(h.nonce, r)),
                 if h.kind.GaslessApproveOnly? then h.(pc := AtUnlock)
                 else if !r.Accepted? then AfterError(h, r)
                 else if h.kind.WithCancel? || h.kind.Gasless? then h.(pc := AtSecondSend)
                 else h.(pc := AtIncrement(1), afterIncrement := AtUnlock))
  }

  /** The cancel carries the same nonce again, the gasless swap the next one. */
  ghost predicate SendSecondStep(s: State, h: Session, r: Reply, t: State) {
    && s.pool.MayReply(SecondNonce(h), r)
    && t == With(s.(pool := s.pool.Deliver(SecondNonce(h), r)),
                 if !r.Accepted? then AfterError(h, r)
                 else h.(pc := AtIncrement(if h.kind.Gasless? then 2 else 1), afterIncrement := AtUnlock))
  }

  function SecondNonce(h: Session): nat {
    if h.kind.Gasless? then h.nonce + 1 else h.nonce
  }

  /** GAS and rGAS send the approve ahead of the bid, the other targets send nothing. */
  ghost predicate PreSendBidStep(s: State, h: Session, r: Reply, t: State)
    requires s.holder == Some(h) && h.kind.IsAuction()
  {
    var target := h.kind.Target();
    if target.GAS? then
      && s.pool.MayReply(h.nonce, r)
      && t == With(s.(pool := s.pool.Deliver(h.nonce, r)),
                   if r.Accepted? then h.(pc := AtBlockNumber) else AfterError(h, r))
    else if target.RGAS? then
      && h.temporary.MayReply(0, r)
      && t == With(s, h.(temporary := h.temporary.Deliver(0, r),
                         pc := if r.Accepted? then AtBlockNumber else AtUnlock))
    else
      t == SetPc(s, AtBlockNumber)
  }

  ghost predicate SubmitBidStep(s: State, h: Session, result: BidResult, t: State)
    requires h.pc.AtBids? && h.kind.IsAuction()
  {
    && |h.pc.results| < h.kind.Bids()
    && (result.Verdict? ==> TargetPool(s, h).MayReply(TargetNonce(h), result.reply))
    && t == DeliverTarget(s, h.(pc := h.pc.(results := h.pc.results + [result])),
                          if result.Verdict? then result.reply else OtherError)
  }

  /** The answers may arrive in another order than that in which the node has handled the bids. */
  ghost predicate BidVerdictStep(s: State, h: Session, arrived: seq<BidResult>, t: State)
    requires h.pc.AtBids? && h.kind.IsAuction()
  {
    && |h.pc.results| == h.kind.Bids()
    && multiset(arrived) == multiset(h.pc.results)
    && var (success, errors) := ScanResults(arrived, false, 0);
       t == With(s, if success then h.(pc := AtPostSendBid(h.pc.block))
                    else if errors == |arrived| then h.(pc := AtIncrement(1), afterIncrement := AtUnlock)
                    else h.(pc := AtUnlock))
  }

  /** GAA and rGAA follow up with the swap. Only targets of the bidder's own move its nonce. */
  ghost predicate PostSendBidStep(s: State, h: Session, r: Reply, t: State)
    requires s.holder == Some(h) && h.pc.AtPostSendBid? && h.kind.IsAuction()
  {
    var target, block := h.kind.Target(), h.pc.postBlock;
    if target.GAA? then
      && s.pool.MayReply(h.nonce + 1, r)
      && t == With(s.(pool := s.pool.Deliver(h.nonce + 1, r)),
                   if r.Accepted? then h.(pc := AtIncrement(2), afterIncrement := AtRecordBlock(block))
                   else AfterError(h, r))
    else if target.GAS? then
      t == With(s, h.(pc := AtIncrement(2), afterIncrement := AtRecordBlock(block)))
    else if target.RGAA? then
      && h.temporary.MayReply(1, r)
      && t == With(s, h.(temporary := h.temporary.Deliver(1, r), pc := AtUnlock))
    else if target.RGAS? then
      t == SetPc(s, AtUnlock)
    else
      t == With(s, h.(pc := AtIncrement(1), afterIncrement := AtRecordBlock(block)))
  }

  // ---------- safety ----------

  /** No gap, and the local nonce does not run ahead of the first free one. */
  ghost predicate NoGap(s: State) {
    s.pool.Gapless() && s.local <= s.pool.FirstFree()
  }

  ghost predicate TemporaryGapless(s: State) {
    s.holder.Some? ==> s.holder.value.temporary.Gapless()
  }

  ghost predicate Inv(s: State) {
    NoGap(s) && (s.holder.Some? ==> SessionInv(s, s.holder.value))
  }

  /** A session knows a nonce that is at most the first free one, and whatever it is about to add to the
      local nonce has been earned by a transaction that the node has, or has had. What happens behind its back
      leaves room for that. */
  ghost predicate SessionInv(s: State, h: Session) {
    var free := s.pool.FirstFree();
    && (h.pc.AtStoreFetched? ==> h.pc.fetched <= free)
    && (UsesLocal(h.pc) ==> HasRoom(h, s.local, free))
    && (HasNonce(h.pc) ==> h.nonce <= free)
    && (h.pc.AtSecondSend? ==> h.nonce < free)
    && (h.pc.AtIncrement? ==> h.nonce + h.pc.amount <= free && h.pc.amount <= h.kind.MostIncrement())
    && (h.pc.AtWrite? ==> h.pc.value <= free)
    && (h.afterIncrement.AtUnlock? || h.afterIncrement.AtRecordBlock?)
    && OnItsPath(h)
    && h.temporary.Gapless()
    && (h.kind.IsAuction() ==>
          if h.kind.Target().FromTemporary() then TemporaryInv(h) else OwnTargetInv(free, h))
  }

  /** Only auction senders bid, only the others send right away, and only two of those send a second time. */
  ghost predicate OnItsPath(h: Session) {
    && (InAuction(h.pc) ==> h.kind.IsAuction())
    && (h.pc.AtSend? || h.pc.AtSecondSend? ==> !h.kind.IsAuction())
    && (h.pc.AtSecondSend? ==> h.kind.WithCancel? || h.kind.Gasless?)
  }

  ghost predicate InAuction(pc: Pc) {
    pc.AtPreSendBid? || pc.AtBlockNumber? || pc.AtBids? || pc.AtPostSendBid?
  }

  /** The target's nonce is at most the first free one when the bids go out, and below it once a verdict is in. */
  ghost predicate OwnTargetInv(free: nat, h: Session)
    requires h.kind.IsAuction()
  {
    && (h.pc.AtBlockNumber? || h.pc.AtBids? ==> TargetNonce(h) <= free)
    && (h.pc.AtBids? && Decided(h.pc.results) ==> TargetNonce(h) < free)
    && (h.pc.AtPostSendBid? ==> TargetNonce(h) < free)
  }

  /** Some verdict shows that the node has, or has had, the target transaction. */
  ghost predicate Decided(results: seq<BidResult>) {
    exists r :: r in results && r.Verdict? && (r.reply.Accepted? || r.reply.NonceError())
  }

  ghost predicate Successful(results: seq<BidResult>) {
    Verdict(Accepted) in results
  }

  /** The throw-away account is new: until one of its bids is accepted, the node cannot have a reason to
      call its target's nonce too low or a replacement. */
  ghost predicate TemporaryInv(h: Session)
    requires h.kind.IsAuction()
  {
    && (h.pc.AtFetch? || h.pc.AtStoreFetched? || h.pc.AtPreSendBid? ==> h.temporary == FRESH)
    && (h.pc.AtBlockNumber? ==> TargetUntried(h))
    && (h.pc.AtBids? ==> Successful(h.pc.results) || (TargetUntried(h) && !Decided(h.pc.results)))
    && (h.pc.AtBlockNumber? || h.pc.AtBids? ==> TargetNonce(h) <= h.temporary.FirstFree())
    && ((h.pc.AtBids? && Successful(h.pc.results)) || h.pc.AtPostSendBid? ==> TargetNonce(h) < h.temporary.FirstFree())
  }

  ghost predicate TargetUntried(h: Session)
    requires h.kind.IsAuction()
  {
    var n := h.kind.Target().TemporaryNonce();
    h.temporary.confirmed <= n && n !in h.temporary.pending
  }

  /** The scan calls a bid successful, or counts an error, only on the strength of a verdict it has seen. */
  lemma {:induction false} ScanResultsSound(results: seq<BidResult>, lastWasNonceError: bool, errors: nat)
    ensures var (success, counted) := ScanResults(results, lastWasNonceError, errors);
            && (success <==> Successful(results))
            && (counted > errors && !lastWasNonceError ==> Decided(results))
  {
    if results != [] {
      var first, rest := results[0], results[1..];
      assert results == [first] + rest;
      match first
      case Verdict(r) =>
        if !r.Accepted? {
          ScanResultsSound(rest, r.NonceError(), if r.NonceError() then errors + 1 else errors);
          assert r.NonceError() ==> Decided(results);
          assert Decided(rest) ==> Decided(results);
        }
      case CallFailed =>
        ScanResultsSound(rest, lastWasNonceError, if lastWasNonceError then errors + 1 else errors);
        assert Decided(rest) ==> Decided(results);
    }
  }

  /** What makes the bidder step over its nonce: no bid is successful, and the scan counts them all. */
  ghost predicate StepsOver(results: seq<BidResult>) {
    var (success, counted) := ScanResults(results, false, 0);
    !success && counted == |results|
  }

  /** Each result is a nonce error, or a failed call behind one. */
  ghost predicate NonceErrorsOrFailures(results: seq<BidResult>, lastWasNonceError: bool) {
    && (forall i :: 0 <= i < |results| ==> results[i].CallFailed? || results[i].reply.NonceError())
    && (results != [] && results[0].CallFailed? ==> lastWasNonceError)
  }

  lemma {:induction false} ScanCountsAll(results: seq<BidResult>, lastWasNonceError: bool, errors: nat)
    ensures var (success, counted) := ScanResults(results, lastWasNonceError, errors);
            && errors <= counted <= errors + |results|
            && (!success && counted == errors + |results| <==> NonceErrorsOrFailures(results, lastWasNonceError))
  {
    if results != [] {
      var first, rest := results[0], results[1..];
      assert results == [first] + rest;
      match first
      case Verdict(r) =>
        if !r.Accepted? {
          ScanCountsAll(rest, r.NonceError(), if r.NonceError() then errors + 1 else errors);
        }
      case CallFailed =>
        ScanCountsAll(rest, lastWasNonceError, if lastWasNonceError then errors + 1 else errors);
    }
  }

  /** The bidder steps over its nonce exactly when every result is a nonce error or a failed call, and the first one
      is no failed call. So it does without a nonce error from every bid exactly when there is a failed call among
      such results, against the code's own comment. */
  lemma StepsOverExactly(results: seq<BidResult>)
    ensures StepsOver(results) <==> NonceErrorsOrFailures(results, false)
    ensures StepsOver(results) && (exists r :: r in results && (r.CallFailed? || !r.reply.NonceError()))
            <==> NonceErrorsOrFailures(results, false) && CallFailed in results
  {
    ScanCountsAll(results, false, 0);
  }

  /** The same two results, in one order and in the other. */
  lemma FailedCallCountedAsNonceError()
    ensures StepsOver([Verdict(NonceTooLow), CallFailed])
    ensures !StepsOver([CallFailed, Verdict(NonceTooLow)])
  {
    StepsOverExactly([Verdict(NonceTooLow), CallFailed]);
    StepsOverExactly([CallFailed, Verdict(NonceTooLow)]);
  }

  lemma StepKeepsInv(s: State, a: Action, t: State)
    requires Inv(s) && Step(s, a, t)
    ensures Inv(t)
  {
    if a.OutsideMutex() {
      FreeStepKeepsInv(s, a, t);
    } else {
      SessionStepKeepsInv(s, s.holder.value, a, t);
    }
  }

  lemma FreeStepKeepsInv(s: State, a: Action, t: State)
    requires Inv(s) && FreeStep(s, a, t)
    ensures Inv(t)
  {
    if a.MineBlock? {
      MineGapless(s.pool);
    }
  }

  lemma SessionStepKeepsInv(s: State, h: Session, a: Action, t: State)
    requires Inv(s) && s.holder == Some(h) && SessionStep(s, h, a, t)
    ensures Inv(t)
  {
    match a
    case SendFirst(r) => SendFirstKeepsInv(s, h, r, t);
    case SendSecond(r) => SendSecondKeepsInv(s, h, r, t);
    case PreSendBid(r) => PreSendBidKeepsInv(s, h, r, t);
    case SubmitBid(result) => SubmitBidKeepsInv(s, h, result, t);
    case BidVerdict(arrived) => BidVerdictKeepsInv(s, h, arrived, t);
    case PostSendBid(r) => PostSendBidKeepsInv(s, h, r, t);
    case _ => LocalStepKeepsInv(s, h, a, t);
  }

  lemma LocalStepKeepsInv(s: State, h: Session, a: Action, t: State)
    requires Inv(s) && s.holder == Some(h) && LocalStep(s, h, a, t)
    ensures Inv(t)
  {
    if a.Fetches() {
      FetchKeepsInv(s, h, a, t);
    } else if a.Increments() {
      IncrementKeepsInv(s, h, a, t);
    } else {
      EarlyReturnKeepsInv(s, h, a, t);
    }
  }

  lemma FetchKeepsInv(s: State, h: Session, a: Action, t: State)
    requires Inv(s) && s.holder == Some(h) && LocalStep(s, h, a, t) && a.Fetches()
    ensures Inv(t)
  {
  }

  lemma IncrementKeepsInv(s: State, h: Session, a: Action, t: State)
    requires Inv(s) && s.holder == Some(h) && LocalStep(s, h, a, t) && a.Increments()
    ensures Inv(t)
  {
  }

  lemma EarlyReturnKeepsInv(s: State, h: Session, a: Action, t: State)
    requires Inv(s) && s.holder == Some(h) && LocalStep(s, h, a, t) && !a.Fetches() && !a.Increments()
    ensures Inv(t)
  {
    if a.MineTemporary? {
      MineGapless(h.temporary);
    }
  }

  lemma SendFirstKeepsInv(s: State, h: Session, r: Reply, t: State)
    requires Inv(s) && s.holder == Some(h) && h.pc.AtSend? && SendFirstStep(s, h, r, t)
    ensures Inv(t)
  {
    DeliverGapless(s.pool, h.nonce, r);
  }

  lemma SendSecondKeepsInv(s: State, h: Session, r: Reply, t: State)
    requires Inv(s) && s.holder == Some(h) && h.pc.AtSecondSend? && SendSecondStep(s, h, r, t)
    ensures Inv(t)
  {
    DeliverGapless(s.pool, SecondNonce(h), r);
  }

  lemma PreSendBidKeepsInv(s: State, h: Session, r: Reply, t: State)
    requires Inv(s) && s.holder == Some(h)
    requires h.pc.AtPreSendBid? && h.kind.IsAuction() && PreSendBidStep(s, h, r, t)
    ensures Inv(t)
  {
    if h.kind.Target().GAS? {
      DeliverGapless(s.pool, h.nonce, r);
    }
  }

  lemma PostSendBidKeepsInv(s: State, h: Session, r: Reply, t: State)
    requires Inv(s) && s.holder == Some(h)
    requires h.pc.AtPostSendBid? && h.kind.IsAuction() && PostSendBidStep(s, h, r, t)
    ensures Inv(t)
  {
    if h.kind.Target().GAA? {
      SwapAfterBidKeepsInv(s, h, r, t);
    } else if h.kind.Target().FromTemporary() {
      TemporarySwapKeepsInv(s, h, r, t);
    } else {
      assert TargetNonce(h) == h.nonce + h.kind.Target().Offset() < s.pool.FirstFree();
    }
  }

  /** The swap that follows an rGAA bid is the throw-away account's next transaction. */
  lemma TemporarySwapKeepsInv(s: State, h: Session, r: Reply, t: State)
    requires Inv(s) && s.holder == Some(h)
    requires h.pc.AtPostSendBid? && h.kind.IsAuction() && PostSendBidStep(s, h, r, t)
    requires h.kind.Target().FromTemporary()
    ensures Inv(t)
  {
    if h.kind.Target().RGAA? {
      DeliverGapless(h.temporary, 1, r);
    }
    assert t.pool == s.pool && t.local == s.local;
  }

  lemma SwapAfterBidKeepsInv(s: State, h: Session, r: Reply, t: State)
    requires Inv(s) && s.holder == Some(h)
    requires h.pc.AtPostSendBid? && h.kind.IsAuction() && PostSendBidStep(s, h, r, t)
    requires h.kind.Target().GAA?
    ensures Inv(t)
  {
    DeliverGapless(s.pool, h.nonce + 1, r);
  }

  lemma SubmitBidKeepsInv(s: State, h: Session, result: BidResult, t: State)
    requires Inv(s) && s.holder == Some(h)
    requires h.pc.AtBids? && h.kind.IsAuction() && SubmitBidStep(s, h, result, t)
    ensures Inv(t)
  {
    if h.kind.Target().FromTemporary() {
      TemporaryBidKeepsInv(h, result, t.holder.value);
      assert t.pool == s.pool && t.local == s.local;
    } else {
      OwnBidKeepsInv(s, h, result, t);
    }
  }

  lemma OwnBidKeepsInv(s: State, h: Session, result: BidResult, t: State)
    requires Inv(s) && s.holder == Some(h)
    requires h.pc.AtBids? && h.kind.IsAuction() && SubmitBidStep(s, h, result, t) && !h.kind.Target().FromTemporary()
    ensures Inv(t)
  {
    OneMoreResult(h.pc.results, result);
    if result.Verdict? {
      DeliverGapless(s.pool, TargetNonce(h), result.reply);
    }
  }

  lemma OneMoreResult(results: seq<BidResult>, result: BidResult)
    ensures Decided(results + [result]) <==> Decided(results) || Decided([result])
    ensures Successful(results + [result]) <==> Successful(results) || result == Verdict(Accepted)
    ensures Decided([result]) <==> result.Verdict? && (result.reply.Accepted? || result.reply.NonceError())
  {
    assert result in [result] && result in results + [result];
  }

  lemma TemporaryBidKeepsInv(h: Session, result: BidResult, h': Session)
    requires h.pc.AtBids? && h.kind.IsAuction() && h.kind.Target().FromTemporary()
    requires TemporaryInv(h) && h.temporary.Gapless()
    requires result.Verdict? ==> h.temporary.MayReply(TargetNonce(h), result.reply)
    requires h' == h.(pc := h.pc.(results := h.pc.results + [result]),
                      temporary := if result.Verdict? then h.temporary.Deliver(TargetNonce(h), result.reply)
                                   else h.temporary)
    ensures TemporaryInv(h') && h'.temporary.Gapless()
  {
    OneMoreResult(h.pc.results, result);
    if result.Verdict? {
      DeliverGapless(h.temporary, TargetNonce(h), result.reply);
    }
  }

  lemma BidVerdictKeepsInv(s: State, h: Session, arrived: seq<BidResult>, t: State)
    requires Inv(s) && s.holder == Some(h)
    requires h.pc.AtBids? && h.kind.IsAuction() && BidVerdictStep(s, h, arrived, t)
    ensures Inv(t)
  {
    var results := h.pc.results;
    forall r ensures r in arrived <==> r in results {
      assert r in arrived <==> r in multiset(arrived);
      assert r in results <==> r in multiset(results);
    }
    assert |arrived| == |multiset(arrived)| == |results|;
    ScanResultsSound(arrived, false, 0);
    assert Decided(arrived) ==> Decided(results);
  }

  /** A run: any number of senders one after the other, resets and mined blocks at any point. */
  ghost predicate IsRun(states: seq<State>, actions: seq<Action>) {
    IsPath(states, actions) && Init(states[0])
  }

  ghost predicate IsPath(states: seq<State>, actions: seq<Action>) {
    && |states| == |actions| + 1
    && forall i :: 0 <= i < |actions| ==> StepAt(states, actions, i)
  }

  ghost predicate StepAt(states: seq<State>, actions: seq<Action>, i: nat)
    requires |states| == |actions| + 1 && i < |actions|
  {
    Step(states[i], actions[i], states[i + 1])
  }

  lemma {:induction false} PathKeepsInv(states: seq<State>, actions: seq<Action>, i: nat)
    requires IsPath(states, actions) && Inv(states[0]) && i < |states|
    ensures Inv(states[i])
  {
    if i > 0 {
      PathKeepsInv(states, actions, i - 1);
      assert StepAt(states, actions, i - 1);
      StepKeepsInv(states[i - 1], actions[i - 1], states[i]);
    }
  }

  lemma RunKeepsInv(states: seq<State>, actions: seq<Action>, i: nat)
    requires IsRun(states, actions) && i < |states|
    ensures Inv(states[i])
  {
    PathKeepsInv(states, actions, i);
  }

  /** No sender path leaves a nonce gap, in any interleaving: the pooled nonces always follow the
      confirmed one without a hole, and the local nonce never exceeds the first free one. Nor does a bid leave a
      gap in its throw-away account. */
  lemma NoGapInAnyRun(states: seq<State>, actions: seq<Action>)
    requires IsRun(states, actions)
    ensures forall i :: 0 <= i < |states| ==> NoGap(states[i]) && TemporaryGapless(states[i])
  {
    forall i | 0 <= i < |states| ensures NoGap(states[i]) && TemporaryGapless(states[i]) {
      RunKeepsInv(states, actions, i);
    }
  }

  // ---------- keeping in step ----------

  /** Nothing goes wrong in this step: no reset, no failed call, every transaction and bid is accepted, and the
      account has not bid for the block yet. A fetch stores the confirmed nonce. An approve without its swap does
      not count as a success. */
  ghost predicate Succeeds(s: State, a: Action) {
    match a
    case Acquire(kind) => !kind.GaslessApproveOnly?
    case ResetByRetry => false
    case FetchUnlocked(answer) => s.local == 0 && answer == s.pool.confirmed
    case FetchFails => false
    case SuggestGasPriceFails => false
    case SendFirst(r) => r.Accepted?
    case SendSecond(r) => r.Accepted?
    case PreSendBid(r) => r.Accepted?
    case GetBlockNumber(answer) => answer.Some? && answer.value != s.lastBlock
    case SubmitBid(result) => result == Verdict(Accepted)
    case PostSendBid(r) => r.Accepted?
    case _ => true
  }

  /** How many nonces the session has used up already, by how far it has come. */
  function Used(h: Session): nat {
    match h.pc
    case AtSecondSend => 1
    case AtBlockNumber => if h.kind.IsAuction() then h.kind.Target().Offset() else 0
    case AtBids(_, results) =>
      if !h.kind.IsAuction() || h.kind.Target().FromTemporary() then 0
      else h.kind.Target().Offset() + if results == [] then 0 else 1
    case AtPostSendBid(_) =>
      if !h.kind.IsAuction() || h.kind.Target().FromTemporary() then 0 else h.kind.Target().Offset() + 1
    case AtIncrement(amount) => amount
    case _ => 0
  }

  /** The throw-away account uses up two nonces: of an approve, ahead of the bid or in it, and of a swap, in the bid or
      behind it. */
  ghost predicate TemporaryInStep(h: Session)
    requires h.kind.IsAuction()
  {
    var ahead, free := h.kind.Target().TemporaryNonce(), h.temporary.FirstFree();
    && h.temporary.Gapless()
    && match h.pc
       case AtFetch => free == 0
       case AtStoreFetched(_) => free == 0
       case AtPreSendBid => free == 0
       case AtBlockNumber => free == ahead
       case AtBids(_, results) => free == ahead + if results == [] then 0 else 1
       case AtPostSendBid(_) => free == ahead + 1
       case AtUnlock => free == 2
       case _ => false
  }

  /** The local nonce is the first free one, or it has not been fetched yet and the first free one is what a fetch
      will find. */
  ghost predicate Settled(s: State) {
    s.local == s.pool.FirstFree() || (s.local == 0 && s.pool.pending == {})
  }

  /** The first free nonce is the session's own plus what it has used up; once the session has written its
      increment, the local nonce is the first free one again. */
  ghost predicate InStep(s: State) {
    var free := s.pool.FirstFree();
    && s.pool.Gapless()
    && match s.holder
       case None => Settled(s)
       case Some(h) =>
         && !h.kind.GaslessApproveOnly?
         && OnItsPath(h)
         && (h.kind.IsAuction() && h.kind.Target().FromTemporary() ==> TemporaryInStep(h))
         && (h.pc.AtBids? ==> forall r :: r in h.pc.results ==> r == Verdict(Accepted))
         && (h.pc.AtFetch? ==> Settled(s))
         && (h.pc.AtStoreFetched? ==> h.pc.fetched == free && s.pool.pending == {})
         && (h.pc.AtRecordBlock? || h.pc.AtUnlock? ==> s.local == free)
         && (h.pc.AtWrite? ==> h.pc.value == free)
         && (UsesLocal(h.pc) ==> s.local == h.nonce && free == h.nonce + Used(h))
         && (h.afterIncrement.AtUnlock? || h.afterIncrement.AtRecordBlock?)
  }

  lemma SuccessKeepsInStep(s: State, a: Action, t: State)
    requires InStep(s) && Step(s, a, t) && Succeeds(s, a)
    ensures InStep(t)
  {
    if a.OutsideMutex() {
      if a.MineBlock? {
        MineGapless(s.pool);
      }
    } else {
      SessionKeepsInStep(s, s.holder.value, a, t);
    }
  }

  lemma SessionKeepsInStep(s: State, h: Session, a: Action, t: State)
    requires InStep(s) && s.holder == Some(h) && SessionStep(s, h, a, t) && Succeeds(s, a)
    ensures InStep(t)
  {
    match a
    case SendFirst(r) => SendFirstKeepsInStep(s, h, r, t);
    case SendSecond(r) => SendSecondKeepsInStep(s, h, r, t);
    case PreSendBid(r) => PreSendBidKeepsInStep(s, h, r, t);
    case SubmitBid(result) => SubmitBidKeepsInStep(s, h, t);
    case BidVerdict(arrived) => BidVerdictKeepsInStep(s, h, arrived, t);
    case PostSendBid(r) => PostSendBidKeepsInStep(s, h, r, t);
    case _ => LocalKeepsInStep(s, h, a, t);
  }

  lemma LocalKeepsInStep(s: State, h: Session, a: Action, t: State)
    requires InStep(s) && s.holder == Some(h) && LocalStep(s, h, a, t) && Succeeds(s, a)
    ensures InStep(t)
  {
    if a.Fetches() {
      FetchKeepsInStep(s, h, a, t);
    } else if a.Increments() {
      IncrementKeepsInStep(s, h, a, t);
    } else {
      OtherKeepsInStep(s, h, a, t);
    }
  }

  lemma FetchKeepsInStep(s: State, h: Session, a: Action, t: State)
    requires InStep(s) && s.holder == Some(h) && LocalStep(s, h, a, t) && Succeeds(s, a) && a.Fetches()
    ensures InStep(t)
  {
  }

  lemma IncrementKeepsInStep(s: State, h: Session, a: Action, t: State)
    requires InStep(s) && s.holder == Some(h) && LocalStep(s, h, a, t) && Succeeds(s, a) && a.Increments()
    ensures InStep(t)
  {
  }

  lemma OtherKeepsInStep(s: State, h: Session, a: Action, t: State)
    requires InStep(s) && s.holder == Some(h) && LocalStep(s, h, a, t) && Succeeds(s, a)
    requires !a.Fetches() && !a.Increments()
    ensures InStep(t)
  {
    if a.MineTemporary? && h.kind.IsAuction() && h.kind.Target().FromTemporary() {
      MineGapless(h.temporary);
    }
  }

  lemma SendFirstKeepsInStep(s: State, h: Session, r: Reply, t: State)
    requires InStep(s) && s.holder == Some(h) && r.Accepted? && h.pc.AtSend? && SendFirstStep(s, h, r, t)
    ensures InStep(t)
  {
    DeliverGapless(s.pool, h.nonce, r);
  }

  lemma SendSecondKeepsInStep(s: State, h: Session, r: Reply, t: State)
    requires InStep(s) && s.holder == Some(h) && r.Accepted? && h.pc.AtSecondSend? && SendSecondStep(s, h, r, t)
    ensures InStep(t)
  {
    DeliverGapless(s.pool, SecondNonce(h), r);
  }

  lemma PreSendBidKeepsInStep(s: State, h: Session, r: Reply, t: State)
    requires InStep(s) && s.holder == Some(h) && r.Accepted?
    requires h.pc.AtPreSendBid? && h.kind.IsAuction() && PreSendBidStep(s, h, r, t)
    ensures InStep(t)
  {
    if h.kind.Target().GAS? {
      DeliverGapless(s.pool, h.nonce, r);
    }
  }

  lemma SubmitBidKeepsInStep(s: State, h: Session, t: State)
    requires InStep(s) && s.holder == Some(h)
    requires h.pc.AtBids? && h.kind.IsAuction() && SubmitBidStep(s, h, Verdict(Accepted), t)
    ensures InStep(t)
  {
    if h.kind.Target().FromTemporary() {
      TemporaryBidKeepsInStep(s, h, t);
    } else {
      OwnBidKeepsInStep(s, h, t);
    }
  }

  lemma TemporaryBidKeepsInStep(s: State, h: Session, t: State)
    requires InStep(s) && s.holder == Some(h)
    requires h.pc.AtBids? && h.kind.IsAuction() && SubmitBidStep(s, h, Verdict(Accepted), t)
    requires h.kind.Target().FromTemporary()
    ensures InStep(t)
  {
    DeliverGapless(h.temporary, TargetNonce(h), Accepted);
    assert t.pool == s.pool && t.local == s.local;
  }

  lemma OwnBidKeepsInStep(s: State, h: Session, t: State)
    requires InStep(s) && s.holder == Some(h)
    requires h.pc.AtBids? && h.kind.IsAuction() && SubmitBidStep(s, h, Verdict(Accepted), t)
    requires !h.kind.Target().FromTemporary()
    ensures InStep(t)
  {
    DeliverGapless(s.pool, TargetNonce(h), Accepted);
  }

  lemma BidVerdictKeepsInStep(s: State, h: Session, arrived: seq<BidResult>, t: State)
    requires InStep(s) && s.holder == Some(h)
    requires h.pc.AtBids? && h.kind.IsAuction() && BidVerdictStep(s, h, arrived, t)
    ensures InStep(t)
  {
    assert |arrived| == |multiset(arrived)| == |h.pc.results|;
    assert arrived[0] in multiset(arrived);
    assert arrived[0] in h.pc.results;
  }

  lemma PostSendBidKeepsInStep(s: State, h: Session, r: Reply, t: State)
    requires InStep(s) && s.holder == Some(h) && r.Accepted?
    requires h.pc.AtPostSendBid? && h.kind.IsAuction() && PostSendBidStep(s, h, r, t)
    ensures InStep(t)
  {
    var target := h.kind.Target();
    if target.GAA? {
      SwapAfterBidKeepsInStep(s, h, r, t);
    } else {
      assert t.pool == s.pool && t.local == s.local;
    }
  }

  lemma SwapAfterBidKeepsInStep(s: State, h: Session, r: Reply, t: State)
    requires InStep(s) && s.holder == Some(h) && r.Accepted?
    requires h.pc.AtPostSendBid? && h.kind.IsAuction() && PostSendBidStep(s, h, r, t)
    requires h.kind.Target().GAA?
    ensures InStep(t)
  {
    DeliverGapless(s.pool, h.nonce + 1, r);
  }

  /** The increments are exactly right: in a run in which everything succeeds, from an account with any confirmed
      nonce and nothing pooled, the local nonce is the first free one whenever no sender is at work, unless it has
      yet to be fetched. The mix of senders that have been at work before does not matter. */
  lemma {:induction false} InStepWhenAllSucceeds(states: seq<State>, actions: seq<Action>, i: nat)
    requires IsRun(states, actions) && i < |states|
    requires states[0].pool.pending == {}
    requires forall k :: 0 <= k < |actions| ==> Succeeds(states[k], actions[k])
    ensures InStep(states[i])
    ensures states[i].holder.None? ==> Settled(states[i])
  {
    if i > 0 {
      InStepWhenAllSucceeds(states, actions, i - 1);
      assert StepAt(states, actions, i - 1);
      SuccessKeepsInStep(states[i - 1], actions[i - 1], states[i]);
    }
  }

  // ---------- when GetNonce needs the mutex ----------

  /** A fetch outside the mutex keeps the invariant exactly if it does not overtake a sender. In particular it does
      no harm while no sender is at work. */
  lemma UnlockedFetchHarmless(s: State, answer: nat, t: State)
    requires Inv(s) && UnlockedFetch(s, answer, t)
    ensures Inv(t) <==> !Overtakes(s, answer)
    ensures s.holder.None? ==> Inv(t)
  {
    if s.holder.Some? && !Overtakes(s, answer) {
      assert SessionInv(t, t.holder.value);
    }
  }

  /** An unlocked fetch just before the increment makes the local nonce run ahead exactly if the answer and the
      increment together exceed the first free nonce. Then the next transaction to be accepted opens a gap. */
  lemma FetchBeforeIncrement(s: State, h: Session, answer: nat, fetched: State) returns (read: State, written: State)
    requires Inv(s) && s.holder == Some(h) && h.pc.AtIncrement? && UnlockedFetch(s, answer, fetched)
    ensures Step(fetched, ReadForIncrement, read) && Step(read, WriteIncremented, written)
    ensures NoGap(written) <==> answer + h.pc.amount <= s.pool.FirstFree()
    ensures !NoGap(written) ==>
              && written.pool.MayReply(written.local, Accepted)
              && !written.pool.Deliver(written.local, Accepted).Gapless()
  {
    read := SetPc(fetched, AtWrite(answer + h.pc.amount));
    written := With(read.(local := answer + h.pc.amount), h.(pc := h.afterIncrement));
    if !NoGap(written) {
      GapOpens(written.pool, written.local);
    }
  }

  /** After an unlocked fetch that overtakes a sender of one nonce, or any sender that is about to increment, the
      local nonce can run ahead: the node calls the sender's nonce too low, and the sender steps over it. */
  lemma OvertakingRunsAhead(s: State, answer: nat, t: State) returns (states: seq<State>, actions: seq<Action>)
    requires Inv(s) && UnlockedFetch(s, answer, t) && Overtakes(s, answer) && KnownIncrement(s.holder.value)
    ensures IsPath(states, actions) && states[0] == t && !NoGap(states[|actions|])
  {
    states, actions := [t], [];
    var h := s.holder.value;
    if !h.pc.AtIncrement? {
      var error := AfterError(h, NonceTooLow);
      assert t.pool.Deliver(h.nonce, NonceTooLow) == t.pool;
      states, actions := Extend(states, actions,
                                if h.pc.AtSend? then SendFirst(NonceTooLow) else SendSecond(NonceTooLow),
                                With(t, error));
      h := error;
    }
    var ahead := answer + h.pc.amount;
    states, actions := Extend(states, actions, ReadForIncrement, With(t, h.(pc := AtWrite(ahead))));
    states, actions := Extend(states, actions, WriteIncremented, With(t.(local := ahead), h.(pc := h.afterIncrement)));
  }

  /** It is settled how much the session will add, if it adds anything: it is about to, or its call adds at most one
      and sends no bid, or nothing at all. */
  predicate KnownIncrement(h: Session) {
    || h.pc.AtIncrement?
    || h.kind.MostIncrement() == 0
    || (h.kind.MostIncrement() == 1 && !h.kind.IsAuction())
  }

  /** So for these sessions, and when there is none, the condition is exact for the property itself: every
      continuation is free of gaps and keeps the local nonce in its bounds if and only if the fetch does not
      overtake. */
  lemma UnlockedFetchExact(s: State, answer: nat, t: State)
    requires Inv(s) && UnlockedFetch(s, answer, t)
    requires s.holder.Some? ==> KnownIncrement(s.holder.value)
    ensures (forall states, actions :: IsPath(states, actions) && states[0] == t ==> NoGap(states[|actions|]))
            <==> !Overtakes(s, answer)
  {
    if Overtakes(s, answer) {
      var states, actions := OvertakingRunsAhead(s, answer, t);
    } else {
      UnlockedFetchHarmless(s, answer, t);
      forall states, actions | IsPath(states, actions) && states[0] == t ensures NoGap(states[|actions|]) {
        PathKeepsInv(states, actions, |actions|);
      }
    }
  }

  /** A run of one plain sender of a new account, up to its send. */
  lemma AboutToSend() returns (states: seq<State>, actions: seq<Action>)
    ensures IsRun(states, actions)
    ensures states[|actions|] == State(0, 0, FRESH, Some(Session(Plain, AtSend, 0, FRESH, AtUnlock)))
  {
    var h := Session(Plain, AtFetch, 0, FRESH, AtUnlock);
    states, actions := [State(0, 0, FRESH, None)], [];
    states, actions := Extend(states, actions, Acquire(Plain), State(0, 0, FRESH, Some(h)));
    states, actions := Extend(states, actions, FetchRemote, State(0, 0, FRESH, Some(h.(pc := AtStoreFetched(0)))));
    states, actions := Extend(states, actions, StoreFetched, State(0, 0, FRESH, Some(h.(pc := AtSend))));
  }

  /** The run goes on: the transaction is accepted, and mined before the sender increments the nonce. */
  lemma MinedBeforeIncrement() returns (states: seq<State>, actions: seq<Action>, h: Session)
    ensures IsRun(states, actions)
    ensures h == Session(Plain, AtIncrement(1), 0, FRESH, AtUnlock)
    ensures states[|actions|] == State(0, 0, Pool(1, {}), Some(h))
  {
    h := Session(Plain, AtIncrement(1), 0, FRESH, AtUnlock);
    var one := Pool(0, {0});
    assert FRESH.Deliver(0, Accepted) == one && one.Mine() == Pool(1, {});
    states, actions := AboutToSend();
    states, actions := Extend(states, actions, SendFirst(Accepted), State(0, 0, one, Some(h)));
    states, actions := Extend(states, actions, MineBlock, State(0, 0, one.Mine(), Some(h)));
  }

  lemma Extend(states: seq<State>, actions: seq<Action>, a: Action, t: State)
    returns (states': seq<State>, actions': seq<Action>)
    requires IsPath(states, actions) && Step(states[|actions|], a, t)
    ensures IsPath(states', actions') && states'[0] == states[0] && states'[|actions'|] == t
  {
    states', actions' := states + [t], actions + [a];
    forall i | 0 <= i < |actions'| ensures StepAt(states', actions', i) {
      if i < |actions| {
        assert StepAt(states, actions, i);
      }
    }
  }

  /** An unlocked fetch between a send and its increment makes the local nonce count a mined transaction
      twice. No reset and no error is involved, and the next transaction to be accepted opens a gap. */
  lemma UnlockedFetchRunsAhead()
    returns (states: seq<State>, actions: seq<Action>, fetched: State, read: State, written: State)
    ensures IsRun(states, actions)
    ensures UnlockedFetch(states[|actions|], 1, fetched)
    ensures Step(fetched, ReadForIncrement, read) && Step(read, WriteIncremented, written)
    ensures written.local > written.pool.FirstFree()
    ensures !written.pool.Deliver(written.local, Accepted).Gapless()
  {
    var h;
    states, actions, h := MinedBeforeIncrement();
    fetched := states[|actions|].(local := 1);
    RunKeepsInv(states, actions, |actions|);
    read, written := FetchBeforeIncrement(states[|actions|], h, 1, fetched);
  }
}
