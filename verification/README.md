# Verification of the Kaia load tester

A Dafny model of the parts of the load tester whose state has to survive concurrency, failed calls and long
runs, with proofs about every input, every interleaving and every run.

| file | models |
|---|---|
| `CpuHeavy.dfy` | the CPUHeavy contract: an in-place quicksort over 256-bit words with checked arithmetic, and a count of its comparisons |
| `NonceProtocol.dfy` | the transaction pool of a node (`TxPool`) and the cached nonce of an account, as steps of senders, resets and mined blocks (`NonceProtocol`) |
| `SessionOutcome.dfy` | what each way of sending, with each answer, does to the nonce and to the block it records |
| `AccountNonce.dfy` | the fetch, the send and the resending loop, as methods of an account |
| `AccountLocks.dfy` | the account mutexes: checked transfers lock two, plain senders one |
| `TransferCheck.dfy` | the checked transfer on top of these locks, with a chain that mines in any order |
| `TokenLedger.dfy` | the ERC721 ledger: its atomic specification (`LedgerSpec`), and its implementation in steps (`TokenLedger`) |
| `LedgerConservation.dfy` | token conservation, and first in, first out, in the interleaved ledger |
| `ConcurrentTransfer.dfy` | the transfer workers on top of the interleaved ledger, and their refinement of the atomic ones |
| `TokenTransfer.dfy` | minted ids, the rotation, and the transfer workers on top of the atomic ledger |
| `SequentialLedger.dfy` | the ledger, the search and one run of the transfer test case, as one goroutine executes them |
| `TokenCharging.dfy` | the concurrent charging of tokens |
| `FanOut.dfy` | the bounded fan-out `ConcurrentTransactionSend` |
| `HashPool.dfy` | the ring buffer of transaction hashes, and the test case that sends and reads |
| `ClientPool.dfy` | the pool of RPC clients |
| `Funding.dfy` | what the local reservoir receives and what leaves it before the tests start |
| `Wrappers.dfy` | the optional value |

`dafny verify dfyconfig.toml` checks the whole project with Dafny 4.11.

## How the model is put together

Code that one goroutine executes on its own data is modelled by methods with loops over arrays and class fields,
each of them proved against a specification function. Code that runs concurrently is modelled by a state, the
steps that the goroutines can take, and runs, which are sequences of states from an initial one; the steps are as
fine as the source's own reads, writes, locks and calls.

The node is abstract. It keeps the confirmed nonce and the set of pooled nonces of an account. It accepts only
nonces from the confirmed one on, calls only lower ones too low, and calls only pooled ones underpriced
replacements; any other error leaves it unchanged. Mining removes the confirmed nonce from the pool, and nothing is
dropped. Which answer comes, which call fails, and which transfer is mined when, is open in every step, so the
results hold for all of them. Senders hold the account's mutex. The source also calls `GetNonce` without it
(`klayslave/account/contract.go:984`, `klayslave/account/account.go:1446`, `klayslave/main.go:95`), while the
goroutine has no send of that account under way. The store that ends such a call is a step of every run, at any
time and with any answer that the node can have given before, as long as it overtakes no sender. `UnlockedFetchHarmless`,
`UnlockedFetchExact` and `UnlockedFetchRunsAhead` say what it would do otherwise.

Three findings that the model keeps as they are in the source:

- `doubleUnlock` unlocks in the order of locking, not in reverse as its comment says. This does no harm.
- In `AuctionBid` the text of the last error survives to the next result, so a failed call without a verdict can be
  counted as a second nonce error, against the comment on line 1294; `StepsOverExactly` says when. The increment
  stays earned, because some verdict was a nonce error.
- `RunReceiptCheckTC` promises reads and sends in the ratio 9 : 1. The 32-bit counter breaks it where it wraps,
  because 2^32 is no multiple of ten; `OneSendInTen` says in which windows.

## Model

| member | source | states |
|---|---|---|
| CpuHeavy.QuickSort | klayslave/account/contracts/cpuHeavy/CPUHeavy.sol:16-39 | For every array and range: no index, increment or decrement ever leaves its bounds or the 256-bit word, so no revert; the range ends up sorted and rearranged, nothing outside it changes; at most n*n + 2n loop comparisons, and exactly the recurrence of the workload on a descending range |
| CpuHeavy.Partition | klayslave/account/contracts/cpuHeavy/CPUHeavy.sol:22-34 | One call separates its range: left..j hold at most the pivot, j+1..right hold more; at most 2n + 1 comparisons; a descending range costs n + 1 and just swaps its ends, a range with its minimum in front costs n + 2 and is left as it is |
| CpuHeavy.ScanUp | klayslave/account/contracts/cpuHeavy/CPUHeavy.sol:27 | The first scan stops at the first cell above the pivot or at the end of the range, at a cost of the distance plus one |
| CpuHeavy.ScanDown | klayslave/account/contracts/cpuHeavy/CPUHeavy.sol:28 | The second scan stops at the first cell not above the pivot, at the pivot cell at the latest, so j never goes below left |
| CpuHeavy.ScanRound | klayslave/account/contracts/cpuHeavy/CPUHeavy.sol:26-32 | A round of both scans and the swap keeps the loop invariant, makes progress, and never moves the pivot cell |
| CpuHeavy.FirstRound | klayslave/account/contracts/cpuHeavy/CPUHeavy.sol:26-32 | On the two shapes that the workload produces the first round is the only one |
| CpuHeavy.PivotPlaced | klayslave/account/contracts/cpuHeavy/CPUHeavy.sol:34 | The last swap puts the pivot between the cells that the scans have separated |
| CpuHeavy.PartsSorted | klayslave/account/contracts/cpuHeavy/CPUHeavy.sol:33-37 | A partition and the sorts of its parts sort the whole range at the sum of the costs; the guard j > 1 skips only calls that would do nothing |
| CpuHeavy.WorstCostSum | klayslave/account/contracts/cpuHeavy/CPUHeavy.sol:21-37 | The cost of one partition and the bounds of the two parts stay within n*n + 2n |
| CpuHeavy.DescendingCostClosedForm | klayslave/account/contracts/cpuHeavy/CPUHeavy.sol:7-39 | The exact cost of a descending range of n cells is (n*n + 4n - 5) / 2, rounded down |
| CpuHeavy.SortedUnique | klayslave/account/contracts/cpuHeavy/CPUHeavy.sol:12-13 | Sorted and a rearrangement fix the result |
| CpuHeavy.DescendedCounts | klayslave/account/contracts/cpuHeavy/CPUHeavy.sol:9-11 | The descending input is a rearrangement of 1 to n |
| CpuHeavy.FillDescending | klayslave/account/contracts/cpuHeavy/CPUHeavy.sol:9-11 | The fill loop writes size down to 1 |
| CpuHeavy.SortedDescendedCounts | klayslave/account/contracts/cpuHeavy/CPUHeavy.sol:7-14 | A sorted rearrangement of the descending input holds x + 1 in cell x |
| CpuHeavy.Sort | klayslave/account/contracts/cpuHeavy/CPUHeavy.sol:7-14 | Reverts exactly when size is 0; else cell x ends up holding x + 1, the event carries size and signature, and the comparisons number exactly (size*size + 4*size - 5) / 2 |
| CpuHeavy.Contract.SortSingle | klayslave/account/contracts/cpuHeavy/CPUHeavy.sol:48-55 | The same for the stored array, of any length from 1 on (the contract has 20); quickSortSingle (lines 70-93) is quickSort on that array |
| CpuHeavy.Contract.CheckResult | klayslave/account/contracts/cpuHeavy/CPUHeavy.sol:57-68 | True if and only if the stored array is non-decreasing |
| CpuHeavy.SortSingleThenCheck | klayslave/account/contracts/cpuHeavy/CPUHeavy.sol:48-68 | A check after a sort is always true |
| TxPool.DeliverGapless | klayslave/account/account.go:135-147 | A transaction at or below the first free nonce leaves the pool gapless, and says where the first free nonce is after each of the replies |
| TxPool.MineGapless | klayslave/account/account.go:410-424 | Mining moves the confirmed nonce, not the first free one |
| TxPool.GapOpens | klayslave/account/account.go:135-147 | One accepted transaction beyond the first free nonce opens a gap |
| NonceProtocol.NoGapInAnyRun | klayslave/account/account.go:89-198 | Main result. In every run of every mix of senders (plain, cancel pair, gasless pair, approve only, both auction bids with all seven targets), with resets, mined blocks, and stores of unlocked fetches that overtake no sender between any two steps: pooled nonces follow the confirmed one without a hole, in throw-away accounts too, and the local nonce never exceeds the first free one |
| NonceProtocol.RunKeepsInv | klayslave/account/account.go:89-198 | The invariant behind it holds in every state of every run |
| NonceProtocol.StepKeepsInv | klayslave/account/account.go:89-198 | Each kind of step keeps it |
| NonceProtocol.FreeStepKeepsInv | klayslave/account/account.go:117-121 | The unlocked reset to 0, landing anywhere, keeps it, and so does the store of an unlocked fetch that overtakes no sender, whatever the local nonce has become since its test |
| NonceProtocol.LocalStepKeepsInv | klayslave/account/account.go:410-424 | GetNonce (cached, fetched or failed), the increment as a read and a later write, and the early returns keep it |
| NonceProtocol.SendFirstKeepsInv | klayslave/account/account.go:150-198 | The transaction that carries the fetched nonce, with every reply |
| NonceProtocol.SendSecondKeepsInv | klayslave/account/account.go:545-561 | The cancel with the same nonce and the gasless swap (lines 1095-1108) with the next one |
| NonceProtocol.PreSendBidKeepsInv | klayslave/account/targetTxTypeLIst.go:181-209 | The approve that GAS and rGAS (lines 271-293) send ahead of the bid |
| NonceProtocol.SubmitBidKeepsInv | klayslave/account/account.go:1248-1269 | A bid inserts its target transaction, or fails with or without a verdict |
| NonceProtocol.TemporaryBidKeepsInv | klayslave/account/targetTxTypeLIst.go:217-296 | For targets of the throw-away account: until a bid is accepted, the node can call no target too low or a replacement, so the increment of the bidder never happens on its account |
| NonceProtocol.HandleResults | klayslave/account/account.go:1271-1291 | The loop over the bid results, with the error text that outlives its round, computes ScanResults |
| NonceProtocol.ScanResultsSound | klayslave/account/account.go:1271-1291 | It reports success exactly when some verdict was an acceptance, and counts an error only if some verdict was a nonce error |
| NonceProtocol.StepsOverExactly | klayslave/account/account.go:1293-1299 | The bidder steps over its nonce if and only if every result is a nonce error or a failed call, and the first is no failed call; so, against the comment on line 1294, without a nonce error from every bid if and only if there is a failed call among such results |
| NonceProtocol.FailedCallCountedAsNonceError | klayslave/account/account.go:1282-1290 | The input: a nonce error and then a failed call; in the other order they do not count |
| NonceProtocol.ScanCountsAll | klayslave/account/account.go:1271-1291 | The same condition for any point of the loop |
| NonceProtocol.BidVerdictKeepsInv | klayslave/account/account.go:1293-1301 | What a bid does to the nonce is earned, in whatever order the results arrive; the reverted bid (lines 1386-1397) is the case of a single result |
| NonceProtocol.PostSendBidKeepsInv | klayslave/account/targetTxTypeLIst.go:50-53 | The increments of VT, SC, rSC (by 1), GAA (lines 136-163) and GAS (lines 210-215, by 2), and none for rGAA and rGAS |
| NonceProtocol.SwapAfterBidKeepsInv | klayslave/account/targetTxTypeLIst.go:136-163 | The swap that follows a GAA bid, with every reply |
| NonceProtocol.InStepWhenAllSucceeds | klayslave/account/account.go:150-198 | The increments are exact: in every run in which nothing fails, from any confirmed nonce with nothing pooled, the local nonce is the first free one whenever no sender is at work, or it is still 0 and the first free one is what a fetch will find |
| NonceProtocol.SuccessKeepsInStep | klayslave/account/account.go:1042-1111 | Each step of such a run keeps the count of nonces used up |
| NonceProtocol.UnlockedFetchHarmless | klayslave/account/contract.go:982-985 | GetNonce outside the mutex (also account.go:1446 and main.go:95) keeps the invariant behind NoGapInAnyRun if and only if it does not overtake a sender: one that may still read the local nonce, has seen its own nonce mined, and may add more than there is room for. So it does while no sender is at work |
| NonceProtocol.UnlockedFetchExact | klayslave/account/contract.go:982-985 | Exact for the property itself, in all continuations: with no sender, with any sender about to increment, and with senders of one nonce or none, no gap can follow if and only if the fetch does not overtake |
| NonceProtocol.OvertakingRunsAhead | klayslave/account/contract.go:982-985 | Otherwise there is a continuation in which the local nonce runs ahead |
| NonceProtocol.FetchBeforeIncrement | klayslave/account/account.go:184-196 | Just before an increment, an unlocked fetch makes the local nonce run ahead if and only if answer and increment together exceed the first free nonce; the next acceptance then opens a gap |
| NonceProtocol.UnlockedFetchRunsAhead | klayslave/account/contract.go:982-985 | A concrete run in which it does |
| NonceProtocol.MinedBeforeIncrement | klayslave/account/account.go:184-196 | The run that leads there: a transaction can be mined before its sender increments the nonce |
| SessionOutcome.SessionEnds | klayslave/account/account.go:150-198 | Main result. Every session into which no reset and no unlocked fetch falls leaves the local nonce exactly its gain above the nonce it has worked with. The gain by answers: plain and cancel 1 for an acceptance or either nonce error, else 0; gasless pair 2, 1 or 0 for the swap, 1 or 0 for a rejected approve; approve-only 0; bids by the approve of GAS, the verdict, and the swap of GAA. It records the block it was told if and only if a bid with a target of its own has been won |
| SessionOutcome.FetchEnds | klayslave/account/account.go:410-424 | A session works with the cached nonce, with the answer, which it caches, or with 0 if the fetch fails, and goes on in all three cases |
| SessionOutcome.StepTracks | klayslave/account/account.go:1042-1402 | Each step of a session keeps that account of it |
| SessionOutcome.NonceErrorsReachFirstFree | klayslave/account/account.go:186-189 | Senders that meet nothing but nonce errors, of either kind, move the local nonce on by one for each session, and reach the first free nonce after FirstFree - local sessions |
| SessionOutcome.NoNonceErrorAtFirstFree | klayslave/account/account.go:184-189 | There the node has no nonce error to give |
| SessionOutcome.ApproveOnlyFallsBehind | klayslave/account/account.go:1113-1156 | An accepted approve without its swap takes its nonce, but leaves the local nonce where it was |
| SessionOutcome.VerdictOnAllBids | klayslave/account/account.go:1248-1275 | A session looks at its results after two bids, or one reverted bid, and at the results of just these, in any order of arrival |
| SessionOutcome.OneBidForABlock | klayslave/account/account.go:1202-1209 | If block numbers do not fall below one recorded, an account wins with a target of its own at most once for each block, and bids for no block up to the one recorded last |
| AccountNonce.Account.GetNonce | klayslave/account/account.go:410-424 | The cached nonce if it is not 0; else the node is asked, and the result, which is also cached, is the confirmed nonce if and only if the node has answered, and 0 otherwise |
| AccountNonce.Account.SendRawTx | klayslave/account/account.go:135-147 | Success and the two nonce errors advance the local nonce by one, any other error leaves it alone |
| AccountNonce.Account.SendTransaction | klayslave/account/account.go:150-198 | Fetch and send, with every reply: a possible attempt, after which the local nonce does not exceed the first free one |
| AccountNonce.Account.SendUntilAccepted | klayslave/account/account.go:94-106 | The resending loop ends in acceptance or in an error that the caller skips, after at least one and at most firstFree - local + 1 attempts, plus one for each other error of the node, also from 0 or a failed fetch and with blocks mined in between. From 0 and with no fetch failing, it starts at the confirmed nonce and makes at most one attempt for each pooled transaction, and one more |
| AccountNonce.FirstFreeIffCertain | klayslave/account/account.go:94-106 | Main result. Acceptance is at exactly the first free nonce in every run if and only if, beforehand, the node allows no replacement, or no nonce from the local one on is pooled, or the caller skips the nonce error that the loop is bound to meet |
| AccountNonce.AcceptedAtFirstFree | klayslave/account/account.go:94-106 | The one half, for every run |
| AccountNonce.Replacement | klayslave/account/account.go:94-106 | The other half: a run that ends by replacing a pooled transaction |
| AccountNonce.ReplacedInsteadOfFirstFree | klayslave/account/account.go:94-106 | Such a run of a new account with one pooled transaction |
| AccountNonce.NoncesClimb | klayslave/account/account.go:94-106 | The nonces tried climb from the local one to at most the first free one, one step for each nonce error |
| AccountNonce.StartsAtConfirmed | klayslave/account/account.go:410-424 | From 0, and with no fetch failing, the first nonce tried is the confirmed one |
| AccountNonce.AttemptsBounded | klayslave/account/account.go:94-106 | Hence the bound on the attempts, and their exact number when there is no other error |
| AccountLocks.NoDeadlock | testcase/run_receipt_check.go:60-84 | Main result. Any number of workers that lock two accounts (equal, larger or smaller) or one (account.go:153-156, 477-481): every reachable unfinished state has an enabled step |
| AccountLocks.SomeoneCanGoOn | testcase/run_receipt_check.go:60-71 | Following the holders of awaited mutexes leads to ever smaller addresses, hence to a worker that can go on |
| AccountLocks.UnlockFindsOwnLock | testcase/run_receipt_check.go:73-84 | No unlock fails: the mutex is locked, by the worker that unlocks it |
| AccountLocks.BodyOwnsItsAccounts | klayslave/account/account.go:153-156 | A worker that does its work owns the mutexes of exactly its own accounts: both of a checked transfer, the one of a plain sender |
| AccountLocks.ProgramShape | testcase/run_receipt_check.go:60-84 | At most two mutexes, the larger address first, none locked twice; the unlock order equals the lock order (the comment on line 73 says reverse) |
| AccountLocks.HeldChanges | testcase/run_receipt_check.go:60-84 | One instruction changes what a worker holds by exactly the mutex that it names |
| AccountLocks.ExecuteKeepsInv | testcase/run_receipt_check.go:60-84 | The locked mutexes are exactly those that the workers hold, each by one of them |
| AccountLocks.ProgramsRunInOrder | testcase/run_receipt_check.go:163-167 | In every run each worker executes its program from the start; finished, it has locked and unlocked each of its accounts exactly once and holds nothing |
| AccountLocks.RunsEnd | testcase/run_receipt_check.go:163-167 | Every run is finite, and leaves all mutexes unlocked when all workers have finished |
| TransferCheck.AlarmsExactly | testcase/run_receipt_check.go:163-232 | Main result. Any number of workers, transfers to oneself and timeouts included, mined in any order: a comparison fails if and only if orphans (transfers whose senders timed out before they were mined) have changed that balance on the whole since it was read; no balance is overdrawn; the accounts of an awaited transfer are locked by its sender |
| TransferCheck.NoFalseAlarm | testcase/run_receipt_check.go:163-232 | Hence, as long as nobody has given up on a pending transfer, every comparison succeeds at once, and every pending transfer can be mined |
| TransferCheck.AnswersExactly | testcase/run_receipt_check.go:163-232 | Main result. A checked transfer answers that all is well if and only if each comparison it has to make, one to oneself and two otherwise, has succeeded; and that something is wrong if and only if the transfer was rejected or one of the three waits timed out |
| TransferCheck.AcceptedIsWellAnswered | testcase/run_receipt_check.go:163-232 | As long as nobody has given up on a pending transfer, an accepted one is reported as wrong only after a timeout of its receipt |
| TransferCheck.StepKeepsVerdict | testcase/run_receipt_check.go:172-231 | Each step keeps the account of what a worker has compared |
| TransferCheck.SendsWhatIsAsked | testcase/run_receipt_check.go:172 | The transfer under way is the one asked for, although the value is set to 0 afterwards in a transfer to oneself |
| TransferCheck.BalancesExplained | testcase/run_receipt_check.go:189-197 | Every balance is what it was at the start plus what the mined transfers, as they were asked for, have added or taken, the sender paying the fee |
| TransferCheck.MinedOnce | testcase/run_receipt_check.go:178-187 | No transfer is mined twice |
| TransferCheck.NobodyAbandons | testcase/run_receipt_check.go:178-187 | Until then there are no orphans |
| TransferCheck.OrphanRaisesAlarm | testcase/run_receipt_check.go:184-187 | A reachable state in which an orphan raises a false alarm for another worker |
| TransferCheck.StepKeepsInv | testcase/run_receipt_check.go:163-232 | Each step of a worker or of the chain keeps the invariant behind it |
| TransferCheck.MineKeepsOwnCheckInv | testcase/run_receipt_check.go:189-197 | Once a transfer is mined, the balances are the ones that its sender will predict, plus what orphans have added; fee and transfer to oneself included |
| TransferCheck.OrphanKeepsCheckInv | testcase/run_receipt_check.go:184-187 | A mined orphan adds to the drift of each worker what it adds to the balances that the worker has read |
| TransferCheck.MinedBalances | testcase/run_receipt_check.go:189-197 | A mined transfer changes each balance by its delta and overdraws none |
| TransferCheck.BodyStepKeepsCheckInv | testcase/run_receipt_check.go:168-229 | The reads, the send, the receipt, the comparisons and the timeouts keep what the worker knows |
| TransferCheck.FrameCheckInv | testcase/run_receipt_check.go:166-167 | What happens to other accounts and transfers does not concern a worker |
| TransferCheck.InBodyOwnsBoth | testcase/run_receipt_check.go:166-167 | Between lock and unlock a worker owns both mutexes |
| TransferCheck.ValueConserved | testcase/run_receipt_check.go:189-197 | The balances and the fees paid keep their total in every run |
| TransferCheck.MovedConserves | testcase/run_receipt_check.go:189-197 | A mined transfer, also to oneself, takes no more than its fee out of the balances |
| TransferCheck.NeverStuck | testcase/run_receipt_check.go:163-232 | Workers and chain together never get stuck before all workers have finished; a timeout is needed only by a worker whose accounts an orphan has touched |
| TransferCheck.NextStep | testcase/run_receipt_check.go:163-232 | Whoever is not waiting for a mutex has a next step, in each phase of the check |
| TokenLedger.Linearizable | klayslave/account/erc721_ledger.go:24-101 | Main result. Any number of operations, interleaved at every lookup, lock, load, store and unlock: at any time the operations that have taken effect have an order, each in it once, whose replay on an atomic map of FIFO queues yields the present queues and every result |
| TokenLedger.StepRefines | klayslave/account/erc721_ledger.go:43-101 | Each step leaves the queues alone or is one whole atomic operation with the result that will be returned |
| TokenLedger.RealTimeOrderKept | klayslave/account/erc721_ledger.go:43-101 | An operation that has returned before another one begins precedes it in that order |
| TokenLedger.OrderIsComplete | klayslave/account/erc721_ledger.go:43-101 | The order consists of exactly the operations that have taken effect |
| TokenLedger.OrderGrows | klayslave/account/erc721_ledger.go:43-101 | It is never rearranged |
| TokenLedger.ReplayOneMore | klayslave/account/erc721_ledger.go:43-101 | One more atomic operation extends a correct replay |
| TokenLedger.SixStepsAtMost | klayslave/account/erc721_ledger.go:24-101 | Every operation returns after at most six steps of its own |
| TokenLedger.NoDeadlock | klayslave/account/erc721_ledger.go:24-101 | As long as some operation has not returned, some operation can take a step |
| TokenLedger.OneMutexPerAddress | klayslave/account/erc721_ledger.go:24-41 | Callers obtain the same mutex if and only if they ask for the same address, whatever the interleaving of Load and LoadOrStore |
| TokenLedger.HoldersDiffer | klayslave/account/erc721_ledger.go:43-101 | At most one caller at a time is between lock and unlock of one address |
| TokenLedger.NextKeepsInv | klayslave/account/erc721_ledger.go:24-101 | Each step keeps the invariant behind it |
| TokenTransfer.TokensConserved | testcase/run_execute_contract.go:109-144 | Main result. In every run of any number of workers, with any sends failing, queues and hands together hold each token as often as at the start |
| TokenTransfer.EachMintedTokenOnce | testcase/run_execute_contract.go:97-146 | After charging, each minted id is in exactly one queue or hand, once, throughout every run, and no other id turns up |
| TokenTransfer.TransfersExplained | testcase/run_execute_contract.go:136-144 | Main result. In every run, each address has of each token what it had at the start, plus the transfers to it that could be sent, less those from it; a token that could not be sent stays with its owner |
| TokenTransfer.StepTransfers | testcase/run_execute_contract.go:136-144 | A token changes its owner only when it has been sent, from the account it was taken from to the receiver |
| TokenTransfer.SearchFollowsRotation | testcase/run_execute_contract.go:109-127 | In every run, the accounts that a worker has tried are a beginning of the rotation, the token in its hand is from the last of them, and it ends with nothing only after all of them |
| TokenTransfer.StepFollowsRotation | testcase/run_execute_contract.go:113-121 | Each try is the next one of the rotation |
| TokenTransfer.StepConserves | testcase/run_execute_contract.go:109-144 | Each step of a worker moves one token or none |
| TokenTransfer.ApplyMovesOneToken | klayslave/account/erc721_ledger.go:43-101 | Put adds one copy of its token, remove takes one copy of what it returns, initialising changes no count |
| TokenTransfer.ChargedOnce | klayslave/account/contract.go:212-222 | A freshly charged ledger holds each minted id once |
| ConcurrentTransfer.RunRefines | testcase/run_execute_contract.go:97-146 | Main result. Every run of the workers on the interleaved ledger, with each lookup, lock, load, store and unlock a step, has a run of the atomic workers beside it, from the same start to what its state amounts to |
| ConcurrentTransfer.StepRefines | testcase/run_execute_contract.go:109-144 | Each step leaves the atomic workers where they are, or is one step of theirs |
| ConcurrentTransfer.EffectRefines | klayslave/account/erc721_ledger.go:43-89 | The step at which an operation takes effect is the one of the atomic workers |
| ConcurrentTransfer.TokensConserved | testcase/run_execute_contract.go:109-144 | Queues, operations in flight and hands together hold each token as often as at the start |
| ConcurrentTransfer.TransfersExplained | testcase/run_execute_contract.go:136-144 | In every interleaved run, each address has of each token what it had at the start, plus the transfers to it that could be sent, less those from it |
| ConcurrentTransfer.StepTransfers | testcase/run_execute_contract.go:136-144 | A token changes its owner at the step at which the put of a token that could be sent takes effect |
| ConcurrentTransfer.EachMintedTokenOnce | testcase/run_execute_contract.go:97-146 | After charging, each minted id is in one queue, one operation in flight or one hand, once, throughout every such run |
| ConcurrentTransfer.StartOpKeepsInv | klayslave/account/erc721_ledger.go:24-101 | A worker may start a new operation whenever its last one has returned |
| TokenTransfer.RotationVisitsEachOnce | testcase/run_execute_contract.go:109-121 | The rotation visits every account exactly once, from any start |
| TokenTransfer.RotationStep | testcase/run_execute_contract.go:120 | One step of the candidate index goes to the next account of the rotation |
| SequentialLedger.Ledger.Put | klayslave/account/erc721_ledger.go:43-63 | PutToken is the atomic operation |
| SequentialLedger.Ledger.Remove | klayslave/account/erc721_ledger.go:65-89 | RemoveToken is the atomic operation |
| SequentialLedger.Ledger.Initialize | klayslave/account/erc721_ledger.go:91-101 | InitializeAccount is the atomic operation |
| SequentialLedger.Ledger.FindToken | testcase/run_execute_contract.go:109-127 | The search fails exactly when all queues are empty; else it returns the oldest token of the first non-empty queue in rotated order |
| SequentialLedger.Ledger.TransferOne | testcase/run_execute_contract.go:97-145 | One run of the test case takes the oldest token of the first non-empty queue in rotated order, and puts it at the end of the queue of the receiver if it could be sent, else at the end of the same queue; no other queue changes, and nothing does when all are empty |
| TokenCharging.ChargedInAnyInterleaving | klayslave/account/contract.go:212-222 | However the ledger operations for the accounts interleave: each account ends up with its own five ids at the end of its queue, in order, nobody else gets any |
| TokenCharging.OneMoreOperation | klayslave/account/contract.go:214-221 | One operation of the loop for one account, on its own queue only |
| SequentialLedger.Ledger.ChargeTokens | klayslave/account/contract.go:212-222 | The same, account after account |
| LedgerConservation.LedgerConserves | klayslave/account/erc721_ledger.go:43-101 | In every interleaved run of the ledger, for every token: copies queued and copies taken out equal copies at the start and copies put in |
| LedgerConservation.FirstInFirstOut | klayslave/account/erc721_ledger.go:43-89 | Tokens leave the queue of an address in the order in which they have entered it: those taken, then those queued, are those queued at the start, then those put |
| LedgerConservation.EmptyHanded | klayslave/account/erc721_ledger.go:71-79 | A remove comes back with nothing if and only if its queue is empty |
| LedgerConservation.LedgerIsFirstInFirstOut | klayslave/account/erc721_ledger.go:43-101 | So it is in every interleaved run |
| LedgerConservation.StepConserves | klayslave/account/erc721_ledger.go:43-101 | One step of one operation keeps that balance |
| SequentialLedger.Ledger.ChargeAccount | klayslave/account/contract.go:214-221 | The loop for one account |
| TokenTransfer.IdsOfOneRunDistinct | klayslave/account/contract.go:212-221 | Two accounts of one run never share an id |
| TokenTransfer.RunsCollideIffTooManyAccounts | klayslave/account/contract.go:211-216 | Runs that start in different seconds can mint the same id if and only if there are more than 200000 accounts |
| FanOut.ReturnsComplete | klayslave/account/account.go:1546-1582 | Main result. When the call returns, in any interleaving: every account handled exactly once, all slots free, completed equals total, exactly one goroutine has seen the total |
| FanOut.ConcurrencyBounded | klayslave/account/account.go:1556-1571 | At no time do more callbacks run than the channel has slots |
| FanOut.ConcurrencyAsSet | klayslave/account/account.go:1546-1557 | At most maxConcurrency callbacks, or ten for each CPU if that is not positive |
| FanOut.ConcurrencyReached | klayslave/account/account.go:1546-1570 | The bound is exact: with enough accounts, that many callbacks can run at once |
| FanOut.LastCountFindsSlotsFree | klayslave/account/account.go:1570-1574 | A goroutine gives its slot back before it counts, so that all slots are free once the count has reached the total |
| FanOut.NoDeadlock | klayslave/account/account.go:1566-1581 | Until the call returns, some goroutine can go on |
| FanOut.RunsEnd | klayslave/account/account.go:1566-1581 | Every run is finite: seven steps for each account and two more |
| FanOut.StepTaken | klayslave/account/account.go:1566-1581 | Each step is one fewer to come |
| FanOut.NextKeepsInv | klayslave/account/account.go:1566-1581 | Every slot in use and every unit of the wait group has its owner |
| FanOut.SeenFollows | klayslave/account/account.go:1573-1574 | The counts that the goroutines see are 1 up to completed, each seen by one |
| FanOut.CapacityPositive | klayslave/account/account.go:1547-1549 | The number of slots is positive, default or not |
| HashPool.Pool.AddHash | testcase/run_receipt_check.go:37-48 | The ring takes the hash; before it is full, its cells are the hashes added; afterwards, read from the tail, they are the last ones |
| HashPool.Pool.GetHash | testcase/run_receipt_check.go:50-58 | Panics exactly on an empty pool; else returns one of the last hashPoolSize hashes |
| HashPool.Pool.ReadableAreRecent | testcase/run_receipt_check.go:50-58 | The readable slots hold exactly the last min(k, hashPoolSize) hashes of k added |
| HashPool.RingMoves | testcase/run_receipt_check.go:40-42 | Overwriting the tail of a full ring drops the oldest hash and adds the new one |
| HashPool.TestCase.Run | testcase/run_receipt_check.go:141-160 | Decides between sending and reading as the code does; in every sequential run a read finds a hash, also after the 32-bit counter has wrapped |
| HashPool.FirstCallsSend | testcase/run_receipt_check.go:143-146 | The first 9999 calls of a fresh test case send, and no later one belongs to the initial phase |
| HashPool.SendsUntilWrap | testcase/run_receipt_check.go:150-153 | The exact number of sends among k calls while the counter does not wrap |
| HashPool.OneSendInTen | testcase/run_receipt_check.go:31 | Ten calls in a row have exactly one send, the ratio 9 : 1, if and only if the counter does not stand two to seven below 2^32 before them; else they have none |
| HashPool.SendsAcrossWrap | testcase/run_receipt_check.go:143-153 | The exact number across the wrap, where the ratio fails |
| HashPool.SilenceAcrossWrap | testcase/run_receipt_check.go:143-153 | Up to fifteen calls in a row around the wrap send nothing |
| ClientPool.ClientPool.Init | klayslave/clipool/clipool.go:18-29 | Creates the larger of init and 0 clients, all of them free |
| ClientPool.ClientPool.Alloc | klayslave/clipool/clipool.go:31-45 | Lends a client that is not lent, the longest free one if there is one; created = free + lent, and no more are created than the larger of init and the peak number lent at once |
| ClientPool.ClientPool.Free | klayslave/clipool/clipool.go:47-51 | Takes back a lent client and keeps all of that |
| Funding.FundingSuffices | klayslave/main.go:95-132 | Main result. For every configuration with non-negative numbers of users and every chain, unless the unsigned test and an auction test are both selected: the funded total covers everything that leaves the reservoir, and four charge units more |
| Funding.FundingExactly | klayslave/main.go:95-132 | For every configuration: the funding covers the spending if and only if the missing charge units fit into the unspent liquidity |
| Funding.NegativeUsersFallShort | klayslave/config/config.go:82-83 | A negative number of unsigned users, which the flags accept, can make the funding fall short |
| Funding.FundingWithBothSelected | klayslave/main.go:95-132 | With both selected, the same in terms of active users, deployments and the gasless setup |
| Funding.FundingCanFallShort | klayslave/main.go:95-132 | A configuration with both selected, and 27 unsigned accounts, in which it does not |
| Funding.FundingBalance | klayslave/main.go:95-132 | What is left in the reservoir, exactly |
| Funding.FourUnitsSpare | klayslave/config/config.go:244-250 | The surplus is at least four units whatever is deployed, set up and deposited |
| Funding.GroupsSelected | klayslave/account/accgroup.go:165-169 | Contract 3 is always selected, 4 to 8 if and only if a gasless test or one of the targets GAA, GAS, rGAA, rGAS is asked for, 9 to 12 if and only if an auction test is |
| Funding.OthersSelected | klayslave/account/accgroup.go:165-169 | Which tests select contracts 0 to 2, 13 and 14 |
| Funding.RestSelected | klayslave/account/accgroup.go:165-169 | Which tests select contracts 15 to 20 |
| Funding.DeploymentsCounted | klayslave/account/accgroup.go:171-175 | The leader charges the deployer of each selected contract that has not been deployed, once |
| Funding.SpendingOfGaslessTarget | klayslave/account/accgroup.go:164-212 | A configuration in which a gasless target of bids is all that selects the gasless contracts, and what it spends |
| Funding.SpendingOfGaslessBids | klayslave/main.go:63-135 | A configuration with gasless tests and inactive accounts, what it is funded with, and what it spends |
| Funding.Active | klayslave/account/accgroup.go:115 | The largest number with a hundredfold of at most n * percent |
| Funding.AuctionEntryPointSelected | klayslave/account/accgroup.go:165-169 | The deposits are made if and only if an auction test is selected |
| Funding.PrepareAccountsAndContracts | klayslave/main.go:63-135 | The preparation as it is written receives and spends exactly the specified totals, and nothing with a charge of 0 |
| Funding.ChargeAccounts | klayslave/main.go:114-122 | All accounts are charged, active or not |
| Funding.DeployTestContracts | klayslave/account/accgroup.go:151-213 | The two loops over the contracts spend what the specification says |
| Funding.DeployAndSetUp | klayslave/account/accgroup.go:164-185 | The leader charges each deployer that has not deployed, and the gasless setup unless it is registered (contract.go:377-389) |
| Funding.ChargeForContracts | klayslave/account/accgroup.go:187-212 | Every slave pays the auction deposits of its active accounts (contract.go:530-549) |
| Funding.ContractInfos | klayslave/account/contract.go:144-166 | Which of the 21 contracts has the gasless setup, and which one the deposits |
| Funding.AccGroup.CreateAccountsPerAccGrp | klayslave/account/accgroup.go:90-98 | Each list grows at its end by the number of accounts asked for |
| Funding.AccGroup.SetAccGrpByActivePercent | klayslave/account/accgroup.go:113-123 | Each list keeps its first n * percent / 100 accounts |
| Funding.AccGroup.GetValidAccGrp | klayslave/account/accgroup.go:125-138 | The signed accounts, then the unsigned ones if a test uses them |

## Left out

- Signing, RLP, ABI packing, hashing, gas price values, JSON receipts, event publishing, logging and sleeping: foreign calls, replaced by the answers of the abstract node.
- Generated contract bindings and byte code; Uniswap, registry and auction contracts: only the value that they are funded with matters here.
- Gas, out-of-gas reverts, events and the `empty` counter of the CPUHeavy contract.
- `quickSortSingle` has no member of its own: its text is `quickSort` on the stored array, and `Contract.SortSingle` calls `QuickSort` on it.
- Senders outside the nonce protocol: `TransferUnsignedTx` (the node chooses the nonce), the setup transactions with fixed nonces (`klayslave/account/contract.go:817-873`), and a deployment with the nonce fixed to 0. Other clients that use the same account are excluded, too.
- The wrap-around of 64-bit nonces: a nonce is an unbounded natural number.
- AccountNonce.Account.SendUntilAccepted: does not model the outer loop of RunWithRetry, which waits for the receipt. Its reset of the nonce is the step ResetByRetry of the nonce protocol. The node has finitely many errors to give that are neither acceptance nor a nonce error; with endless ones the loop need not end.
- TransferCheck.AlarmsExactly: does not model a failed GetBalance. A receipt stands for a successful transfer, and the fee is gas used times the price offered. Nobody else sends from or to the accounts, and transfers are mined in any order, also against the order of nonces.
- NonceProtocol.UnlockedFetchHarmless: is exact for the invariant; for the property itself UnlockedFetchExact is, for the senders that it names. For gasless pairs and bids of the bidder's own targets before their increment, the condition is sufficient only.
- Slices that share an array, in the token queues and the account lists: modelled by sequences, so sharing is not captured. Each queue is only ever reached through its own map entry.
- Agreement of the ERC721 ledger with the ownership on the chain: the ledger moves a token as soon as it is sent.
- HashPool.TestCase.Run: models calls one after the other. Calls that start together can read before the first hash has been added.
- `ClientPool.max`: stored, never enforced, so nothing is claimed about it. `Free` of a client that is not lent is not modelled.
- SequentialLedger.Ledger.ChargeTokens: charges the accounts one after the other; TokenCharging.ChargedInAnyInterleaving has them charged at the same time.
- A negative `--charge`: its transfers have negative values, which the client library refuses.
- Funding.FundingSuffices: does not count transaction fees, nor a charge that is sent again after a failed wait; the four spare units are there for the former.
- The accounts and their random choice, weights, command-line parsing, version strings and resource limits; the many test cases that send one transaction each.
