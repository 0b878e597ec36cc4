# Peggo bridge orchestrator: a verified model

Peggo ferries Ethereum bridge events to Injective and relays signed batches and validator sets
back. This project models the parts of it that carry state, concurrency or arithmetic, and proves
what they keep in every run. `dafny verify dfyconfig.toml` checks everything.

| files | what they model |
|---|---|
| `Bridge`, `OracleSpec`, `OracleRetries`, `OracleReads`, `OracleSafety`, `OracleTheorems`, `OracleRuns`, `OracleLimits`, `Oracle` | the oracle: one round, its retries, restarts, and every run against a moving environment |
| `NonceCache`, `Committer` | the nonce cache and the send loop, as steps of concurrent goroutines and as a class |
| `Abi`, `Messages`, `MessageBytes` | what validators sign and what relayers submit, up to the bytes before hashing |
| `Rounding`, `Threshold` | the 66 percent test through decimal, float64 and float32 |
| `Repack` | confirmations repacked into five parallel arrays |
| `Valsets`, `ValsetSearch` | the comparison that sorts in place, and the backward search |
| `ParanoidGroup` | the error channel, the closer and the polling loop, in every interleaving |
| `PendingTx` | the window of 100 pending inputs |
| `Hex`, `Denom` | addresses and hexadecimal text, peggy denoms |
| `Members`, `Sorting`, `Options` | members of a validator set, sorting as a library promises it, a missing value |

## The oracle's environment

A script is an infinite sequence of turns. Each call of the oracle, to either chain, takes one
turn: first the environment makes any number of moves, then the call ends as the turn says. A
theorem about every script is a theorem about every interleaving.

* Event nonces count from 1 in log order; heights do not go down along the log; several events may
  share a block.
* A fork may shorten or lengthen the chain and replace every event with fewer than 12 blocks on
  top of it, at any moment. `peak` is the highest head there ever was; the head stays within 12
  blocks of it. An event with 12 blocks or more below the peak stays.
* Injective includes a claim only at the last nonce plus one; a claim carries the height of its
  event. The last claim may also be moved forward from elsewhere, to any confirmed event.
* A claim may be included and reported as a success, refused, included but reported as an error, or
  dropped after it was reported as a success. A crash may end the process at any call. `Loses`
  says of a round that its last call was a claim that is dropped.

The invariant `Safe(world, observed)` says that each event strictly below the observed height is
claimed and that no fork can reach below that height any more.

Dropped claims are what can break it, and exactly these: a drop that a later claim of the same
round follows makes that claim fail, and the retry sends both again. So a round of this oracle alone
is caught up to its new height exactly if its last call was not a dropped claim
(`OracleLimits.SentCatchesExactly`), it leaves as many events unclaimed as its calls end with dropped
claims, and the invariant survives even that exactly if those events are all in the last scanned
block (`OracleLimits.RoundLosesExactly`). A run in which no round ends on a dropped claim keeps the
invariant (`OracleRuns.RunSafe`).

## Where the code decides otherwise

* `orchestrator/loops/paranoid_group.go:48-49` says that Wait returns an error if a task failed.
  Wait may return nil after it has received every error (`ParanoidGroup.LostError`). The promise
  holds in all interleavings exactly for groups in which no task fails or some task never ends
  (`ParanoidGroup.PromiseKeptExactly`).
* `orchestrator/ethereum/committer/eth_committer.go:202` says that "known transaction" skips one
  nonce. The incremented nonce is stored in a new variable, so the same nonce is sent again, without
  a bound, while the cache moves on (`Committer.KnownRepeats`, `Committer.KnownDrifts`).
* The 66 percent test accepts 164 values of power that are just below 66 percent
  (`Threshold.VerdictWindow`).
* The signed and the submitted tuple differ exactly if a nonce, a timeout or a power is 2^63 or
  more (`Messages.ValsetSubmittedAsSigned`, `Messages.BatchSubmittedAsSigned`).
* The final length check of the denom parser never decides anything (`Denom.AcceptsExactly`).

## Model

| member | source | states |
|---|---|---|
| `OracleRuns.ClaimsStand` | orchestrator/oracle.go:53-135 | in every run, with forks between any two calls, failures, crashes and restarts: claims extend the last claim by consecutive nonces in log order, and no claimed event is ever reorganised out |
| `OracleRuns.RunSafe` | orchestrator/oracle.go:53-135 | in every run of which no round ends on a dropped claim, each event strictly below the observed height is claimed, whatever exits, earlier drops, outside advances, crashes and restarts occur |
| `OracleRuns.GapsNeedDrops` | orchestrator/oracle.go:121-125 | after a gap reset no second one follows, any number of steps and restarts later, unless a round in between has ended on a dropped claim |
| `OracleRuns.CatchUp` | orchestrator/oracle.go:82-98 | with a fixed head, no failures and the invariant, exactly ceil((head-12-observed)/2000) rounds bring the height to head-12 with every event up to there claimed; before that the height grows by whole windows and never overshoots |
| `OracleRuns.CalmRun` | orchestrator/oracle.go:95-98 | the height and the claims after any number of such rounds |
| `OracleRuns.StartKeeps` | orchestrator/orchestrator.go:84-98 | every start, whether the last claim was read or not, establishes the invariant and claims nothing |
| `OracleRuns.StartChooses` | orchestrator/orchestrator.go:84-98 | which height a start chooses: that of the last claimed event after two calls, the contract's start height after three if that is 0 or could not be read; the process is up in these cases only |
| `OracleTheorems.RoundSafe` | orchestrator/oracle.go:53-135 | every exit of a round keeps the invariant unless the last call of the round is a dropped claim |
| `OracleTheorems.RoundRestores` | orchestrator/oracle.go:115-132 | from any world, broken or not: a round that claims or resets ends with the invariant unless its last call is a dropped claim; a round without news has it exactly if nothing below the old height was missed |
| `OracleTheorems.GapMeansMissed` | orchestrator/oracle.go:121-125 | the gap exit is taken exactly if there is news and an event below the observed height is unclaimed |
| `OracleTheorems.GapResets` | orchestrator/oracle.go:121-125 | a gap resets the height to that of the last claimed event in the log, 0 if none is claimed: no claimed event is above it |
| `OracleTheorems.RoundBatchMeans` | orchestrator/oracle.go:100-113 | the batch of a round is the set of log events in the scanned range above the last claim, ascending |
| `OracleTheorems.RoundClaimsExactly` | orchestrator/oracle.go:110-132 | the claims of a successful round that does not end on a dropped claim are exactly its batch, each once and in order, whatever attempts failed or were dropped part-way; an event is missing only where the last claim was moved past it from elsewhere |
| `OracleTheorems.RoundKeeps` | orchestrator/oracle.go:53-135 | whatever happens, a round leaves a valid world and claims only events of its batch |
| `OracleTheorems.ActClaimsExactly` | orchestrator/oracle.go:127-132 | the same for the sending half alone |
| `OracleLimits.SentCatchesExactly` | orchestrator/oracle.go:127-132 | after sending, the new height is caught up if and only if the last call of the round was not a dropped claim or the last claim was moved past the batch from elsewhere |
| `OracleLimits.RoundLosesExactly` | orchestrator/oracle.go:127-132 | without anybody else, exactly as many of the last events stay unclaimed as the calls of the round end with dropped claims; the invariant holds if and only if these are all in the last scanned block |
| `OracleLimits.DropBreaksInvariant` | orchestrator/cosmos/peggy/broadcast.go:41-45 | one dropped claim is enough to pass over an unclaimed event |
| `OracleLimits.RestartBlockMustBeRescanned` | orchestrator/orchestrator.go:84-92 | the block of the last claim can hold unclaimed events, so a start one block later would not be safe |
| `OracleSafety.LookAroundKeeps` | orchestrator/oracle.go:58-113 | after all reads, the batch is what is pending in the log as it is by then, and everything scanned is confirmed |
| `OracleRetries.RoundStops` | orchestrator/oracle.go:58-93 | exactly when a round stops as inactive, too short or up to date, by the first two reads; whatever stops it, its height stays |
| `OracleRetries.ScanReaches` | orchestrator/oracle.go:88-98 | a scan ends at the confirmed head that was read or at the end of its window, whichever comes first, and that is the new height |
| `OracleRetries.ReadEnds` | orchestrator/orchestrator.go:133-140 | a read ends with the first of its attempts that is no error and fails exactly if all of them are |
| `OracleRetries.FetchEnds` | orchestrator/oracle.go:195-197 | a fetch ends as the first of its attempts that does not fail, and fails exactly if all do |
| `OracleRetries.FetchOnceEnds` | orchestrator/oracle.go:142-165 | one attempt succeeds exactly if its five queries do |
| `OracleRetries.SendEnds` | orchestrator/oracle.go:261-263 | sending ends as the first of its attempts that does not fail, and fails exactly if all do |
| `OracleSafety.SendClaims` | orchestrator/oracle.go:235-266 | under any pattern of failing attempts only events of the batch are claimed, and a success has reached the last of them exactly if its last call was not a dropped claim or somebody else moved the last claim there |
| `OracleRuns.SendResumes` | orchestrator/oracle.go:236-259 | from any last claim within the batch, as a failed attempt may leave it, an attempt without failures claims exactly the rest of the batch |
| `OracleSafety.PendingFirst` | orchestrator/oracle.go:121-125 | the first new event continues the last claim exactly if all events below the scanned range are claimed |
| `OracleSafety.ClaimHeightIsSafe` | orchestrator/oracle.go:121-125 | the height of the last claim is always a safe height to restart from |
| `OracleSafety.SafeStays` | orchestrator/oracle.go:88-93 | no fork and no outside advance breaks the invariant |
| `OracleReads.FetchKeeps` | orchestrator/oracle.go:137-200 | a fetch that succeeds, after any failed attempts and with forks between its five queries, holds exactly the events of the range, each once |
| `OracleReads.QueryStays` | orchestrator/oracle.go:142-165 | a query over confirmed blocks gives the same answer in every later world |
| `OracleReads.KindsCoverWindow` | orchestrator/oracle.go:142-190 | the five event kinds together are all events of the range |
| `OracleReads.BatchIsPending` | orchestrator/oracle.go:110-113 | filtering and sorting the fetched events gives one stretch of the log |
| `OracleReads.PendingMeans` | orchestrator/oracle.go:110-113 | that stretch holds exactly the events of the range above the last claim, ascending |
| `Oracle.EthOracle.constructor` | orchestrator/oracle.go:29-47 | the oracle starts from the given height |
| `Oracle.EthOracle.ObserveEthEvents` | orchestrator/oracle.go:53-135 | the imperative round has the exit, the new height and the network effects of `OracleSpec.Round`, about which the theorems speak; after a gap the height is that of the last claimed event |
| `Oracle.EthOracle.ClaimUpTo` | orchestrator/oracle.go:100-134 | the same for the half after the range is fixed |
| `Oracle.EthOracle.IsBonded` | orchestrator/oracle.go:65-70 | true exactly if the address is among the members |
| `Oracle.EthOracle.GetLatestEthHeight` | orchestrator/oracle.go:202-219 | at most the configured number of attempts; the head at the one that succeeded |
| `Oracle.EthOracle.GetLastClaimEvent` | orchestrator/oracle.go:221-233 | at most the configured number of attempts; the last claim at the one that succeeded |
| `Oracle.EthOracle.QueryKinds` | orchestrator/oracle.go:142-165 | the queries in order, up to the first that fails |
| `Oracle.EthOracle.ScanEthEvents` | orchestrator/oracle.go:139-193 | one attempt: the five results in the order they are appended |
| `Oracle.EthOracle.GetEthEvents` | orchestrator/oracle.go:137-200 | at most the configured number of attempts, nothing of a failed one is kept |
| `Oracle.EthOracle.SendOnceMore` | orchestrator/oracle.go:236-259 | one attempt: the last claim is read again, what is newer is claimed one by one up to the first error |
| `Oracle.EthOracle.SendNewEventClaims` | orchestrator/oracle.go:235-266 | at most the configured number of attempts |
| `Oracle.FilterEvents` | orchestrator/oracle.go:302-310 | the events above the nonce, in order |
| `Oracle.GetLastClaimBlockHeight` | orchestrator/orchestrator.go:124-131 | the height of the last claim, 0 after an error |
| `Oracle.StartValidatorMode` | orchestrator/orchestrator.go:81-102 | the start, with its two fatal reads, computes `OracleSpec.Start` and chooses the height as `StartChooses` says; the oracle attempts each call ten times |
| `Committer.SendsIncrease` | orchestrator/ethereum/committer/eth_committer.go:147-217 | in every interleaving of any number of calls and for any replies: one goroutine at a time in the guard, the cache never below the nonce in use, accepted nonces strictly increasing between two resyncs |
| `Committer.StepKeeps` | orchestrator/ethereum/committer/eth_committer.go:147-217 | each step of each goroutine keeps the invariant behind that |
| `Committer.HonestCallsSucceed` | orchestrator/ethereum/committer/eth_committer.go:176-198 | against a node that takes only its pending nonce, from any content of the cache and in every interleaving: each call that returns has succeeded with at most two sends, and the cache is the pending nonce whenever the guard is free after a first return |
| `Committer.HonestStepKeeps` | orchestrator/ethereum/committer/eth_committer.go:147-217 | each step keeps the invariant behind that |
| `Committer.HonestCallsReturn` | orchestrator/ethereum/committer/eth_committer.go:151-216 | against that node, after any interleaving, the call in the guard has returned with success and at most two sends once it has taken eight more turns, whatever the others do |
| `Committer.HonestReturns` | orchestrator/ethereum/committer/eth_committer.go:151-216 | the same from every state of the invariant, with the number of turns that are left |
| `Committer.HonestProgress` | orchestrator/ethereum/committer/eth_committer.go:151-216 | the call in the guard comes nearer to its end with each of its steps |
| `Committer.HonestOthersWait` | orchestrator/ethereum/util/noncecache.go:36-42 | steps of others change nothing for the call in the guard |
| `Committer.KnownRepeats` | orchestrator/ethereum/committer/eth_committer.go:201-206 | k replies "known transaction" send the same nonce k times and raise the cache by k, for every k |
| `Committer.KnownDrifts` | orchestrator/ethereum/committer/eth_committer.go:201-206 | a success after k such replies leaves the cache k above the next nonce |
| `Committer.LoopPass` | orchestrator/ethereum/committer/eth_committer.go:151-216 | the steps of the loop are its passes, one after the other |
| `Committer.PassIsSteps` | orchestrator/ethereum/committer/eth_committer.go:151-216 | one pass changes the cache and the goroutine as its two or four steps do |
| `Committer.EthCommitter.constructor` | orchestrator/ethereum/committer/eth_committer.go:50-53 | the cache starts from the pending nonce, from 0 if the node does not answer |
| `Committer.EthCommitter.HandleReply` | orchestrator/ethereum/committer/eth_committer.go:165-215 | what follows a reply: the result or the next nonce, and the new cache; other accounts stay |
| `Committer.EthCommitter.SendTx` | orchestrator/ethereum/committer/eth_committer.go:147-217 | the loop as a method is the sequence of steps over which the interleavings are taken; by the texts of the node's answers it gives the result and the cache, for each branch of the switch |
| `Committer.LoopAnswers` | orchestrator/ethereum/committer/eth_committer.go:165-215 | the same for the passes of the loop: which answers end the call with which cache, an error about the nonce sends the pending nonce next and a second one ends the call, "known transaction" keeps the nonce and raises the cache |
| `Committer.LowNonceResyncs` | orchestrator/ethereum/committer/eth_committer.go:181-198 | any text around "nonce too low" without "invalid sender", then an acceptance: the pending nonce is sent and the cache is one above it |
| `Committer.ClassifyExactly` | orchestrator/ethereum/committer/eth_committer.go:176-214 | which error texts fall into which class, in the order of the switch |
| `Committer.ContainsExactly` | orchestrator/ethereum/committer/eth_committer.go:177-183 | a text contains a part exactly if the part stands at some position in it |
| `NonceCache.Cache.Get` | orchestrator/ethereum/util/noncecache.go:44-52 | the stored nonce, or 0 which is then stored |
| `NonceCache.Cache.Set` | orchestrator/ethereum/util/noncecache.go:54-60 | stores the nonce, other accounts stay |
| `NonceCache.Cache.Incr` | orchestrator/ethereum/util/noncecache.go:62-72 | one more, counted from 0 if absent |
| `NonceCache.Cache.Decr` | orchestrator/ethereum/util/noncecache.go:74-84 | one less, counted from 0 if absent |
| `NonceCache.Cache.Sync` | orchestrator/ethereum/util/noncecache.go:86-95 | stores the answer; an error leaves the cache as it is |
| `Messages.ValsetDetermined` | orchestrator/ethereum/peggy/message_signatures.go:27-68 | the bytes before hashing determine the peggy ID and the valset, for any number of members |
| `Messages.BatchDetermined` | orchestrator/ethereum/peggy/message_signatures.go:81-118 | the bytes before hashing determine the peggy ID and the batch, for any number of transfers |
| `Messages.ValsetIsNoBatch` | orchestrator/ethereum/peggy/message_signatures.go:27-118 | no valset has the bytes of a batch |
| `Messages.ValsetSubmittedAsSigned` | orchestrator/ethereum/peggy/valset_update.go:46-55 | the submitted valset tuple is the signed one exactly if nonce and powers are below 2^63 |
| `Messages.BatchSubmittedAsSigned` | orchestrator/ethereum/peggy/submit_batch.go:39-42 | the submitted batch tuple is the signed one exactly if nonce and timeout are below 2^63 |
| `Messages.WordsAgree` | orchestrator/ethereum/peggy/message_signatures.go:35 | the conversion through int64 keeps numbers apart and is the identity exactly below 2^63 |
| `Messages.ConvertedMembers` | orchestrator/ethereum/peggy/message_signatures.go:31-36 | the address and power columns as they are signed |
| `MessageBytes.EncodeValsetConfirm` | orchestrator/ethereum/peggy/message_signatures.go:27-68 | the bytes of the signed valset tuple, each in its place; a panic exactly without a reward amount |
| `MessageBytes.EncodeTxBatchConfirm` | orchestrator/ethereum/peggy/message_signatures.go:81-118 | the bytes of the signed batch tuple, each in its place |
| `MessageBytes.ValsetBytes` | orchestrator/ethereum/peggy/message_signatures.go:27-58 | bytes 0 to 31 are the peggy ID, then "checkpoint" and zeros, the nonce, the two offsets, the reward, the token behind twelve zeros, then both arrays with their lengths |
| `MessageBytes.BatchBytes` | orchestrator/ethereum/peggy/message_signatures.go:81-108 | the same for the eight arguments of a batch and its three arrays |
| `Abi.BigEndian` | orchestrator/ethereum/peggy/message_signatures.go:137-169 | numbers stand with their most significant byte first |
| `Messages.ValidatorsAndPowers` | orchestrator/ethereum/peggy/valset_update.go:161-172 | the address and power columns as they are submitted |
| `Messages.GetBatchCheckpointValues` | orchestrator/ethereum/peggy/submit_batch.go:153-165 | the three columns of a batch, in order |
| `Abi.DecodeEncoded` | orchestrator/ethereum/peggy/message_signatures.go:137-169 | following the offsets of the Solidity ABI head and tail layout gives back every argument |
| `Abi.EncodeInjective` | orchestrator/ethereum/peggy/message_signatures.go:137-169 | argument lists of one shape with the same bytes are equal |
| `Threshold.InsufficientExactly` | orchestrator/ethereum/peggy/peggy_contract.go:143-153 | the verdict through decimal, float64 and float32 is exactly power < 2834678251 |
| `Threshold.VerdictWindow` | orchestrator/ethereum/peggy/submit_batch.go:210-213 | the verdict is monotone, accepts whatever the exact 66 percent test accepts, and differs from it for exactly 164 powers just below the boundary |
| `Rounding.RoundIsNearest` | orchestrator/ethereum/peggy/peggy_contract.go:151-152 | the rounding to p bits is to a nearest number with p bits, for every p and every fraction |
| `Repack.ReturnedArrays` | orchestrator/ethereum/peggy/submit_batch.go:183-213 | the five arrays hold the members in order; r and s are the first 64 bytes of the signature that is used and v its last byte, zeros without a confirmation; v is nonzero exactly for those who confirmed, and the power at nonzero v is the power that was compared with the threshold |
| `Repack.CountedPower` | orchestrator/ethereum/peggy/valset_update.go:185-219 | counted power depends only on which members confirmed (not on order, repetitions or strangers), is at most the total, all of it if all confirmed and 0 if none did, and never falls when confirmations are added |
| `Repack.PanicsExactly` | orchestrator/ethereum/peggy/peggy_contract.go:127-141 | the call panics exactly if the signature found for some member has fewer than 65 bytes |
| `Repack.BuildAligns` | orchestrator/ethereum/peggy/submit_batch.go:190-209 | alignment of the five arrays |
| `Repack.MarkedIsSigned` | orchestrator/ethereum/peggy/submit_batch.go:188-210 | the powers summed over nonzero v are the signed power |
| `Repack.SigToVRS` | orchestrator/ethereum/peggy/peggy_contract.go:127-141 | r and s are the first 64 bytes, v the next with 0 and 1 as 27 and 28, never 0; a panic exactly below 65 bytes |
| `Repack.SignatureRoundTrip` | orchestrator/cosmos/peggy/broadcast.go:128 | the 130 hexadecimal digits of r, s and v, as they are stored, give back r, s and v |
| `Repack.LastSignature` | orchestrator/ethereum/peggy/submit_batch.go:183-186 | of several confirmations of one signer the last is used |
| `Repack.PackMembers` | orchestrator/ethereum/peggy/submit_batch.go:188-215 | the loop over the members and the threshold, as specified by `Build` and `SignedPower`; the arrays hold the bytes of each signature |
| `Repack.CheckBatchSigsAndRepack` | orchestrator/ethereum/peggy/submit_batch.go:167-216 | the batch version computes `Check` of its confirmations; the arrays hold the bytes of each signature |
| `Repack.CheckValsetSigsAndRepack` | orchestrator/ethereum/peggy/valset_update.go:174-220 | the valset version computes the same `Check`, so both agree on matching inputs; the arrays hold the bytes of each signature |
| `ValsetSearch.FindLatestEvent` | orchestrator/relayer.go:300-348 | for a head above 0 the backward search finds what one scan of the whole log finds, not-found exactly if the log has none, within ceil(head/2000) windows and with exactly the queries it needs; always not-found at head 0; a failing query ends it |
| `ValsetSearch.SearchWindow` | orchestrator/relayer.go:310-327 | one window: the update with the greatest nonce, none exactly if the window has none |
| `ValsetSearch.FailsExactly` | orchestrator/relayer.go:310-313 | the search fails exactly if one of the queries it needs does |
| `ValsetSearch.ScanFindsGreatest` | orchestrator/relayer.go:279-283 | that scan finds the update with the greatest nonce up to the head |
| `ValsetSearch.HighestFirst` | orchestrator/relayer.go:315-319 | the reversed sort puts a greatest nonce first |
| `ValsetSearch.BuildMembers` | orchestrator/relayer.go:335-340 | the members of the event; a panic exactly if a power has no validator |
| `ValsetSearch.EventMemberAt` | orchestrator/relayer.go:335-340 | member i carries power i modulo 2^64 and address i |
| `ValsetSearch.FindLatestValsetOnEth` | orchestrator/relayer.go:284-349 | the error of each of the four reads, exactly when; otherwise a new valset of the latest event with the verdict of its comparison with the set on Injective; both member lists are sorted in place exactly if they were compared |
| `Valsets.CheckIfValsetsDiffer` | orchestrator/relayer.go:370-409 | the five outcomes; with equal nonces and lengths an error is logged exactly if the member multisets differ, and both lists end in canonical order |
| `Valsets.SortedIsCanonical` | orchestrator/relayer.go:414-422 | the sort permutes, reaches the canonical order, and changes nothing exactly if it is there already |
| `Valsets.SameSorted` | orchestrator/relayer.go:398-408 | two lists sort to the same list exactly if they are the same multiset |
| `Valsets.OrderIsTotal` | orchestrator/relayer.go:415-421 | power descending, then address, is total and only equal members tie |
| `Valsets.AddressesCompare` | orchestrator/ethereum/util/peggy.go:30-32 | exactly one of less, greater and equal |
| `Valsets.Valset.Sort` | orchestrator/relayer.go:414-422 | the members are permuted; powers do not rise, and equal powers have their addresses in byte order |
| `Valsets.LessThanMeans` | orchestrator/ethereum/util/peggy.go:30-32 | less means a proper prefix or a smaller byte at the first difference |
| `Valsets.CountErrors` | orchestrator/relayer.go:401-408 | no error exactly if the lists are equal |
| `Valsets.HasDuplicates` | orchestrator/relayer.go:425-431 | true exactly if two positions hold the same address |
| `ParanoidGroup.PromiseKeptExactly` | orchestrator/loops/paranoid_group.go:48-83 | in all interleavings an error is returned if and only if a task failed, exactly for groups in which no task fails or some task never ends |
| `ParanoidGroup.NilIsReachable` | orchestrator/loops/paranoid_group.go:62-66 | if every task ends, some interleaving lets Wait return nil, whatever errors it received |
| `ParanoidGroup.LostError` | orchestrator/loops/paranoid_group.go:62-66 | one task that fails, and nil is returned |
| `ParanoidGroup.NilMeansAllDone` | orchestrator/loops/paranoid_group.go:50-66 | nil only after every task has finished and every error was received |
| `ParanoidGroup.ErrorsAreReal` | orchestrator/loops/paranoid_group.go:68-77 | an error result is not empty and made of errors that distinct tasks returned |
| `ParanoidGroup.NoPanic` | orchestrator/loops/paranoid_group.go:35-55 | with at least one task nothing is ever sent on the closed channel |
| `ParanoidGroup.SendBlocks` | orchestrator/loops/paranoid_group.go:28-40 | a failed task waits at the channel exactly while ten errors are in it |
| `ParanoidGroup.RunKeeps` | orchestrator/loops/paranoid_group.go:21-83 | the invariant of every interleaving: what was sent is in the channel or in the list, once each |
| `ParanoidGroup.ErrorUnblocks` | orchestrator/loops/paranoid_group.go:10-12 | while a task still goes on, an error that was sent makes Wait return all errors that are there, after one turn for each in the channel and one more |
| `ParanoidGroup.Group.constructor` | orchestrator/loops/paranoid_group.go:21-42 | the group before its first step |
| `ParanoidGroup.Group.Wait` | orchestrator/loops/paranoid_group.go:50-83 | the polling loop, with any steps of the other goroutines before each turn, is one of the interleavings |
| `ParanoidGroup.Group.Others` | orchestrator/loops/paranoid_group.go:35-55 | the goroutines' steps on the shared fields |
| `PendingTx.InputList.Receive` | orchestrator/ethereum/peggy/pending_transactions.go:92-96 | after any additions the list is exactly the last min(100, n) relevant inputs in arrival order |
| `PendingTx.InputList.AddPendingTxInput` | orchestrator/ethereum/peggy/pending_transactions.go:23-42 | one addition; a panic exactly below four bytes |
| `PendingTx.InputList.IsPendingTxInput` | orchestrator/ethereum/peggy/pending_transactions.go:56-68 | the first match decides; with arrival times that never go back, true exactly if a match is retained and all retained matches are within the wait |
| `PendingTx.IsBatchOrValsetUpdateTx` | orchestrator/ethereum/peggy/pending_transactions.go:44-54 | relevance by the first four bytes |
| `PendingTx.NewestNext` | orchestrator/ethereum/peggy/pending_transactions.go:34-41 | trimming at each addition is the same as trimming once at the end |
| `PendingTx.RelevantInOrder` | orchestrator/ethereum/peggy/pending_transactions.go:25-27 | the filter keeps exactly the relevant inputs, and their order in time |
| `PendingTx.RelevantCounts` | orchestrator/ethereum/peggy/pending_transactions.go:25-27 | each relevant input is kept as often as it arrives, others never |
| `Denom.TokenRoundTrip` | orchestrator/ethereum/util/peggy.go:65-98 | a printed token is parsed back with the same contract and amount, for every address and every amount a coin can hold |
| `Denom.CoinRoundTrip` | orchestrator/ethereum/util/peggy.go:65-98 | an accepted coin prints back to itself up to the case of hexadecimal letters if and only if a coin can hold its amount; otherwise printing panics |
| `Denom.AcceptsExactly` | orchestrator/ethereum/util/peggy.go:101-123 | the parser accepts exactly "inj/" followed by a valid address; its length check is never reached |
| `Denom.RejectsExactly` | orchestrator/ethereum/util/peggy.go:102-121 | which error a rejected denom gets: by its number of separators, then the prefix, then the address |
| `Denom.JoinSplit` | orchestrator/ethereum/util/peggy.go:102 | splitting at the separator loses nothing |
| `Denom.SplitOnce` | orchestrator/ethereum/util/peggy.go:102 | one separator gives the two parts around it |
| `Hex.AddressRoundTrip` | orchestrator/ethereum/util/peggy.go:66 | reading a printed address gives it back, however its letters are cased |
| `Hex.PrintRead` | orchestrator/ethereum/util/peggy.go:95 | printing a read address gives its text back up to case |
| `Hex.HexTextRoundTrip` | orchestrator/ethereum/peggy/peggy_contract.go:128 | bytes are read back from their hexadecimal text, with or without a prefix |
| `Hex.PairFirst` | orchestrator/ethereum/peggy/peggy_contract.go:128 | two digits make a byte, the first counts sixteen |
| `Hex.DigitMeans` | orchestrator/ethereum/peggy/peggy_contract.go:128 | a digit counts its place among 0 to 9 and a to f, in either case |
| `Hex.AddressAlignment` | orchestrator/ethereum/peggy/submit_batch.go:195 | an address is aligned to the right of its bytes, cut or filled with zeros in front |

## Left out

- Integer width: heights, nonces and cached nonces are unbounded; the wrap-around of uint64 and int64 counters is modelled only in the signed words and in the powers of valset events.
- `Oracle.EthOracle.ObserveEthEvents`: does not model the pauses between claims and between attempts, nor a cancelled context; a script turn stands for any delay. A retry count of 0, which the retry library takes as no limit, is not modelled; the program uses 10.
- Reorganisations deeper than 12 blocks, and claims for unconfirmed events made from elsewhere: outside the environment that the confirmation delay is made for.
- `Oracle.EthOracle.QueryKinds`: does not model how the contract bindings decode log entries; a query returns the log's events of one kind and range.
- `Committer.EthCommitter.SendTx`: does not model the gas price and gas limit guards before the guarded part (eth_committer.go:98-134); each ends the call before it touches the cache.
- Hashing, signing and the checksum casing of printed addresses: casing is a parameter, and statements about signatures are about the bytes before hashing.
- `MessageBytes.EncodeTxBatchConfirm`: does not model the failure to pack, which yields a zero hash; with typed arguments packing cannot fail.
- `Messages.ValsetDetermined`, `Messages.BatchDetermined`, `MessageBytes.ValsetBytes`, `MessageBytes.BatchBytes`: for amounts below 2^256 and encodings shorter than 2^256 bytes, as the ABI has no words for more.
- `Rounding.Round`: exponents are unbounded, since no power that fits in memory reaches the limits of float64 or float32; the proofs about the threshold do not depend on how ties are rounded.
- `Sorting.SortBy`: stands for sort.Slice and sort.Sort, of which only an ordered permutation is used; where elements that compare equal are equal there is only one.
- `ValsetSearch.FindLatestEvent`: the log does not change between the queries of one search.
- `Valsets.CheckIfValsetsDiffer`: addresses are compared as text, as in the source, so two spellings of one address count as different.
- `ParanoidGroup.Group.Wait`: all tasks are started before the one call of Wait; the pause in the loop is not modelled.
- `PendingTx.InputList.IsPendingTxInput`: the subscription and the senders share the list without a lock in the source; the model takes one operation at a time. The selectors of the two contract methods are parameters.
- Relay selection with its time offsets, the signer, the batch creator, the price feed, the loop timer, network clients, metrics and the command line are not modelled.
- orchestrator/ethereum/peggy/send_to_cosmos.go: it packs a method that the contract's method list does not have.
