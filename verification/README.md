# Verified model of the CKB test kit and benchmark

The repository drives CKB nodes for integration tests and benchmarks them. This project models the parts of it
that are algorithms or state machines of their own, and proves what they keep, compute and promise. All results
are for every input, every run or every reachable state. `dafny verify dfyconfig.toml` checks the whole project.

| file | what it models |
|---|---|
| `StreamCodec.dfy` | the codec that cuts a byte stream into frames, at a separator or by scanning brackets and strings |
| `Framing.dfy` | draining a buffer, feeding a stream in chunks, independence of the chunks |
| `JsonText.dfy`, `JsonFraming.dfy` | JSON texts with their whitespace (RFC 8259), how the scan runs through them, round trips |
| `Utf8.dfy` | well-formed UTF-8 (section 4 of RFC 3629) |
| `Subscription.dfy`, `SubscriptionTopics.dfy` | the subscription client: requests, notifications put aside while a response is awaited, and what polls yield |
| `Chain.dfy` | hash-linked chains and their common prefix |
| `IndexerSync.dfy` | the rollback/append loop that brings the index in line with a chain that may reorganise |
| `ChainPull.dfy` | the last common header of several nodes, and pulling a chain over |
| `Dispatch.dfy`, `DispatchTheorems.dfy`, `DispatchLedger.dfy` | dispatching the owner's capacity with chained change, and what its transactions pay out |
| `Collect.dfy`, `CollectBatches.dfy` | spendable cells, batches, script groups and witnesses of the collecting transactions |
| `Producer.dfy` | the transaction producer with its two maps, and the cells it is fed |
| `Stat.dfy` | sliding-window throughput |
| `BlockBuilder.dfy`, `BlockLedger.dfy` | building blocks according to instructions, and what the node is handed |
| `Translation.dfy` | the text translation between the 2019 and 2021 RPC formats |
| `Arithmetic.dfy`, `Sequences.dfy`, `Wrappers.dfy` | products and quotients, sums and concatenations, shared types |

Conventions:

- Hashes are constructors over what they are hashes of (a block, a transaction), hence free of collisions.
- Node and network answers are parameters: the templates, chains, frames and verdicts that arrive, in order.
- Panics (underflow, division by zero, `unwrap`, `expect`, `assert!`) are results of their own. Underflow panics as
  in the default build profile. Integers are unbounded; by the conservation results no sum of capacities exceeds the
  owner's total, so none overflows 64 bits as long as that total does not.
- Every induction is written out: no lemma uses Dafny's automatic induction.
- Methods keep the source's loops and are proved against specification functions; the lemmas are about those. Some loops
  and loop bodies are methods of their own.

Findings where the code does less than its comments or documentation suggest:

- A JSON text leaves the scanning decoder at its closing bracket if and only if the whitespace in front of it is shorter
  than its other bytes; otherwise it is held back and joins the next text (`CutAtClosingBracket`, `TwoTextsInOneFrame`).
  In a list of texts, a frame ends at the first text whose other bytes outnumber all whitespace between the last frame
  and it (`JoinedFrames`).
- The scan suits objects and arrays only: a number or literal outside one is cut behind its second byte, and a stray
  closing bracket tears the text behind it (`BareScalarIsCut`, `StrayCloseTearsText`).
- A frame that is not UTF-8 is dropped, but the frames behind it wait for more input, so chunking then matters
  (`ChunkingIndependence`, `InvalidFrameHidesTheNext`).
- Polling panics on a notification put aside while its own topic was being unsubscribed (`StaleNotificationPanics`). Over
  all runs with a node that sends only readable notifications of listed subscriptions, it panics on nothing else
  (`PanicsExactlyWhenStale`).
- The check in front of dispatching does not imply the assertion behind it (`CheckIsNotEnough`; exactly, for one owner
  cell, `SingleCellExact`).
- The reported size of a window is that of all blocks since the first one: a run reports the size of its window if and
  only if that is the first one (`ReportedSizeExact`, `ReportedSizeIsTooLarge`). On timestamps that decrease a run can
  miss the end of a window (`UnsortedScanMisses`), exactly when a start visited is far from a block of the window before
  (`RunFindsWindows`).
- All outputs of a produced transaction pay the user of the cell received last, so the owner of input k gets output k
  back for all k if and only if all inputs belong to one user (`PaysOwnersExactly`, `PaysTheOtherUser`). No run can fail
  in this if and only if transactions have one input, or there are fewer locks than inputs, or only one user
  (`OwnersPaidExactly`).
- With a 2019 client, building a chain never gets past a height with an instruction (`Build2019`), because only a 2021
  client computes the DAO field that each such height needs; the other one panics (`Finish`).
- The 2021-to-2019 translation undoes the other one only on texts without the consensus key, whose inserted
  `hardfork_features` stay (`ConsensusKeepsInsertion`). The code translates back only blocks and transactions
  (ckb-testkit/src/rpc/mod.rs:287, 339 and 408), which have no such key.

## Model

| member | source | states |
|---|---|---|
| StreamCodec.Codec.Decode | ckb-testkit/src/subscribe/mod.rs:112-165 | one call in either mode gives the frame up to the first boundary (or none, or the UTF-8 error) and leaves exactly the bytes behind it; a scan that finds no cut leaves the buffer alone |
| StreamCodec.Codec.Encode | ckb-testkit/src/subscribe/mod.rs:171-178 | the buffer gains the message and the outgoing separator |
| StreamCodec.FindCut | ckb-testkit/src/subscribe/mod.rs:126-163 | the scan with its five locals finds the first cut |
| StreamCodec.FirstCutIsLeast | ckb-testkit/src/subscribe/mod.rs:132-162 | the cut the scan takes is the least position that passes the test, and it finds one whenever there is one |
| StreamCodec.Position | ckb-testkit/src/subscribe/mod.rs:114-122 | the separator found is the first one |
| Framing.DecodeExtends | ckb-testkit/src/subscribe/mod.rs:112-165 | bytes appended to the buffer never change what was cut, they are appended to the remainder; without a boundary nothing changes |
| Framing.DecodeSays | ckb-testkit/src/subscribe/mod.rs:112-165 | a frame is given exactly when there is a boundary with UTF-8 before it; what is not UTF-8 is an error in separator mode and looks like no frame in the other |
| Utf8.ValidIffEncoded | ckb-testkit/src/subscribe/mod.rs:155-160 | the bytes accepted as UTF-8 are exactly the encodings of sequences of Unicode scalar values |
| Framing.ChunkingIndependence | ckb-testkit/src/subscribe/mod.rs:112-165 | all ways of splitting a stream into chunks give the same frames and leftover if and only if a drain of the whole leaves no boundary behind |
| Framing.LinesCleanIffValid | ckb-testkit/src/subscribe/mod.rs:113-124 | with an ASCII separator a stream is UTF-8 if and only if no line of it makes a drain stop and its leftover is UTF-8 |
| Framing.CleanStreams | ckb-testkit/src/subscribe/mod.rs:112-165 | so any chunks of a UTF-8 stream with an ASCII separator, or of a scanned ASCII stream, give the frames of the whole |
| Framing.InvalidFrameHidesTheNext | ckb-testkit/src/subscribe/mod.rs:155-160 | a concrete stream with a frame that is not UTF-8 gives different frames in one chunk and in two |
| JsonText.HeldValue | ckb-testkit/src/subscribe/mod.rs:135-151 | scanning any JSON value inside a container returns to the same depth, outside strings, having never been shallower, with exactly its whitespace counted |
| JsonFraming.CutAtClosingBracket | ckb-testkit/src/subscribe/mod.rs:130-161 | a container behind whitespace is cut at its closing bracket if and only if the whitespace is shorter than its non-whitespace bytes, whatever follows |
| JsonFraming.IncompleteIsKept | ckb-testkit/src/subscribe/mod.rs:132-163 | a container that has not closed is not cut anywhere |
| JsonFraming.JoinedFrames | ckb-testkit/src/subscribe/mod.rs:125-164 | any list of containers in UTF-8 comes out in frames that each end at the first container whose non-whitespace bytes outnumber all whitespace between the frame before and it; those behind the last such container are held back with an unfinished tail |
| JsonFraming.FramesAreTexts | ckb-testkit/src/subscribe/mod.rs:130-161 | those frames are the containers one by one if and only if each has less whitespace in front than other bytes |
| JsonFraming.RoundTripInChunks | ckb-testkit/src/subscribe/mod.rs:125-164 | in any chunks, and with a tail of whitespace or an incomplete text held back, the containers come back as exactly whitespace and value in order if and only if each is UTF-8 and has less whitespace in front than other bytes |
| JsonFraming.EncoderAgainstLines | ckb-testkit/src/subscribe/mod.rs:113-124 | encoded messages come back through the separator decoder if and only if none contains the separator and all are UTF-8 |
| JsonFraming.EncoderAgainstScanner | ckb-testkit/src/subscribe/mod.rs:91-93 | encoded containers come back through the scanning decoder, each later one with the previous newline in front, and the last newline left over |
| JsonFraming.TwoTextsInOneFrame | ckb-testkit/src/subscribe/mod.rs:145-153 | two blanks before an empty object hold it back, and it is emitted together with the array behind it |
| JsonFraming.StringHidesBrackets | ckb-testkit/src/subscribe/mod.rs:135-151 | a concrete text with a bracket, an escaped quote and a tab in a string is cut behind its last byte |
| JsonFraming.BareScalarIsCut | ckb-testkit/src/subscribe/mod.rs:132-162 | a number or literal outside a container is cut behind its second byte, and kept if it has only one |
| JsonFraming.StrayCloseTearsText | ckb-testkit/src/subscribe/mod.rs:135-153 | a closing bracket too many lets the scan cut right behind the next opening one |
| Subscription.Handle.AwaitResponse | ckb-testkit/src/subscribe/mod.rs:333-344 | reads up to the first response, error or end, and puts every other message aside in order |
| Subscription.Handle.SubscribeTopic | ckb-testkit/src/subscribe/mod.rs:409-453 | one request; on success the id maps to the topic and the request id advances, else the list is unchanged; a result that is no string panics |
| Subscription.Handle.SubscribeIfNew | ckb-testkit/src/subscribe/mod.rs:294-310 | nothing happens for a listed topic, and notifications stay in order |
| Subscription.Handle.SubscribeList | ckb-testkit/src/subscribe/mod.rs:226-256 | subscribes every name in turn, duplicates included, and stops at the first error |
| Subscription.Handle.Unsubscribe | ckb-testkit/src/subscribe/mod.rs:313-355 | removes one id of the topic on success and only then; keeps notifications in order |
| Subscription.Handle.UnsubscribeAll | ckb-testkit/src/subscribe/mod.rs:358-366 | on success no topic is left, even when several ids share one topic, after exactly one request per id |
| Subscription.Handle.Poll | ckb-testkit/src/subscribe/mod.rs:376-400 | takes the oldest message put aside, and reads the wire only when there is none |
| Subscription.NotificationOrder | ckb-testkit/src/subscribe/mod.rs:294-453 | over every interleaving of operations, what was delivered, is put aside and is still on the wire are together the notifications of the wire in wire order |
| Subscription.UnsubscribePanicsExactly | ckb-testkit/src/subscribe/mod.rs:323-355 | after a successful unsubscription, with only readable notifications of listed subscriptions put aside, polling what is put aside panics if and only if one of the removed subscription was put aside before or came before the response |
| Subscription.PanicsExactlyWhenStale | ckb-testkit/src/subscribe/mod.rs:313-400 | over every interleaving of operations with a node that sends only readable notifications of listed subscriptions, polls can panic if and only if some unsubscription succeeds with notifications of its subscription put aside |
| Subscription.StaleNotificationPanics | ckb-testkit/src/subscribe/mod.rs:342-348 | a notification put aside during its own unsubscription makes the next poll panic |
| SubscriptionTopics.FirstResponseAnswers | ckb-testkit/src/subscribe/mod.rs:427-449 | the first event that is no notification answers the request; without one the connection has ended |
| SubscriptionTopics.RequestsSent | ckb-testkit/src/subscribe/mod.rs:420-426 | one request for each operation with its method and parameter; its 64-bit id moves on with each granted subscription and each unsubscription |
| SubscriptionTopics.OnlySuccessChangesList | ckb-testkit/src/subscribe/mod.rs:323-355 | what every answer makes of a request, and that the list changes only on success, an unsubscription removing just its id |
| SubscriptionTopics.SubscriptionLists | ckb-testkit/src/subscribe/mod.rs:437-443 | an id in the response stands for the topic from then on, all other ids as before, and the topic is not asked for again |
| SubscriptionTopics.SubscriptionAnswers | ckb-testkit/src/subscribe/mod.rs:377-389 | then polls yield that topic for the new id and what they would have yielded before for every other |
| SubscriptionTopics.PollYields | ckb-testkit/src/subscribe/mod.rs:377-400 | a poll of a listed subscription yields its topic with the notification's own result |
| SubscriptionTopics.ListedAsGranted | ckb-testkit/src/subscribe/mod.rs:294-453 | over every run an id is listed under the topic it was last granted for, unless removed since |
| SubscriptionTopics.RunYieldsGranted | ckb-testkit/src/subscribe/mod.rs:294-453 | so whatever is polled at any point of a run comes with the topic its subscription was last granted for, and its own result |
| SubscriptionTopics.FirstNotification | ckb-testkit/src/subscribe/mod.rs:409-453 | a concrete subscription whose first notification is polled under its topic |
| IndexerSync.WaitForIndexerSynced | ckb-testkit/src/node/indexer.rs:30-60 | terminates; under any reorganisations between calls the index stays linked after every change and ends as a prefix of the chain of the last call; on a chain that stays it passes through exactly the shortest way and ends equal to the chain |
| IndexerSync.SyncOnce | ckb-testkit/src/node/indexer.rs:32-59 | one round rolls back exactly when the index is off the chain its last call saw, else appends that chain's next block, else stops |
| IndexerSync.StepIsNext | ckb-testkit/src/node/indexer.rs:36-48 | each round is the next of (index length - common prefix) rollbacks and (chain length - common prefix) appends |
| IndexerSync.NextBlock | ckb-testkit/src/node/indexer.rs:36-41 | the parent test succeeds if and only if the whole index is a prefix of the chain |
| ChainPull.FixedHeaderIsLastCommon | ckb-testkit/src/nodes/chain.rs:47-63 | returns the highest height at which all nodes agree: they agree at a height if and only if it is not above it; `unreachable!` is reached if and only if they share no genesis |
| ChainPull.PullNode | ckb-testkit/src/node/builder.rs:189-211 | panics exactly when the target is higher; otherwise submits the source's blocks above the last common one, in order, up to the first that is refused |
| ChainPull.FindFixedNumber | ckb-testkit/src/node/builder.rs:193-202 | the downward scan finds the end of the common prefix, or keeps the tip when there is none |
| ChainPull.PullCompletesTheSource | ckb-testkit/src/node/builder.rs:204-210 | the common prefix and the submitted blocks are the source chain |
| ChainPull.PulledBlocksAttach | ckb-testkit/src/node/builder.rs:195-209 | every submitted block has its parent on the target or submitted before, if and only if the genesis is shared or nothing is submitted |
| Chain.SameBlockSamePast | ckb-testkit/src/nodes/chain.rs:53-60 | chains that agree at a height agree below it |
| Dispatch.Dispatch | ckb-bench/src/prepare.rs:35-156 | pre-check and allocation loop do what the round function says, with every panic as an outcome, and terminate |
| Dispatch.AllocateOne | ckb-bench/src/prepare.rs:63-155 | one round: underflow, division by zero, waiting for more inputs, a refused transaction, the last transaction, or one with its change put back |
| Dispatch.NextAdvances | ckb-bench/src/prepare.rs:63-155 | every round that goes on either pays an output or uses up a cell |
| DispatchTheorems.ReachableStateInv | ckb-bench/src/prepare.rs:63-156 | in every reachable state: the owner's capacity is what is queued, pending, paid out, taken as fees and dropped as small change; the outputs paid are exactly the first ones due; no out-point, chained change included, occurs twice |
| DispatchTheorems.NextInv | ckb-bench/src/prepare.rs:63-155 | every round keeps that invariant, the last one up to change left on the chain |
| DispatchLedger.ReachableLedger | ckb-bench/src/prepare.rs:63-156 | in every reachable state each transaction's outputs and the fee of 1000 * 1000 are what its cells hold, less than 67 bytes dropped; only output 0 can be the owner's, with at most 1000 others; each cell spent is the owner's or output 0 of an earlier transaction; the owner's cells go first, in order; and all of the owner's capacity is left, with the users, or burnt |
| DispatchLedger.FinalLedger | ckb-bench/src/prepare.rs:63-156 | the same when dispatching has finished or fallen short, with the last change possibly on the chain only |
| DispatchTheorems.PreCheckExactly | ckb-bench/src/prepare.rs:40-54 | the pre-check stops dispatching exactly when the cells hold at most users * cells per user * (capacity per cell + 1000) |
| DispatchTheorems.TransactionIsNew | ckb-bench/src/prepare.rs:143-154 | the change of a transaction over unspent out-points is a new out-point |
| DispatchTheorems.FinishedPaysEveryone | ckb-bench/src/prepare.rs:88-95 | at completion every user index has exactly its number of outputs of exactly the asked capacity, output k being of user k / cells per user; nothing was spent twice, and the owner had at least outputs and fees |
| DispatchTheorems.FundsSuffice | ckb-bench/src/prepare.rs:214-219 | with cells that cover the fee and one output, fee and change threshold for every output due, the final assertion holds |
| DispatchTheorems.SingleCellExact | ckb-bench/src/prepare.rs:35-156 | from one owner cell it holds if and only if the asked capacity is not 0 and the cell passes the pre-check and covers the outputs, a fee per thousand of them, and a change that is not dropped before more are to come |
| DispatchTheorems.CheckIsNotEnough | ckb-bench/src/prepare.rs:40-54 | a concrete owner cell passes the pre-check and fails the final assertion |
| Collect.GroupScripts | ckb-bench/src/prepare.rs:303-320 | both loops together list each lock once, in order of first occurrence, with its multiplicity |
| Collect.ExpandCounts | ckb-bench/src/prepare.rs:303-320 | the groups hold every lock as often as the inputs do |
| Collect.GroupsAlignIffContiguous | ckb-bench/src/prepare.rs:303-320 | expanding the groups reproduces the inputs' locks position by position if and only if equal locks are contiguous |
| Collect.WitnessPerInput | ckb-bench/src/prepare.rs:321-357 | there is one witness per input, for any inputs |
| Collect.AlignedIffContiguous | ckb-bench/src/prepare.rs:321-357 | each signature covers its whole group and sits at the group's first input, with placeholders everywhere else, if and only if equal locks are contiguous |
| Collect.BuildWitnesses | ckb-bench/src/prepare.rs:324-354 | per group one signature over all its placeholders, then one placeholder fewer than inputs |
| CollectBatches.GetSpendableCells | ckb-testkit/src/user/single_secp256k1.rs:107-155 | the cells by type script, data script and data1 script, filtered |
| CollectBatches.FilterPasses | ckb-testkit/src/user/single_secp256k1.rs:127-155 | exactly the cells that are still live, mature if from a cellbase, and without data pass |
| CollectBatches.FilterIsSubsequence | ckb-testkit/src/user/single_secp256k1.rs:127-155 | filtering keeps the index's order: the cells are those at increasing positions, and exactly the positions that are live, without data, and mature if from a cellbase |
| CollectBatches.SpendableExactly | ckb-testkit/src/user/single_secp256k1.rs:111-155 | a cell is spendable if and only if the index lists it under one of the user's three scripts and it passes the filter |
| CollectBatches.SpendableInOrder | ckb-testkit/src/user/single_secp256k1.rs:111-125 | cells by type script come first, then those by data, then those by data1 |
| CollectBatches.UserIsContiguous | ckb-testkit/src/user/single_secp256k1.rs:111-125 | one user's cells have equal locks together |
| CollectBatches.CollectInputs | ckb-bench/src/prepare.rs:279-361 | one transaction that spends the given cells in order and gives back what they hold less 1000 for each, unless they hold less than that |
| CollectBatches.CollectAll | ckb-bench/src/prepare.rs:244-274 | the loops send one transaction for each batch of `BatchesOf`, in order, the pending rest last; they get to the end if and only if every batch covers its fee |
| CollectBatches.CollectUser | ckb-bench/src/prepare.rs:255-263 | one user's chunks join the pending cells, which go out as a batch as soon as they are 1000 or more |
| CollectBatches.BatchesAreBatching | ckb-bench/src/prepare.rs:244-274 | the batches concatenate to all users' cells in order, each has at most 1999 inputs, all but the last at least 1000 |
| CollectBatches.SplitSizes | ckb-bench/src/prepare.rs:256-263 | the first batch of a user's turn takes up to 1000 of its cells besides the pending ones, every other exactly 1000 |
| CollectBatches.AllCellsAreSpent | ckb-bench/src/prepare.rs:244-297 | all transactions together spend exactly the out-points of all users' spendable cells, in order |
| CollectBatches.EveryBatchIsAligned | ckb-bench/src/prepare.rs:244-357 | with distinct users every transaction spends its batch in order, and the witness at each input is the signature over its whole lock group if it is the group's first, else a placeholder |
| CollectBatches.CollectConserves | ckb-bench/src/prepare.rs:285-291 | the owner gets back everything but 1000 for each input |
| Producer.TransactionProducer.Run | ckb-bench/src/bench.rs:141-246 | transaction i spends batch i of the run, is completed by the recorded cell, and pays all its outputs to that cell's user; the state follows the run until the channel closes |
| Producer.TransactionProducer.Build | ckb-bench/src/bench.rs:165-222 | output k is input k less 1000, in the variant given by the input's transaction index; signature k is that of the owner of input k |
| Producer.TransactionProducer.Requeue | ckb-bench/src/bench.rs:229-243 | whatever the iteration order, putting the backlog back makes exactly it the live cells and leaves no backlog |
| Producer.NextInv | ckb-bench/src/bench.rs:141-244 | live cells stay keyed by lock and fewer than a batch, each backlogged cell has the out-point of the live cell of its lock, a batch has exactly the asked size, and the backlog is empty after it |
| Producer.BatchesOk | ckb-bench/src/bench.rs:154-173 | over all receive sequences every transaction has exactly n_inout inputs (1 for n_inout 0) with pairwise distinct locks |
| Producer.BacklogIsSubmap | ckb-bench/src/bench.rs:143-152 | if an out-point determines its cell, the backlog is part of the live cells |
| Producer.RunConserves | ckb-bench/src/bench.rs:141-244 | every cell received is spent, held or dropped, counted once |
| Producer.DroppedExactly | ckb-bench/src/bench.rs:143-152 | receiving a cell lets go of it exactly when another cell holds its lock, and of an earlier copy in the backlog |
| Producer.RepetitionsComeBack | ckb-bench/src/bench.rs:154-243 | a batch is what was held and the new cell, and after it exactly the backlogged repetitions are live |
| Producer.NoBacklog | ckb-bench/src/bench.rs:143-152 | if no out-point is received twice, nothing is ever backlogged |
| Producer.NoDoubleSpend | ckb-bench/src/bench.rs:141-222 | and nothing is spent twice in the whole run |
| Producer.FeesAreFixed | ckb-bench/src/bench.rs:174-205 | a transaction's fee is 1000 for each input |
| Producer.OutputsFollowInputs | ckb-bench/src/bench.rs:165-222 | input, output and signature k are all of cell k: its out-point, its capacity less 1000 under the payee's script that the transaction index picks, its owner |
| Producer.PaysOwnersExactly | ckb-bench/src/bench.rs:174-205 | every output of a run's transaction pays the owner of the input with its index if and only if all its inputs belong to one user |
| Producer.RunPaysOwnersExactly | ckb-bench/src/bench.rs:141-222 | and all transactions of a run do if and only if each batch of the received cells is of one user |
| Producer.OwnersPaidExactly | ckb-bench/src/bench.rs:154-205 | all runs do, whatever cells are received, if and only if transactions have at most one input, or there are fewer locks than inputs, or all locks belong to one user |
| Producer.PaysTheOtherUser | ckb-bench/src/bench.rs:174-205 | the transaction of two cells of two users pays one of them for the other's input |
| Producer.LiveCellProducer.SendCells | ckb-bench/src/bench.rs:40-64 | exactly the unseen cells not above the least tip are sent, and no out-point is repeated within as many sends as the cache holds |
| Producer.FreshIsSubsequence | ckb-bench/src/bench.rs:40-56 | what is sent is exactly the live cells not seen lately and not above the least tip, in their order |
| Producer.LiveCellProducer.Put | ckb-bench/src/bench.rs:60-61 | a new out-point enters the cache in front and pushes out the oldest if it is full; one that is there moves to the front |
| Producer.SpacedIsDistinct | ckb-bench/src/bench.rs:28-28 | so the first n_users + 11 cells sent have distinct out-points |
| Stat.Stat | ckb-bench/src/stat.rs:41-119 | terminates; underflows if and only if the period is 0; otherwise reports the kept window over all starts visited |
| Stat.ScanFrom | ckb-bench/src/stat.rs:59-75 | the inner loop stops at the first block a period away, with the exact sums up to it |
| Stat.BestIsBest | ckb-bench/src/stat.rs:88-104 | the report is of the first window with the maximal rate among all visited |
| Stat.ReportedIsReport | ckb-bench/src/stat.rs:77-104 | the reported rates are the floors of the window's transactions, and of all sizes since the first block, per second (up to 64 bits), and the averages those over its blocks |
| Stat.InoutIsFirst | ckb-bench/src/stat.rs:69-73 | the number of inputs and outputs is that of transaction 1 of the first block that has one with any |
| Stat.LastStartIsFirst | ckb-bench/src/stat.rs:105-107 | the visited starts are those up to the first whose window reaches the end of the range |
| Stat.RunFindsWindows | ckb-bench/src/stat.rs:56-107 | a run up to any start finds every window of the definition if and only if each start is near all blocks of the window before |
| Stat.SortedScanIsWindow | ckb-bench/src/stat.rs:56-107 | so for timestamps that do not decrease every visited window is the one brute force gives |
| Stat.UnsortedScanMisses | ckb-bench/src/stat.rs:56-107 | a concrete chain with a decreasing timestamp on which a start that is visited gets another window |
| Stat.SizeIsOfWindow | ckb-bench/src/stat.rs:68-109 | the transaction count is that of the window; the size is if and only if the window is the first |
| Stat.ReportedSizeExact | ckb-bench/src/stat.rs:76-111 | a reported window has its own size if and only if it is the first of the range |
| Stat.ReportedSizeIsTooLarge | ckb-bench/src/stat.rs:76-111 | a concrete chain whose report is of the second window with the first block's size added |
| BlockBuilder.Build | ckb-testkit/src/node/builder.rs:54-168 | panics on the wrong consensus or an instruction out of range; otherwise does what the loop function says, whose panics are those of a 2019 client asked for a DAO field and of a block that the node does not process |
| BlockBuilder.LoopDoesNotPanic | ckb-testkit/src/node/builder.rs:83-166 | the loop never panics with a 2021 client whose node processes every block |
| BlockBuilder.Build2019 | ckb-testkit/src/rpc/mod.rs:416-421 | with a 2019 client, building up to the target succeeds only without instructions |
| BlockBuilder.FillBuckets | ckb-testkit/src/node/builder.rs:61-79 | instructions are bucketed by height in the given order |
| BlockBuilder.LoopInv | ckb-testkit/src/node/builder.rs:82-166 | at any time the blocks handed over are numbered consecutively from the tip, and the instructions executed and left are exactly those below and above |
| BlockBuilder.BuildIsFaithful | ckb-testkit/src/node/builder.rs:82-167 | on Ok all blocks up to the target were handed over once each, all instructions executed by height and no bucket left, if and only if no template skipped past the target; templates that only lag never do |
| BlockLedger.BuildHandsOver | ckb-testkit/src/node/builder.rs:82-166 | over every run each height handed over had exactly its transactions broadcast, in order, then one block: the template itself without instructions, else the template extended as instructed with the node's DAO field for it, without verification exactly when instructed; on an error the last height got only some of its broadcasts |
| BlockLedger.WillingNodeSucceeds | ckb-testkit/src/node/builder.rs:82-167 | only a refusal of the node makes building fail |
| BlockBuilder.ByHeightIsSorted | ckb-testkit/src/node/builder.rs:96-98 | the executed trace is sorted by template number |
| BlockBuilder.ByHeightIsStable | ckb-testkit/src/node/builder.rs:75-78 | and keeps the given order within one number |
| BlockBuilder.ByHeightIsPermutation | ckb-testkit/src/node/builder.rs:62-79 | and has each instruction as often as given |
| BlockBuilder.StableSortIsUnique | ckb-testkit/src/node/builder.rs:62-98 | which determines it: it is the stable sort |
| BlockBuilder.ExecuteExtends | ckb-testkit/src/node/builder.rs:97-136 | the block keeps the template's proposals and transactions, gains the instructed ones behind them, once each and in order, has the last instructed timestamp, and skips verification if and only if instructed |
| BlockBuilder.ExecuteBucket | ckb-testkit/src/node/builder.rs:97-136 | the loop over a bucket does the edits one by one and stops at the first refused transaction |
| Translation.ReplaceInverse | ckb-testkit/src/rpc/mod.rs:32-53 | replacing p by an unbordered q absent from the text is undone by replacing q by p |
| Translation.ReplaceRemoves | ckb-testkit/src/rpc/mod.rs:47-52 | replacing removes every occurrence of a pattern that cannot overlap its replacement |
| Translation.ReplaceKeeps | ckb-testkit/src/rpc/mod.rs:35-42 | replacing keeps every occurrence that cannot overlap the pattern |
| Translation.ReplaceAddsNone | ckb-testkit/src/rpc/mod.rs:35-42 | replacing creates no occurrence that cannot overlap the replacement |
| Translation.InsertsFeatures | ckb-testkit/src/rpc/mod.rs:38-42 | the 2021 form of a consensus has an empty `hardfork_features` right in front of its difficulty and is otherwise the same |
| Translation.RenamesMember | ckb-testkit/src/rpc/mod.rs:32-53 | a single `uncles_hash` becomes `extra_hash`, and the other way round |
| Translation.TranslationInverse | ckb-testkit/src/rpc/mod.rs:32-53 | to 2021 and back is the identity if and only if the text has neither the 2021 name nor the consensus key |
| Translation.BackTranslationInverse | ckb-testkit/src/rpc/mod.rs:32-53 | to 2019 and back is the identity if and only if the text has neither the 2019 name nor the consensus key |
| Translation.ConsensusKeepsInsertion | ckb-testkit/src/rpc/mod.rs:38-42 | a concrete consensus does not come back as it was |

## Left out

- Transport, processes, logging, timeouts, sleeps and command lines: I/O without an invariant of its own.
- Serialisation: messages, blocks and transactions are values; the translation is of text only, not of what it parses to.
- Cryptography: a signature is recorded with whose it is and what it covers.
- The framed reader of tokio-util is not part of this model; `Feed` drains the buffer after each chunk, and in separator mode goes on after a UTF-8 error when the next chunk arrives.
- The depth counter of the scan is unbounded; the scan keeps it within the number of bytes read, so 32 bits suffice below 2^31 bytes.
- `unsubscribe_all` and `try_into` drop the messages put aside together with the handle; only the topic list is modelled there.
- The index store of ckb-indexer is not part of this model: append and rollback are push and pop. Pruning is left out.
- Sync under reorganisations is modelled for finitely many chain changes during the loop, any number and anywhere, because with endless changes the loop need not end.
- `waiting_for_sync`: a wait over node answers, which would only add an easy member.
- The loop of `dispatch` that waits for commitment and resends: it changes nothing that the model records.
- Node verdicts on dispatching transactions are a function of the transaction; retries on a full pool are part of one verdict.
- The `f64` rate of `stat`: integer division rounded down, saturating; a zero gap gives 0 for a zero amount, else the largest value, as the casts do.
- BlockBuilder.Build: a transport failure of `get_block_template`, which panics, is not modelled; nor is a node without a consensus.
- Fields of the report that are copied from the node or the arguments (version, number of nodes, delay).
- The order in which a hash map is iterated: any order is allowed, and results do not depend on it.
- `clone_node`, `mine` and the test cases: compositions of what is modelled, or finite expectations about a node.
- LiveCellProducer.SendCells: one user's cells at a time; the endless outer loops only repeat it.
