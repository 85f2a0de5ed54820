# Verified model of the Lorenzo relayer

The relayer carries block headers from BTC and from BNB Smart Chain to light clients on Lorenzo. This project
models its two reporters in Dafny, proves the model's operations against specification functions, and proves
what those promise over every run.

| file | contents |
|---|---|
| `Prelude.dfy` | results, machine integers and Go's integer conversions |
| `BtcTypes.dfy` | BTC blocks, linked chains, work, the tree of all blocks |
| `BtcCache.dfy` | the bounded cache: a window over an array, and the sequence it stands for |
| `ReorgList.dfy` | the list of removed blocks with its running work |
| `BlockQuery.dfy` | fetching a chain by walking back over parent hashes |
| `HeaderSubmission.dfy` | Lorenzo's BTC light client; deduplication, chunking and submission |
| `ReporterSpec.dfy` | one block event and one bootstrap attempt of the BTC reporter, as functions |
| `Reporter.dfy` | the BTC reporter as an object that updates its cache and reorg list in place |
| `ReporterLoop.dfy` | the started reporter: first bootstrap and event loop on the object, as a run |
| `ReporterRuns.dfy` | whole runs, their history and the invariant |
| `ReorgTheorems.dfy` | what the reorg handling guarantees over runs |
| `PanicWitness.dfy` | a run, from the first bootstrap on, with blocks of one equal work that panics |
| `NestedReorgs.dfy` | when a release reaches Lorenzo although blocks connected during the reorg were removed again |
| `NestedReorgWitness.dfy` | a concrete nested reorg whose release does not |
| `LostBranch.dfy` | a reporter whose branch Lorenzo does not know |
| `BootstrapWindow.dfy` | what a bootstrap attempt fetches, checks, submits and keeps |
| `Tiling.dfy` | cutting a range into batches |
| `BtcCatchUp.dfy` | the BTC producer/consumer pipeline, every interleaving |
| `BtcCatchUpDelivery.dfy` | the same pipeline when the node keeps to one chain and nothing fails |
| `BnbTypes.dfy`, `BnbClient.dfy` | BNB headers, Lorenzo's BNB light client, the backward walk |
| `BnbReporter.dfy` | the BNB main loop: specification, object, whole runs |
| `BnbCatchUp.dfy` | the BNB producer/consumer pipeline, every interleaving |
| `Rlp.dfy` | RLP of strings and lists of strings, after Appendix B of the Ethereum Yellow Paper |
| `BnbHeaders.dfy` | the BNB header codec with its trailing optional fields, and the two conversions |

The imperative methods (cache, reorg list, handlers, walks, submission loop, encoder) compute what a
specification function says. Everything else is proved about those functions. In runs and in both pipelines, the
events, the nodes' and Lorenzo's answers, failures, and what other relayers do between the reporter's own calls are
arbitrary.

## Assumptions about the environment

- A hash identifies a block or header, and a parent is one lower. Every answer of a node is part of one fixed
  tree of blocks; answers may change from query to query, and any query may fail. For BNB headers the
  connection between the abstract hash and the encoded fields is what `BnbHeaderCodec` proves.
- A BTC header carries its work as a natural number. BTC heights are non-negative int32 numbers.
- Lorenzo's BTC light client accepts a message only if its headers are linked and the parent of the first is
  known. Lorenzo's BNB light client accepts a message only if it continues the latest header. Either may refuse,
  and may accept yet have the acceptance reported as a failure. The base height it reports is that of its base
  header. Other relayers upload headers of the same tree, under the same rules.
- Lorenzo keeps every header it has accepted, also those of a branch that it has since replaced: the set of known
  headers only grows.
- uint64 additions to BTC heights, and the step of the BNB catch-up loop beyond its last batch, do not reach 2^64.
  The range arithmetic of the BNB main loop and of the start of catch-up is modelled with wrap-around.

## Where code and comments differ

- `reporter/reorg_list.go:32-34` says that the oldest removed block is last. That holds as long as no block is
  connected between the disconnects (`DisconnectsAreReversible`). In a nested reorg the last entry is the oldest
  block removed since the latest connect; the guarantees below are proved for that case too.
- `reporter/block_handler.go:153` panics when the replaced branch is not in the cache. `PanicsExactlyWhen` says
  when: more blocks than the cache holds were connected since the latest disconnect with the reorg still open.
  `NestedReorgsOfEqualWorkPanic` is a run of six events with blocks of any one work that gets there.
- In a nested reorg a release may submit a branch that does not attach: blocks connected between two disconnects
  are not submitted. `ReleaseIsCompleteIffLatestCutIsLowest` says when, and `NestedReleaseMissesLorenzo` is such a
  run. The reporter is then stranded: it submits from above Lorenzo's height on a branch Lorenzo lacks, and no connect
  gets anything accepted until a disconnect, a bootstrap or another relayer (`MissedReleaseStrandsTheReporter`,
  `ConnectsNeverRecover`). The comment at `reporter/block_handler.go:144-149` speaks of the first reorged height; the
  code looks from the last entry of the list, which is the latest cut.
- A header without a withdrawals hash but with a later optional field encodes, and its encoding does not decode
  (`DecodeAfterEncode`).
- The producer of the BTC catch-up need not come to an end: nobody reads the channels once the consumer has seen a
  shutdown or has panicked. After any other end of the consumer it stops (`ProducerTerminates`), and
  `AbandonedProducerStopsExactlyWhen` says when it does after those two; `ProducerCanBlockForever` gives a run in
  which it does not. The producer of the BNB catch-up, too, is left blocked on a full channel when the consumer sees a
  shutdown (`ShutdownCanStrandTheProducer`).
- The BTC catch-up may return before the last batches are submitted (`OverCanOvertakeTheChannel`); the BNB
  catch-up may not (`ReturnMeansAllHandled`).

## Model

| member | source | states |
|---|---|---|
| ReorgTheorems.ReleasedChainIsHeavierThanEarlierOnes | reporter/block_handler.go:143-163 | When a connect releases the reorg, the chain then held has strictly more work above the common prefix than any chain held since the reorg list was last empty and before the latest disconnect, for every interleaving, nested reorgs included |
| ReorgTheorems.CommonPrefixIsLongest | reporter/block_handler.go:143-163 | The fork point used above is the longest shared prefix |
| ReorgTheorems.ReachableStates | reporter/block_handler.go:69-224 | In every reachable state, bootstraps and other relayers included, the cache is linked with consecutive heights, within its limit, and the newest part of the chain an unbounded cache would hold; the tracked work is that of the recorded blocks; Lorenzo is ancestor-closed and took no header twice |
| ReporterRuns.RunKeepsInv | reporter/block_handler.go:14-66 | Every run of events, bootstrap attempts and foreign insertions keeps the whole invariant |
| ReporterRuns.LoopTurnIsRun | reporter/block_handler.go:49-59 | One turn of the event loop, with its bootstrap retries after an error, is such a run |
| ReporterRuns.RetriesStopAtTheFirstThatDoesNotFail | reporter/bootstrapping.go:158-181 | Attempts are made, each from the state the one before left, until one does not fail; that one decides, and all failing is failing |
| ReorgTheorems.ConnectOutcome | reporter/block_handler.go:69-139 | Exactly when a connect adds its block, when it is ignored, and that in all other cases nothing changes and a bootstrap is asked for |
| ReorgTheorems.AddedReaction | reporter/block_handler.go:164-192 | A connect that adds its block asks for a bootstrap exactly if no reorg is open and Lorenzo's tip is not reported or lies below what the cache still holds |
| ReorgTheorems.CatchUpStartsAboveLorenzosTip | reporter/block_handler.go:164-180 | With no reorg open the submitted tail starts right above Lorenzo's tip, or is the new block; a bootstrap is asked for exactly when the cache starts higher |
| ReorgTheorems.ReleasedBranchReplacesLastRemoved | reporter/block_handler.go:150-162 | The submitted branch starts at the height and with the parent of the last removed block |
| ReorgTheorems.ReleaseSubmitsBranch | reporter/block_handler.go:150-163 | A release submits the chain from the latest cut to the tip, and its work exceeds the tracked work |
| ReorgTheorems.SubmissionsAreCacheTails | reporter/block_handler.go:138-189 | Whatever a connect submits is a linked tail of the cache that ends with the new block |
| ReorgTheorems.ReleaseReachesLorenzo | reporter/block_handler.go:159-189 | With no failing query or delivery, a released branch is wholly known to Lorenzo afterwards if and only if Lorenzo had the fork point or the branch's first block |
| ReorgTheorems.SubmissionReachesLorenzo | reporter/block_handler.go:141-192 | The same for every submission of a connect, with or without a reorg |
| NestedReorgs.ReleaseIsCompleteIffLatestCutIsLowest | reporter/block_handler.go:143-163 | If Lorenzo had the chain when the reorg list was last empty and nothing fails, the release is complete when the latest cut is the lowest since then, and, unless Lorenzo already has replacement blocks, only then |
| NestedReorgWitness.NestedReleaseMissesLorenzo | reporter/block_handler.go:143-192 | A concrete run of a new reporter, a bootstrap and a nested reorg, whose release Lorenzo cannot accept although nothing fails |
| LostBranch.MissedReleaseStrandsTheReporter | reporter/block_handler.go:143-180 | After a release above a block Lorenzo lacks, the reporter's block at the height of Lorenzo's tip is unknown to Lorenzo, for every such height up to the new tip's |
| LostBranch.ConnectIsRefused | reporter/block_handler.go:164-192 | In that situation a connect changes nothing at Lorenzo, and after adding its block it asks for a bootstrap exactly when the cache no longer reaches down to Lorenzo's height |
| LostBranch.ConnectsNeverRecover | reporter/block_handler.go:164-192 | No run of connects gets anything accepted from there |
| ReorgTheorems.PanicsExactlyWhen | reporter/block_handler.go:150-154 | A connect panics if and only if it extends the cache during a reorg and more blocks than the cache's limit have been connected since the latest disconnect |
| ReorgTheorems.PanicNeedsHeavyRemovedWork | reporter/block_handler.go:150-159 | At the panic the cache is full and the removed work is at least that of all newly connected blocks |
| ReorgTheorems.EvenReorgIsReleasedOnTime | reporter/block_handler.go:156-163 | With equal work the reorg is released exactly by the first connect beyond the number of removed blocks |
| ReorgTheorems.EqualWorkEpisodeNeverPanics | reporter/block_handler.go:143-163 | Disconnects followed by connects never panic if the removed and connected blocks all have one positive work, whatever the other cached blocks have and whatever others insert |
| PanicWitness.NestedReorgsOfEqualWorkPanic | reporter/block_handler.go:143-154 | A run of a new reporter that panics: a bootstrap and six events, all blocks having the same work, whatever that work is |
| ReorgTheorems.DisconnectsAreReversible | reporter/block_handler.go:198-224 | Disconnects with no connect in between: cache plus the reversed new entries is the old cache, heights descend by one, the tracked work grows by the work of the lost tail |
| ReorgTheorems.DisconnectOutcome | reporter/block_handler.go:198-224 | A disconnect takes off and records the tip if and only if the tip has the event's hash; in all other cases nothing changes and a bootstrap is asked for; it submits nothing and never panics |
| ReorgTheorems.ReconnectRestoresTheCache | reporter/block_handler.go:141-224 | Connecting the block just disconnected restores cache and chain, and does not release the reorg |
| Reporter.BTCReporter.HandleConnectedBlocks | reporter/block_handler.go:69-195 | The handler changes cache, reorg list and Lorenzo as the specification says and returns its reaction |
| Reporter.BTCReporter.BetterBranch | reporter/block_handler.go:143-163 | Clears the list and yields the branch exactly when it is found and outweighs the removed work |
| Reporter.BTCReporter.HandleDisconnectedBlocks | reporter/block_handler.go:198-224 | Moves the tip from the cache to the reorg list exactly when its hash is the event's |
| Reporter.BTCReporter.HandleEvent | reporter/block_handler.go:49-59 | An event, and the bootstrap retries when its handler asks for them; the object can be driven on |
| ReporterLoop.EventLoop | reporter/block_handler.go:15-66 | Any number of turns on the object, with other relayers in between, end in the state of the run of their steps and panic exactly when it does |
| ReporterLoop.StartReporter | reporter/reporter.go:102-105 | A created, bootstrapped and driven reporter has a linked cache within its limit, the right removed work, and a Lorenzo that is ancestor-closed and took no header twice |
| Reporter.BTCReporter.Bootstrap | reporter/bootstrapping.go:67-138 | A bootstrap attempt on the object gives the specified result and, unless it panics, the specified state |
| Reporter.BTCReporter.BootstrapWithRetries | reporter/bootstrapping.go:158-181 | Attempts until one succeeds or panics; the cache is the old one or a fresh one |
| Reporter.CalculateBranchWork | reporter/utils.go:124-131 | The loop computes the cumulative work of the branch |
| ReorgList.ReorgList.AddRemovedBlock | reporter/reorg_list.go:35-45 | Appends the block and keeps the total equal to the work of all entries |
| ReorgList.ReorgList.GetLastRemovedBlock | reporter/reorg_list.go:47-55 | The last entry, or none |
| ReorgList.ReorgList.Clear | reporter/reorg_list.go:57-63 | Empties list and total |
| BtcCache.BTCCache.Add | types/btccache.go:51-72 | The window holds the old blocks and the new one, without the first when it was full; freed slots hold no block |
| BoundedCache.PushAllKeepsMostRecent | types/btccache.go:60-72 | Any number of additions leaves the last `maxEntries` of old followed by added |
| BtcCache.BTCCache.Init | types/btccache.go:29-49 | Fails exactly on too many or unsorted blocks, otherwise adds them all |
| BtcCache.BTCCache.RemoveLast | types/btccache.go:97-109 | Drops the last block, or fails exactly on an empty cache |
| BtcCache.BTCCache.GetLastBlocks | types/btccache.go:133-152 | The backward loop computes the specified suffix |
| BoundedCache.LastBlocksOnChain | types/btccache.go:133-152 | On a linked cache the lookup succeeds exactly for cached heights and gives the suffix that starts there |
| BtcCache.BTCCache.FindBlock | types/btccache.go:181-209 | Terminates, the unsigned right bound never wraps, finds a block if and only if one has that height, and on increasing heights is the linear search |
| BoundedCache.FindAgreesWithLastBlocks | types/btccache.go:133-209 | On consecutive heights the found block is the first of the looked-up suffix, and one exists when the other does |
| BtcCache.BTCCache.TrimConfirmedBlocks | types/btccache.go:164-178 | Output followed by remainder is the old content; the last k stay; the moved blocks stay referenced |
| BtcCache.BTCCache.Resize | types/btccache.go:211-220 | Fails exactly on 0, changes nothing but the limit |
| BtcCache.BTCCache.Trim | types/btccache.go:223-238 | Keeps the last `maxEntries` blocks, which restores what `Add` requires |
| BlockQuery.GetChainBlocks | btcclient/query.go:54-81 | The array filled from the back is the specified walk |
| BlockQuery.ChainBlocksLinked | btcclient/query.go:54-108 | A fetched chain is linked, has exactly the heights asked for and ends at the tip; the range error occurs exactly when the base is above the tip |
| BlockQuery.ChainIsDeterminedByTip | btcclient/query.go:68-78 | Two linked chains of one length with the same tip are equal |
| BlockQuery.ChainBlocksFindsThePath | btcclient/query.go:54-81 | A fetch yields a chain if and only if it is the linked chain of the heights asked for that the node knows |
| BlockQuery.FindRangeBlocksByHeight | btcclient/query.go:110-117 | The fetch succeeds if and only if the node knows a linked chain of the heights asked for below the end block, and then yields that chain; the range error exactly on an inverted range |
| HeaderSubmission.ChunkByLoop | reporter/utils.go:15-20 | The loop terminates for positive sizes and computes the chunks |
| HeaderSubmission.ChunkByPartitions | reporter/utils.go:15-20 | The chunks concatenate to the input and are full except possibly the last |
| HeaderSubmission.ChunksOfChainAttach | reporter/utils.go:57-64 | Chunks of a linked chain are non-empty, linked, and each attaches to the one before |
| HeaderSubmission.GetHeaderMsgsToSubmit | reporter/utils.go:24-67 | The messages are the chunks from the first unknown block on, or none; the error case exactly |
| HeaderSubmission.ProcessHeadersLoop | reporter/utils.go:94-122 | The submission loop computes the specified outcome, count and Lorenzo state |
| HeaderSubmission.KnownBlocksFormPrefix | reporter/utils.go:31-55 | If Lorenzo is ancestor-closed, the known blocks of a linked list form a prefix |
| HeaderSubmission.SubmitsExactlyTheMissing | reporter/utils.go:31-55 | A block is missing if and only if it is at or after the cut |
| HeaderSubmission.ProcessHeadersKeepsLorenzoSound | reporter/utils.go:94-122 | However a call ends, closure is kept and nothing accepted twice; after success all blocks are known |
| HeaderSubmission.SubmissionSucceedsIffItAttaches | reporter/utils.go:94-122 | Without failing queries and deliveries, success if and only if the first block or its parent is known |
| HeaderSubmission.SubmissionOutcome | reporter/utils.go:31-122 | The exact result and Lorenzo state of every call, whatever fails: which query ends it, which blocks are accepted up to the first message not reported as delivered, an acceptance whose report is lost included, and when it succeeds |
| HeaderSubmission.ResumeSubmitsTheRemainder | reporter/utils.go:94-122 | After a call that stopped partway, with other relayers active in between, a successful one accepts exactly what is still missing: each header at most once from this reporter, in chain order, and all known at the end |
| BootstrapWindow.CacheCoversTheUnfinalized | reporter/bootstrapping.go:211-220 | The fetched heights up to Lorenzo's tip are its last k + w, or all of them; k + w + 1 exactly when the tip is k + w above the base |
| BootstrapWindow.ConsistencyHeightIsKDeep | reporter/bootstrapping.go:48-53 | The checked block is k below Lorenzo's tip or at its base, whichever is higher |
| BootstrapWindow.ConsistencyHeightIsFetched | reporter/bootstrapping.go:48-53 | The checked height lies in the fetched range if and only if w is positive or Lorenzo is close to its base |
| BootstrapWindow.FetchedRange | reporter/bootstrapping.go:211-230 | The fetched chain spans base height to node tip and starts below the first height to submit |
| BootstrapWindow.BootstrapPanicsExactlyWhen | reporter/bootstrapping.go:98-118 | The exact condition under which an attempt with a fetched chain panics |
| BootstrapWindow.BootstrapEndsExactly | reporter/bootstrapping.go:67-138 | How every attempt ends, for any configuration and any answers: exactly when it fails and is retried, when it panics and when it succeeds |
| BootstrapWindow.BootstrapSubmitsTheWindow | reporter/bootstrapping.go:98-138 | Submitted heights are exactly from right above the checked block, which is k below Lorenzo's tip or at its base, to `delayBlocks` below the node's tip; on success the cache is the newest k + w blocks |
| BootstrapWindow.BootstrapMakesTheWindowKnown | reporter/bootstrapping.go:117-124 | After success Lorenzo knows the whole window |
| BootstrapWindow.BootstrapMakesTheCacheKnown | reporter/bootstrapping.go:98-132 | After success Lorenzo knows every cached block except the newest `delayBlocks` |
| BootstrapWindow.BootstrapFailsOnlyOnDelivery | reporter/bootstrapping.go:113-124 | The consistency check makes the submission attach: only failed queries or messages can make it fail |
| BootstrapWindow.FirstBootstrap | reporter/bootstrapping.go:67-138 | On a Lorenzo that has only its base, an undisturbed attempt caches the node's chain from the base on and gives Lorenzo all of it |
| BtcCatchUp.Plan | reporter/bootstrapping.go:234-255 | Catch-up runs exactly when Lorenzo is more than 2k behind; the last planned height is 2k or 2k + 1 below the tip; tip hash and message size are passed on |
| BtcCatchUp.TilesAreExact | reporter/bootstrapping.go:261-285 | The loop's batches tile the heights after Lorenzo's tip without gap or overlap, 1 to 100 each |
| BtcCatchUp.TilesAreFull | reporter/bootstrapping.go:266-269 | Every batch but the last has exactly 100 heights |
| BtcCatchUp.SubmittedHeadersAreAChain | reporter/bootstrapping.go:260-311 | Every interleaving, shutdown, failures and other relayers included: submitted headers are one linked chain on Lorenzo's tip, known to Lorenzo, none accepted twice from this reporter |
| BtcCatchUp.SubmittedBatchesAreFirstTiles | reporter/bootstrapping.go:260-311 | However the run ends, a panic included, the submitted batches are the first tiles, in order and within the planned range |
| BtcCatchUp.OverLeavesAtMostTheChannel | reporter/bootstrapping.go:289-309 | Returning on the end signal without shutdown leaves at most the batches in the channel |
| BtcCatchUp.OverCanOvertakeTheChannel | reporter/bootstrapping.go:289-309 | Whenever the channel has room for all that is still to be fetched, the consumer can return leaving all of it unsubmitted |
| BtcCatchUp.RunsAreBounded | reporter/bootstrapping.go:260-311 | Whatever others do, producer and consumer take finitely many steps |
| BtcCatchUp.StuckOnlyAfterConsumerEnds | reporter/bootstrapping.go:260-311 | When nothing can move, the consumer has ended, and the producer is blocked only if a shutdown was requested or the consumer panicked |
| BtcCatchUp.ConsumerEndsForAReason | reporter/bootstrapping.go:287-311 | A run without shutdown that cannot go on has a consumer that panicked exactly if it refused a batch, and otherwise returned an error exactly if a fetch failed and on the end signal exactly if none did |
| BtcCatchUp.ProducerTerminates | reporter/bootstrapping.go:260-311 | Every run without shutdown and panic that cannot go on has a stopped producer; so has every run whose consumer returned on the end signal or an error |
| BtcCatchUp.ShutdownStopsFetching | reporter/bootstrapping.go:261-285 | After a shutdown request no further fetch begins |
| BtcCatchUp.AbandonedProducerStopsExactlyWhen | reporter/bootstrapping.go:261-309 | Once the consumer has ended, the producer stops if no later fetch fails and the channel has room for what is still to be sent; without a later shutdown only then |
| BtcCatchUp.ProducerCanBlockForever | reporter/bootstrapping.go:275-279 | At any point, a failing fetch after the consumer saw the shutdown blocks the producer for good |
| BtcCatchUpDelivery.CatchUpDeliversTheChain | reporter/bootstrapping.go:260-311 | If fetches give parts of one chain on Lorenzo's tip and no query or delivery fails, the consumer never panics and submits the front of that chain, all of it on a return with an empty channel and no shutdown; a run that cannot go on, without shutdown and failing fetch, has returned on the end signal with the rest of the chain in the channel; alone, Lorenzo gets exactly what is submitted |
| BtcCatchUpDelivery.CatchUpCanBeFinished | reporter/bootstrapping.go:260-311 | From any schedule in which nothing has failed and the consumer has not returned, there is a way to go on in which it submits the whole planned part of the chain |
| BtcCatchUpDelivery.EndIsSeenFirstOrLast | reporter/bootstrapping.go:289-309 | When the consumer can see the end of production, a shutdown or an error, it may see it at once and leave the channel, or submit everything in the channel first |
| BnbClient.RangeHeaders | bnbclient/client.go:48-70 | The array filled from the back is the specified walk |
| BnbClient.RangeIsLinked | bnbclient/client.go:48-70 | A fetched range has exactly the numbers asked for, linked, ending with the header asked for |
| BnbClient.AncestryFinds | bnbclient/client.go:60-67 | Every linked chain the node knows is found by the walk |
| BnbReporterSpec.WindowIsRightExactlyWhen | bnbreporter/block_handler.go:32-43 | The unsigned range arithmetic gives the intended window if and only if delay + tip + 1 does not wrap to a number BNB's tip has reached |
| BnbReporter.BNBReporter.HandleHeaders | bnbreporter/block_handler.go:97-128 | Number and link check, upload, and the tip moves exactly on reported success |
| BnbReporterSpec.HandleOutcome | bnbreporter/block_handler.go:97-128 | A batch counts as handled exactly if it is empty, or continues the tip, is acceptable to Lorenzo and reported as uploaded; exactly then the tip moves to its end; Lorenzo has it also if only the report was lost |
| BnbReporter.BNBReporter.MainLoopTurn | bnbreporter/block_handler.go:15-64 | One iteration on the object is the specified one |
| BnbRuns.RunIsSafe | bnbreporter/block_handler.go:13-64 | Every run: the tip is on Lorenzo's chain, that chain only grows, is linked with each header once, and every upload has 1 to 100 linked headers no nearer than the delay to the observed tip |
| BnbRuns.WindowNeverWraps | bnbreporter/block_handler.go:32-43 | In reachable states the subtractions do not wrap |
| BnbRuns.LinkCheckPassesIffTipIsAncestor | bnbreporter/block_handler.go:106-112 | A batch passes the check if and only if the relayer's tip is the ancestor just before it |
| BnbRuns.AcceptableIffTipIsLatest | bnbreporter/block_handler.go:114-127 | Lorenzo can accept an upload if and only if nobody moved its chain past the relayer's tip |
| BnbRuns.TipIsLatestAfterwards | bnbreporter/block_handler.go:51-62 | After an upload attempt and a successful re-read the tip is Lorenzo's latest header |
| BnbRuns.DeepReorgStopsTheRelayer | bnbreporter/block_handler.go:51-62 | Once BNB drops the relayed tip, re-reading changes nothing for ever |
| BnbRuns.SmoothRunKeepsPace | bnbreporter/block_handler.go:15-64 | Without failures, and with BNB's tip moving, Lorenzo gets exactly the headers up to the relayer's tip, which reaches every number all iterations see as old enough at 100 headers an iteration, and passes none that no iteration does |
| BnbCatchUp.PlanIsRightExactlyWhen | bnbreporter/bootstrap.go:96-99 | The unsigned arithmetic starts and bounds catch-up as meant if and only if tip + delay does not wrap to a number below BNB's tip |
| BnbCatchUp.TilesAreExact | bnbreporter/bootstrap.go:108-118 | The loop's batches tile the range exactly |
| BnbCatchUp.TilesAreFull | bnbreporter/bootstrap.go:108-118 | Every batch but the last has exactly 100 numbers |
| BnbCatchUp.HandledBatchesAreFirstTiles | bnbreporter/bootstrap.go:105-145 | Every interleaving: handled batches are the first tiles in order, linked on the starting tip, and the tip is the last of them and on Lorenzo's chain |
| BnbCatchUp.ReturnMeansAllHandled | bnbreporter/bootstrap.go:128-145 | On return through the closed channel every fetched batch was handled; with no shutdown and fetch failure the tip is at the limit, after a fetch failure at the end of the last fetched batch |
| BnbCatchUp.ConsumerReturnsUnlessItPanics | bnbreporter/bootstrap.go:128-143 | A run without shutdown that cannot go on has a consumer that returned through the closed channel with all fetched batches handled, or panicked on a refused batch |
| BnbCatchUp.CatchUpDeliversTheChain | bnbreporter/bootstrap.go:91-145 | With a stable chain, successful uploads and no other relayer the consumer never panics and Lorenzo gets exactly the handled headers; every run that cannot go on, without shutdown and failing fetch, has delivered the whole chain |
| BnbCatchUp.CatchUpCanBeFinished | bnbreporter/bootstrap.go:105-145 | From any schedule in which nothing has failed, catch-up can be brought to its end with the whole chain delivered |
| BnbCatchUp.RunsAreBounded | bnbreporter/bootstrap.go:105-145 | Whatever others do, producer and consumer take finitely many steps |
| BnbCatchUp.NoDeadlock | bnbreporter/bootstrap.go:105-145 | The consumer never waits for ever; after its return through the closed channel the producer is not blocked |
| BnbCatchUp.ShutdownIsPrompt | bnbreporter/bootstrap.go:108-143 | After a shutdown request no further fetch begins and the consumer takes at most the batch it is waiting for |
| BnbCatchUp.ShutdownCanStrandTheProducer | bnbreporter/bootstrap.go:124-133 | After a shutdown seen by the consumer, a producer waiting for room in the channel waits for ever |
| BnbCatchUp.MainLoopStartsSound | bnbreporter/bootstrap.go:91-145 | However catch-up ends, the main loop's invariant holds |
| Rlp.EightBytesAreUint64 | bnbclient/bnbtypes/gen_header_rlp.go:40-42 | Integers of at most eight bytes are exactly the uint64 values |
| Rlp.StringRoundTrip | bnbclient/bnbtypes/gen_header_rlp.go:17-23 | Decoding an encoded string gives it back, whatever follows |
| Rlp.StringsAreCanonical | bnbreporter/utils.go:12-19 | The strict decoder accepts nothing but encodings |
| Rlp.ItemsRoundTrip | bnbclient/bnbtypes/gen_header_rlp.go:16-89 | A payload splits into the strings it was made of |
| Rlp.PayloadIsInjective | bnbclient/bnbtypes/gen_header_rlp.go:16-89 | Equal payloads come from equal lists |
| BnbHeaderCodec.EncodeRLP | bnbclient/bnbtypes/gen_header_rlp.go:14-91 | The generated encoder with its flags writes the required fields and the optional ones up to the last present, and fails exactly on a negative number |
| BnbHeaders.DecodeAfterEncode | bnbclient/bnbtypes/gen_header_rlp.go:14-91 | Decoding an encoded header gives its normal form, or fails exactly for a missing withdrawals hash before a later field |
| BnbHeaders.RoundTripExactlyWhenCanonical | bnbclient/bnbtypes/block.go:24-55 | The round trip is the identity if and only if both numbers are present and the present optional fields form a prefix |
| BnbHeaders.EncodeAfterDecode | bnbreporter/utils.go:12-19 | Whatever decodes is canonical, and encodes to the very bytes that were read |
| BnbHeaders.SameEncodingIffSameNormalForm | bnbclient/bnbtypes/gen_header_rlp.go:24-88 | Two headers encode alike if and only if they agree up to the normal form |
| BnbHeaderCodec.ConvertBNBHeaderToLorenzoBNBHeaders | bnbreporter/utils.go:21-40 | The loop converts every header in order, or fails exactly when one cannot be encoded |
| BnbHeaderCodec.ConvertedFieldsAgree | bnbreporter/utils.go:30-34 | Hash, parent hash, receipt root and number sent to Lorenzo are those of the header that its raw bytes decode to, or of the header itself if they do not decode |
| BnbHeaderCodec.ConvertedBatchIsLinked | bnbreporter/utils.go:21-40 | A converted batch is linked by its number, hash and parent hash fields if and only if the relayer's batch is linked |
| BnbHeaderCodec.RereadKeepsTheLink | bnbreporter/utils.go:12-40 | A header that went to Lorenzo and is read back has the same hash and number, so the next link check has the same outcome |
| BnbHeaderCodec.HashIdentifiesTheHeader | bnbclient/bnbtypes/block.go:57-70 | Without a collision between them, equal hashes mean equal normal forms |
| BnbHeaderCodec.ViewsAreFaithful | bnbreporter/block_handler.go:106-112 | The checks on the abstract headers of the main-loop model are the checks on encoded headers |

## Left out

- RPC, ZMQ and WebSocket plumbing, configuration, logging, metrics, transactions inside blocks: no decision of the reporters depends on them beyond the answers that are parameters here.
- Hash functions and the decoding of compact difficulty: hashes are identities, work is a number; the block hash of a BNB header is any function of its encoding.
- Sleeps, tickers, retry counts and backoff: a retried query or message either succeeds or fails for good. Running out of bootstrap attempts, which ends the process, is not told apart from a cancelled one.
- Mutexes of the cache and the reorg list: their methods are atomic here.
- Go slices that alias the cache: `GetLastBlocks` and `GetAllBlocks` return copies here, so later changes of the cache under a returned slice are not modelled. `append` grows by some factor; only its effect on the content is kept.
- BtcCache.BTCCache.Add: the panic on an over-full cache is excluded by a precondition, which `Init`, `Trim` and `Add` itself re-establish.
- BtcCache.BTCCache.GetLastBlocks: Go panics on an empty cache; that is a precondition, and every modelled caller meets it.
- Lorenzo changing while one call to `ProcessHeaders` is under way: other relayers act between calls.
- Delivery after a failed submission: `handleConnectedBlocks` only logs it after the reorg list is cleared, so no liveness is claimed for it.
- The delay before an event is handled, start, stop and restart, the closed event channel, interrupt handling, the subscription during the first bootstrap, and the nil cache before it: a created object starts with an empty cache.
- The wait for BTC to reach Lorenzo's height and the wait for BNB to pass Lorenzo's tip: only whether they end without an error matters to the steps that follow.
- `initLorenzoBNBBaseHeader` and the single-header `handleHeader`: the first depends on values Lorenzo returns with an error, the second is not called.
- BnbHeaderCodec.ConvertBNBHeaderToLorenzoBNBHeaders: a nil number would be dereferenced; non-nil numbers are a precondition.
- BnbHeaders.DecodeAfterEncode: encodings of 2^64 bytes or more, which Appendix B leaves undefined, are excluded.
- BnbHeaders.Decode: only whether decoding fails is modelled, not which error is returned; the caller passes any error on.
- BnbClient.RangeHeaders: the length of a range that spans all of uint64 would wrap to 0; lengths are natural numbers here.
- `gen_header_json.go`: field copying around a JSON library.
