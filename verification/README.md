# Verified models of qemu-study

A Dafny 4.11 model of the algorithms this repository studies and carries with it:
the dirty-page eviction policies of `fmsync_policy`, the graph500 benchmark (its
active-message layer, random generator, graph construction, breadth-first and
shortest-path kernels and result validator), and the parts of Redis 7.2.4 whose
bookkeeping is hardest to get right (append-only file, ACL command rules, blocked
clients, bit operations). `dafny verify dfyconfig.toml` checks everything.

| modules | what they are about |
|---|---|
| `DirtyTrace`, `MinPolicy`, `LruPolicy` | MIN and LRU eviction: optimality of MIN against every rival schedule, the stack property of LRU |
| `ModArith`, `Mrg` | arithmetic modulo 2^31-1 and the splittable generator: skipping equals single stepping |
| `AmlLink`, `AmlContent`, `Aml`, `AmlProof`, `AmlBarrier`, `AmlProgress`, `AmlBuffers`, `AmlSpace` | the active-message protocol as a state machine: exact ack counters, conservation of messages, what the barrier promises, that it ends; the exchange of send buffers, and the room in them |
| `Graph`, `Bfs`, `Sssp`, `Validate` | walks and distances; the two kernels for every message order; exactly what the validator accepts |
| `Scramble`, `Csr` | vertex scrambling is a permutation; the two-pass row construction |
| `AofDisk`, `AofManifest`, `AofRestart`, `AofRun` | the multi-part append-only file: a crash between any two system calls of any run |
| `AofBuffer`, `AofLog`, `AofLoader` | the write buffer with every outcome of a write; the encoder against the loader, for whole and cut logs |
| `AclRules`, `AclText`, `AclSplit`, `AclQuote`, `AclTable`, `Acl`, `AclMeaning`, `AclReadBack` | what the rules mean, and the rule string that must always regenerate the permission bitmap |
| `Blocked`, `BlockedReady` | the two-way index of blocked clients, and serving the clients of ready keys |
| `Popcount`, `Bitfield` | word-parallel counting and integers of any width, against single bits |

Code that updates things in place is imperative here too: classes
(`Mrg.State`, `Bfs.Search`, `AmlBuffers.SendBuffers`, `AofManifest.Server`,
`AofBuffer.Log`, `Acl.Selector`, `Blocked.Tables`), arrays (`Csr`, `Bitfield`) and methods with loops, each proved
against functions or predicates whose own properties are lemmas. The message
protocol is a state machine over its steps; a run is any sequence of enabled steps.

Nine properties one would expect turn out to hold only under a condition; each has
a concrete failing input and the exact condition:

- message handlers are called only as asked in every run exactly when there is one
  group or groups have at most 256 processes, since the local index travels in one
  byte (`AmlBarrier.WideGroupsMisroute`, `AmlBarrier.HandlersExactIffRoutingFits`);
- the validator accepts nothing but search trees exactly when no edge lies outside
  the root's component (`Validate.StrayPairAccepted`, `Validate.OnlyTreesIff`);
- no message is written over another before it is sent exactly when a process has at
  most 65532 destinations, while `aml_init` admits 65536 groups
  (`AmlBuffers.Overwritten`, `AmlBuffers.SendBuffers.constructor`);
- no message runs over the end of a buffer exactly when it leaves room for the header
  of every level in use, five bytes inside a group and four between groups
  (`AmlSpace.LongOverruns`, `AmlSpace.NoOverrunIff`);
- every crash of a run of the append-only file is survived exactly when no failed
  directory sync left a manifest that names a removed BASE, or one INCR too many with
  a torn write before it (`AofRestart.UnsyncedRewriteIsFatal`,
  `AofRestart.UnsyncedIncrThenTorn`, `AofRun.SurvivesIff`); and a rewrite is exact when
  its forced flush empties the buffer (`AofRestart.LeftoverIsReplayed`,
  `AofRestart.LeftoverCounts`);
- INCR files that a rewrite opens lack append mode, so a short write that is
  truncated away leaves a gap before the next one (`AofBuffer.GapAfterTruncate`,
  `AofBuffer.RunIff`);
- a cut log that is truncated and appended to loads again exactly when the cut fell
  between items, in a command outside a transaction, or in an annotation inside one
  (`AofLoader.CutsThatDoNotContinue`, `AofLoader.CutContinuesIff`); encoding itself
  is undone exactly when no command is empty or unknown (`AofLoader.EncodedLoadsIff`);
- the ACL rule string goes on standing for the permissions exactly when the first
  argument of the next rule is plain (`AclReadBack.SpaceIsLost`,
  `AclReadBack.StepReproducesIff`);
- a signed BITFIELD SET saturates to the nearest bound exactly when max - value stays
  within 64 bits (`Bitfield.LowestSaturatesUpwards`, `Bitfield.CheckSignedSetIs`).

Where code and comments differ the code is followed: the comment on the signed
overflow check (`bitops.c:329-332`) says that an overflowing `maxincr` is never
used, while the test `incr > maxincr` uses it for SET with a very low value.

Conventions. Arrays that graph500 spreads over ranks are held as one sequence over
global vertex numbers, and the queues of all ranks are taken together; the order in
which messages of a phase are sent and handled is left open everywhere. Weights,
distances and delta are exact integers, and FLT_MAX is an absorbing infinite depth.
Outcomes of system calls (writes, renames, syncs, forks) are parameters, so every
theorem is for all of them.

## Model

| member | source | states |
|---|---|---|
| `DirtyTrace.DirtiedIsFlushedOrKept` | fmsync_policy/policy.cc:71-91 | Conservation for every schedule: pages that became dirty so far = pages flushed so far + pages still dirty |
| `MinPolicy.MinIsOptimal` | fmsync_policy/policy.cc:53-90 | For every trace, limit and rival schedule that dirties the same pages and cuts to the limit, MIN has flushed no more after every iteration (exchange argument over all rivals) |
| `MinPolicy.MinStaysAhead` | fmsync_policy/policy.cc:61-90 | The invariant behind it: for every horizon, MIN holds at most as many pages due within it as any rival, up to the lead MIN has in pages dirtied |
| `MinPolicy.AheadAfterWrite` | fmsync_policy/policy.cc:62-68 | One iteration of writes keeps that invariant and moves the lead by exactly the pages each side had to dirty again |
| `MinPolicy.AheadAfterCut` | fmsync_policy/policy.cc:73-90 | MIN's cut keeps the invariant whatever the rival cuts |
| `MinPolicy.NextUseAfter` | fmsync_policy/policy.cc:61-68 | A page is written in the next iteration exactly when the head of its use list is that iteration; other lists keep their heads |
| `MinPolicy.MinIsSchedule` | fmsync_policy/policy.cc:73-90 | MIN's own sets form a legal schedule, so the optimum is attained |
| `MinPolicy.SortSorts` | fmsync_policy/policy.cc:81 | Sorting the distinct (key, page) pairs orders them and keeps exactly the same pairs |
| `MinPolicy.CollectKeys` | fmsync_policy/policy.cc:75-79 | The vector holds each dirty page once, with the negated next use or 1000000 |
| `MinPolicy.EvictPass` | fmsync_policy/policy.cc:75-89 | One pass of the inner loop, whose bound shrinks as it erases: it makes progress, never goes below the limit, counts what it erases, and everything erased has a later key than everything kept |
| `MinPolicy.Evict` | fmsync_policy/policy.cc:71-90 | The re-sorting loop ends with exactly the limit (or all if fewer), having erased precisely the pages of farthest next use, and the asserts hold |
| `MinPolicy.BuildUses` | fmsync_policy/policy.cc:53-59 | After the first loop each page's list is the increasing list of iterations that write it |
| `MinPolicy.MarkWrites` | fmsync_policy/policy.cc:62-68 | The writes of an iteration mark exactly the written pages and leave the lists holding the later uses only; no pop on an empty list |
| `MinPolicy.LogTotals` | fmsync_policy/policy.cc:91 | The printed eviction counts add up to the pages flushed by the schedule |
| `MinPolicy.RunMin` | fmsync_policy/policy.cc:49-93 | The whole policy: the log is that of the MIN schedule, each iteration ends with exactly the target or with all dirty pages if they are fewer, a negative target evicts nothing, and the cumulative evictions never exceed those of any legal schedule |
| `LruPolicy.WritePage` | fmsync_policy/policy.cc:102-110 | A write moves the page to the front and keeps list, iterator map and dirty set describing the same pages |
| `LruPolicy.EvictOldest` | fmsync_policy/policy.cc:114-124 | Eviction keeps the most recent limit-many pages; the assert on the evicted page never fails |
| `LruPolicy.WriteRow` | fmsync_policy/policy.cc:101-111 | The list stays the front of the full recency order of the whole trace |
| `LruPolicy.Iterate` | fmsync_policy/policy.cc:100-126 | After an iteration the dirty set is the limit-many most recently written pages, and the printed row counts the evictions |
| `LruPolicy.RunLru` | fmsync_policy/policy.cc:95-129 | The printed log is that of keeping, after every iteration, the limit-many most recently written pages; each iteration ends with exactly the target or with all dirty pages if they are fewer, and a negative target evicts nothing |
| `LruPolicy.TopAfterTouch` | fmsync_policy/policy.cc:105-109 | Touching a page in the truncated list and in the full recency order keeps one the front of the other |
| `LruPolicy.RecencyIsLastWrites` | fmsync_policy/policy.cc:100-111 | The recency order holds exactly the pages written so far, sorted by their last write: later iterations first, and within one the higher pages, which are written later |
| `LruPolicy.LargerTargetIncludesSmaller` | fmsync_policy/policy.cc:113-124 | Stack property: a larger target keeps every page a smaller one keeps |
| `LruPolicy.LargerTargetFlushesLess` | fmsync_policy/policy.cc:113-126 | Hence a larger target never flushes more in total |
| `LruPolicy.LruIsSchedule` | fmsync_policy/policy.cc:95-127 | LRU's sets form a legal schedule |
| `LruPolicy.MinBeatsLru` | fmsync_policy/policy.cc:49-127 | MIN never flushes more than LRU, after any iteration |
| `ModArith.Mac4` | apps/graph500/generator/mod_arith_64bit.h:59-70 | Four products and a summand never leave 64 bits, so one reduction at the end is exact |
| `ModArith.Add32` | apps/graph500/generator/mod_arith_32bit.h:20-31 | One conditional subtraction gives the sum modulo 2^31-1 |
| `ModArith.Fold` | apps/graph500/generator/mod_arith_32bit.h:53-59 | Folding the high part onto the low 31 bits and one subtraction give the remainder, with 32-bit words, for every value the callers form |
| `ModArith.Mul32` | apps/graph500/generator/mod_arith_32bit.h:33-45 | The folded product is the product modulo 2^31-1 |
| `ModArith.Mac32` | apps/graph500/generator/mod_arith_32bit.h:47-60 | The folded product and sum is the one modulo 2^31-1 |
| `ModArith.SchrageX` | apps/graph500/generator/mod_arith_32bit.h:110-118 | Schrage multiplication by 107374182 is exact, and every intermediate value fits a signed 32-bit word |
| `ModArith.SchrageY` | apps/graph500/generator/mod_arith_32bit.h:120-128 | The same for 104480 |
| `ModArith.SumsAgree` | apps/graph500/generator/mod_arith_32bit.h:62-93 | Reducing after every product (32-bit header) and reducing once (64-bit header) agree for two, three and four products |
| `ModArith.HeadersAgree` | apps/graph500/generator/mod_arith_32bit.h:20-134 | The two headers agree on addition, products and multiplication by the two constants |
| `Mrg.ApplyIsProduct` | apps/graph500/generator/splittable_mrg.c:116-159 | The transition is multiplication by the five-by-five matrix written out from the compact tuple and its cache |
| `Mrg.CacheIsCached` | apps/graph500/generator/splittable_mrg.c:66-71 | The cache holds the next four terms of the recurrence started at the tuple |
| `Mrg.Commutes` | apps/graph500/generator/splittable_mrg.c:116-159 | Every compact matrix commutes with one step of the recurrence, modulo 2^31-1 |
| `Mrg.ProductApplies` | apps/graph500/generator/splittable_mrg.c:86-98 | The closed formulas of the compact product compose: applying the product is applying one matrix after the other |
| `Mrg.ProductRepresents` | apps/graph500/generator/splittable_mrg.c:86-98 | If two matrices are j and k steps, their product is j + k steps |
| `Mrg.IdentityRepresents` | apps/graph500/generator/splittable_mrg.c:73-77 | The identity is zero steps |
| `Mrg.StepMatrixRepresents` | apps/graph500/generator/splittable_mrg.c:79-83 | A is one step of the recurrence |
| `Mrg.Power` | apps/graph500/generator/splittable_mrg.c:101-109 | Binary exponentiation of a matrix of n steps gives n times the exponent steps |
| `Mrg.BuildRow` | apps/graph500/generator/splittable_mrg.c:213-253 | A table row holds the multiples 0 to 255 of its unit |
| `Mrg.BuildTable` | apps/graph500/generator/splittable_mrg.c:213-253 | Row i of the 24 rows holds multiples of 256^i steps |
| `Mrg.State.constructor` | apps/graph500/generator/splittable_mrg.c:284-290 | A state starts from its five seed values |
| `Mrg.State.OrigStep` | apps/graph500/generator/splittable_mrg.c:171-178 | One step of the order-five recurrence |
| `Mrg.State.GetUint` | apps/graph500/generator/splittable_mrg.c:267-270 | Each call returns the next term |
| `Mrg.State.Step` | apps/graph500/generator/splittable_mrg.c:164-166 | A matrix step replaces the state by the matrix applied to it |
| `Mrg.State.SkipWord` | apps/graph500/generator/splittable_mrg.c:186-201 | One of the three byte loops skips exponent times 256^first steps |
| `Mrg.State.Skip` | apps/graph500/generator/splittable_mrg.c:186-201 | Skipping (high, middle, low) leaves the state that low + 2^64 middle + 2^128 high single steps leave |
| `AmlLink.FlushExact` | apps/graph500/aml/aml.c:235-267 | Flushing a buffer keeps every ack counter equal to the data buffers in flight plus acks owed plus acks in flight |
| `AmlLink.ReceiveExact` | apps/graph500/aml/aml.c:192-232 | So does receiving, with the ack sent at once or owed |
| `AmlLink.ShortAcksIff` | apps/graph500/aml/aml.c:192-232 | With the acknowledgements owed kept in an unsigned short, a receive keeps the counters exact if and only if it acknowledges at once or fewer than 65535 are owed to that process; then it is the receive of the model |
| `AmlLink.ZeroAckMeansDelivered` | apps/graph500/aml/aml.c:444-445 | A zero counter means no buffer of that process is in flight |
| `AmlContent.EnqueueContent` | apps/graph500/aml/aml.c:269-308 | Putting a message into a buffer adds it once to what is under way |
| `AmlContent.FlushContent` | apps/graph500/aml/aml.c:235-267 | Flushing loses and duplicates nothing |
| `AmlContent.ReceiveContent` | apps/graph500/aml/aml.c:192-232 | Receiving removes exactly the content of that buffer |
| `AmlProof.SendConserves` | apps/graph500/aml/aml.c:285-308 | aml_send: sent = handled + under way is kept for every message, sender and destination |
| `AmlProof.ProcessConserves` | apps/graph500/aml/aml.c:156-171 | Handling or forwarding one message keeps it, with the true sender rebuilt from group and local index |
| `AmlProof.PollIntraConserves` | apps/graph500/aml/aml.c:179-209 | Polling and handling an intra-group buffer keeps it |
| `AmlProof.PollConserves` | apps/graph500/aml/aml.c:211-232 | Polling an inter-group buffer keeps it |
| `AmlProof.AdvanceConserves` | apps/graph500/aml/aml.c:435-470 | The steps of the barrier keep it |
| `AmlBarrier.CoreKept` | apps/graph500/aml/aml.c:156-470 | Every step keeps: links used only along groups, exact ack counters, what each barrier stage has established, and nobody more than one barrier ahead |
| `AmlBarrier.StagedKept` | apps/graph500/aml/aml.c:435-470 | What a process has established at its stage of the barrier survives every step of every process |
| `AmlBarrier.InvKept` | apps/graph500/aml/aml.c:156-470 | When indices fit the routing byte, every step also keeps conservation, and what is under way was sent after the last completed barrier |
| `AmlBarrier.AcksAlwaysExact` | apps/graph500/aml/aml.c:156-308 | In every run, for every shape, each counter equals data in flight + acks owed + acks in flight |
| `AmlBarrier.HandledWasSent` | apps/graph500/aml/aml.c:156-308 | No run calls a handler more often than asked, elsewhere than asked, or with another sender |
| `AmlBarrier.InterGroupReceived` | apps/graph500/aml/aml.c:439-452 | Past the first non-blocking barrier nothing from another group is on its way to the process, as the comment there claims |
| `AmlBarrier.NothingInTransit` | apps/graph500/aml/aml.c:454-469 | When all processes wait at the last stage, nothing is under way anywhere |
| `AmlBarrier.BarrierCompletesSends` | apps/graph500/aml/aml.c:435-470 | Once any process has left its n-th barrier, every message sent before its sender's n-th barrier was handled exactly as often as sent, at its destination, from its sender, forwarded ones included |
| `AmlBarrier.WideGroupsMisroute` | apps/graph500/aml/aml.c:150-170 | With several groups of more than 256 processes there is a run that calls a handler at a process nobody addressed |
| `AmlBarrier.HandlersExactIffRoutingFits` | apps/graph500/aml/aml.c:150-170 | Handlers are called only as asked in every run if and only if there is one group or groups have at most 256 processes |
| `AmlProgress.NoDeadlock` | apps/graph500/aml/aml.c:435-470 | While all processes are inside the barrier, some process can receive, handle or go on |
| `AmlProgress.StepSpends` | apps/graph500/aml/aml.c:435-470 | Every such step uses up part of a budget that the state determines |
| `AmlProgress.StepsAreBounded` | apps/graph500/aml/aml.c:435-470 | So every schedule of steps ends within the budget |
| `AmlProgress.BarrierEnds` | apps/graph500/aml/aml.c:435-470 | From every reachable state with all processes inside: every schedule is finite, and it ends only when somebody has left the barrier |
| `AmlBuffers.SendBuffers.constructor` | apps/graph500/aml/aml.c:387-430 | The buffers of destinations and send slots are all different if and only if there are at most 65532 destinations, since their numbers are kept in unsigned shorts |
| `AmlBuffers.SendBuffers.Append` | apps/graph500/aml/aml.c:269-308 | A message is added behind those already collected, and no other destination and no send in progress is disturbed |
| `AmlBuffers.SendBuffers.Send` | apps/graph500/aml/aml.c:269-308 | A message is collected behind the others if it fits, and otherwise in an empty buffer after those have been given to a slot; the copy never passes the end |
| `AmlBuffers.SendBuffers.Flush` | apps/graph500/aml/aml.c:235-267 | The slot takes the filled buffer and gives its own: all buffers stay different |
| `AmlBuffers.SendBuffers.Complete` | apps/graph500/aml/aml.c:239-243 | What leaves the process is what the slot was given when the send began |
| `AmlBuffers.SwapApart` | apps/graph500/aml/aml.c:248 | Exchanging two buffer numbers keeps all of them different |
| `AmlBuffers.Overwritten` | apps/graph500/aml/aml.c:381-430 | Counterexample for every larger number: a message of one destination overwrites a message of another |
| `AmlSpace.PostFitsIff` | apps/graph500/aml/aml.c:269-308 | A send keeps the buffer within its 32768 bytes if and only if the message and its header fit an empty one; what is collected leaves only when the message does not fit behind it |
| `AmlSpace.StepWithin` | apps/graph500/aml/aml.c:156-470 | Every step keeps every buffer and every message in flight within the buffer size, when messages are short enough |
| `AmlSpace.NoOverrunIff` | apps/graph500/aml/aml.c:150-308 | No run with messages of at most n bytes fills a buffer or a message beyond its size, between groups or inside them, if and only if n and the header of each level in use fit it |
| `AmlSpace.SendBytes` | apps/graph500/aml/aml.c:269-308 | The buffers of bytes follow the protocol: they hold the bytes of what the protocol has buffered, flush when it does, and hand on what it sends |
| `Graph.RelaxedIsLowerBound` | apps/graph500/src/sssp_reference.c:96-148 | Labels that no edge can improve are at most the cost of every walk |
| `Graph.LabelsAreDistances` | apps/graph500/src/sssp_reference.c:96-148 | Labels that are attained and cannot be improved are the distances, and set exactly on reachable vertices |
| `Bfs.VisitKeepsTree` | apps/graph500/src/bfs_reference.c:52-59 | A first visit keeps the recorded tree: each parent is a neighbour one level closer |
| `Bfs.Search.Handle` | apps/graph500/src/bfs_reference.c:52-59 | The handler marks, queues and records the parent of an unvisited vertex once, and leaves visited ones alone |
| `Bfs.Search.SendVisits` | apps/graph500/src/bfs_reference.c:105-108 | After the send loop every edge out of the level is announced or already answered |
| `Bfs.Search.DeliverVisits` | apps/graph500/src/bfs_reference.c:109 | Delivering the visits in any order visits every neighbour of the level, at the next level |
| `Bfs.LevelDone` | apps/graph500/src/bfs_reference.c:99-117 | Then all vertices of the next level are known, and the number of unseen vertices drops or the queue is empty |
| `Bfs.Search.Run` | apps/graph500/src/bfs_reference.c:80-126 | For every graph, root and order: pred is set exactly on the reachable vertices, each pred is a neighbour exactly one level closer, and each reachable vertex is queued exactly once |
| `Sssp.HandleSound` | apps/graph500/src/sssp_reference.c:44-62 | A relaxation keeps every label the length of a real walk and every pred edge at most its label |
| `Sssp.HandleLowers` | apps/graph500/src/sssp_reference.c:44-62 | Labels only fall, and never below the lower end of the current bucket |
| `Sssp.HandleRequeues` | apps/graph500/src/sssp_reference.c:54-60 | In a light phase the next queue holds each vertex that fell into the bucket, once |
| `Sssp.RunPhase` | apps/graph500/src/sssp_reference.c:105-126 | Sends and handlers interleaved in any order up to the barrier: every selected edge is relaxed or its source was lowered again |
| `Sssp.LightRounds` | apps/graph500/src/sssp_reference.c:101-115 | The inner loop ends, with no light edge of the bucket left to relax |
| `Sssp.LightRound` | apps/graph500/src/sssp_reference.c:103-114 | One round keeps the bucket queue free of duplicates and complete for the next round |
| `Sssp.NextBucket` | apps/graph500/src/sssp_reference.c:128-140 | The collected queue is exactly the next bucket, and the count is zero exactly when nothing is left |
| `Sssp.SettledStays` | apps/graph500/src/sssp_reference.c:96-148 | Edges out of buckets already passed stay relaxed: those labels never change again |
| `Sssp.ProcessBucket` | apps/graph500/src/sssp_reference.c:96-131 | One turn of the outer loop settles its bucket and changes no settled label |
| `Sssp.Run` | apps/graph500/src/sssp_reference.c:70-150 | For every graph with non-negative weights, delta and message order: dist is the shortest distance, -1 exactly when unreachable, and dist[v] = dist[pred[v]] + w for an edge |
| `Validate.DeliverHints` | apps/graph500/src/validate.c:57-63 | Handling the hints of a level in any order gives depth k + 1 to exactly the undecided vertices whose pred is at depth k |
| `Validate.BuildDepths` | apps/graph500/src/validate.c:149-177 | The loop ends, and every depth is one more than its pred's along an edge, or infinite |
| `Validate.DeliverEdges` | apps/graph500/src/validate.c:125-147 | After all edge messages, in any order: confirmed is set exactly where a pred edge one level up exists, there are no errors exactly when all edges pass, and the edges with a visited end are counted |
| `Validate.Check` | apps/graph500/src/validate.c:267-297 | No error is counted exactly when every test of the validator passes |
| `Validate.PassingDepths` | apps/graph500/src/validate.c:252-297 | On acceptance, finite depths are the BFS distances and exactly the root's component has them |
| `Validate.PassingIsCorrect` | apps/graph500/src/validate.c:252-297 | On acceptance, every reachable vertex has a pred that is a neighbour one level closer |
| `Validate.CorrectPasses` | apps/graph500/src/validate.c:252-297 | Conversely every map described so passes |
| `Validate.PassesIffCorrect` | apps/graph500/src/validate.c:252-297 | The tests pass exactly on the correct maps |
| `Validate.ValidateBfs` | apps/graph500/src/validate.c:252-297 | Accepted if and only if no earlier call left errors, the map is correct, and the given number of edges, if any, is the number of edges with a visited end |
| `Validate.OnlyTreesIff` | apps/graph500/src/validate.c:149-177 | The validator accepts nothing but search trees if and only if no edge lies outside the root's component |
| `Validate.StrayPairAccepted` | apps/graph500/src/validate.c:149-177 | Counterexample: two vertices outside the component that name each other as pred are accepted, since FLT_MAX + 1 is FLT_MAX |
| `Validate.SearchIsAccepted` | apps/graph500/src/bfs_reference.c:80-126 | What run_bfs leaves behind is accepted |
| `Scramble.BitReverseReverses` | apps/graph500/generator/graph_generator.c:94-102 | The swaps of ever larger blocks reverse the 64-bit word |
| `Scramble.Stage` | apps/graph500/generator/graph_generator.c:94-102 | One swap of neighbouring blocks doubles the blocks within which the bits are mirrored |
| `Scramble.SwappedReverseReverses` | apps/graph500/generator/graph_generator.c:92-102 | The form with a byte swap computes the same |
| `Scramble.TurnIs` | apps/graph500/generator/graph_generator.c:130-140 | Reversal and shift mirror the low bits and depend on nothing else |
| `Scramble.OddCancels` | apps/graph500/generator/graph_generator.c:130-140 | Multiplication by an odd number loses nothing modulo a power of two |
| `Scramble.MixInjective` | apps/graph500/generator/graph_generator.c:130-140 | Odd multiplication followed by the reversal loses none of the low bits |
| `Scramble.ScrambleInjective` | apps/graph500/generator/graph_generator.c:130-140 | scramble stays below 2^lgN and never maps two vertices to one |
| `Scramble.ScramblePermutes` | apps/graph500/generator/graph_generator.c:130-140 | For every lgN up to 64 and all seeds scramble is a permutation: each number has exactly one preimage |
| `Scramble.ScrambleIs` | apps/graph500/generator/graph_generator.c:130-140 | The computation on 64-bit words with wrap-around, reversals and shifts is the plain one on numbers of any size: add the seeds, multiply by the first odd factor, flip the low lgN bits, multiply by the second, flip again |
| `Scramble.MakeOneEdge` | apps/graph500/generator/graph_generator.c:144-167 | The quadrants spell both ends bit by bit, the first one off the diagonal flipped above it; base_src <= base_tgt < 2^lgN, and the ends are equal exactly when every quadrant is on the diagonal |
| `Csr.CountDegrees` | apps/graph500/src/csr_reference.c:37-38 | The counting pass counts the halves delivered to each vertex |
| `Csr.MakeStarts` | apps/graph500/src/csr_reference.c:134-141 | Prefix sums give the row starts and turn each degree into its row's write cursor |
| `Csr.PlaceStep` | apps/graph500/src/csr_reference.c:40-48 | A write lands inside its own row and disturbs no other |
| `Csr.PlaceEdges` | apps/graph500/src/csr_reference.c:40-48 | After the second pass every cursor stands at the next row start and every row holds its targets and, at the same places, their weights |
| `Csr.RowsAgree` | apps/graph500/src/csr_reference.c:75-177 | Rows depend on what is delivered, not on the order, so the two passes may differ in order |
| `Csr.HalfCount` | apps/graph500/src/csr_reference.c:50-72 | A vertex is sent a target once for every non-loop edge between the two |
| `Csr.EndsSymmetric` | apps/graph500/src/csr_reference.c:87-98 | The resulting adjacency is symmetric |
| `Csr.TotalHalves` | apps/graph500/src/csr_reference.c:75-177 | Rows over all ranks total twice the non-loop edges |
| `Csr.Convert` | apps/graph500/src/csr_reference.c:75-177 | For every edge list and every delivery order of both passes, each row is the multiset of other ends of that vertex's non-loop edges, each with its weight |
| `AofDisk.LoadFiles` | apps/redis/redis-7.2.4/src/aof.c:1649-1772 | Loading reads BASE, then the INCRs in order; only the last may be torn |
| `AofDisk.LoadAppend` | apps/redis/redis-7.2.4/src/aof.c:1649-1772 | Appending to the last INCR appends to what is loaded |
| `AofDisk.LoadExtend` | apps/redis/redis-7.2.4/src/aof.c:1649-1772 | A further empty INCR changes nothing, unless the one before it is torn |
| `AofManifest.MarkRewritten` | apps/redis/redis-7.2.4/src/aof.c:492-522 | All INCRs but the last become history, in order |
| `AofManifest.NowOk` | apps/redis/redis-7.2.4/src/aof.c:1649-1772 | A start-up rebuilds the flushed commands exactly when no manifest with a failed directory sync is in place that names a removed BASE or lists a torn file before the last |
| `AofManifest.Server.Execute` | apps/redis/redis-7.2.4/src/aof.c:1320-1356 | A command changes the dataset and the buffer; the directory stays as durable as it was |
| `AofManifest.Server.Flush` | apps/redis/redis-7.2.4/src/aof.c:1129-1232 | A flush moves a prefix of the buffer to the current INCR by one append; the moment it adds rebuilds the flushed commands exactly when the state after it is not fatal |
| `AofManifest.Server.OpenNewIncr` | apps/redis/redis-7.2.4/src/aof.c:790-853 | The INCR is created first and listed after, by exactly these two calls, or the old manifest kept; each moment on the way rebuilds the flushed commands unless the state before or after is fatal, and the last one exactly when the state after is not |
| `AofManifest.Server.StartRewrite` | apps/redis/redis-7.2.4/src/aof.c:2425-2493 | Flush, new INCR and fork, with every outcome: the same for every moment, if a switch that succeeds follows a flush that leaves nothing behind |
| `AofManifest.Server.DelHistory` | apps/redis/redis-7.2.4/src/aof.c:668-692 | Deleting history touches no live file; the same for the moment after every single unlink |
| `AofManifest.Server.Unlink` | apps/redis/redis-7.2.4/src/aof.c:679-688 | One history file is removed by one call, and no live file is touched |
| `AofManifest.Server.Install` | apps/redis/redis-7.2.4/src/aof.c:2660-2691 | The new manifest takes over or is taken back; every moment in between is tied to the outcome of the directory sync |
| `AofManifest.Server.TakeOver` | apps/redis/redis-7.2.4/src/aof.c:2680-2691 | A manifest that was written takes over, and the history files go one by one; no BASE or INCR is forgotten in the directory |
| `AofManifest.Server.TakeBack` | apps/redis/redis-7.2.4/src/aof.c:2665-2676 | One that was not, or whose directory sync failed, is taken back by removing the new BASE |
| `AofManifest.Server.RewriteDone` | apps/redis/redis-7.2.4/src/aof.c:2582-2742 | The done handler, for child failure, failed rename and every outcome of the manifest write: the state after is fatal exactly when the directory sync failed, and every moment is tied to that; with the clean-up on, nothing but the new BASE, the current INCR and the next number of each kind is left |
| `AofManifest.Server.SaveTemp` | apps/redis/redis-7.2.4/src/aof.c:2462-2476 | The child's temporary file leaves a directory that rebuilds the flushed commands as before |
| `AofManifest.Server.RenameTemp` | apps/redis/redis-7.2.4/src/aof.c:2608-2625 | So does giving it the name of the next BASE |
| `AofManifest.Server.RemoveTemp` | apps/redis/redis-7.2.4/src/aof.c:2512-2520 | So does removing it |
| `AofManifest.DoneKeeps` | apps/redis/redis-7.2.4/src/aof.c:2582-2742 | The child's snapshot followed by the last INCR is the dataset, before and after the manifest is replaced |
| `AofManifest.UndoneKeeps` | apps/redis/redis-7.2.4/src/aof.c:2582-2742 | Removing the new BASE again keeps the old manifest good and breaks the new one if that is what is on disk |
| `AofRestart.Boot` | apps/redis/redis-7.2.4/src/aof.c:713-766 | Start-up rebuilds the dataset, writes a manifest only if it changed, trims a torn tail and opens an INCR; a crash between any two of its calls loses nothing |
| `AofRestart.Restart` | apps/redis/redis-7.2.4/src/aof.c:713-766 | A start-up on any directory that rebuilds a dataset gives a server that holds it, and every directory on the way, from the one found to the one the server starts with, one call apart, rebuilds it too |
| `AofManifest.NotedTwice` | apps/redis/redis-7.2.4/src/aof.c:2425-2742 | The moments of two steps in a row are those of one step, when the state between them is fatal only if the one before or after is |
| `AofRun.Step` | apps/redis/redis-7.2.4/src/aof.c:1064-2742 | Every event (command, flush, rewrite, end of a rewrite) with every outcome of its system calls: no call is missing from the history, each moment has the dataset of the commands flushed by then, and the outcomes alone decide whether it can be rebuilt |
| `AofRun.Run` | apps/redis/redis-7.2.4/src/aof.c:1064-2742 | The same for every event of every run: the history leads from the first directory to the last, one call at a time |
| `AofRun.CrashAt` | apps/redis/redis-7.2.4/src/aof.c:580-586 | A crash between any two calls of any run, each directory being one call after the one before it: a start-up rebuilds, with no BASE or INCR forgotten in the directory, exactly the commands flushed by then if no failed directory sync has left the manifest fatal before or after the event, and does not if it was fatal on both sides |
| `AofRun.SurvivesIff` | apps/redis/redis-7.2.4/src/aof.c:580-586 | Every crash of a run is survived if and only if no failed directory sync left a manifest that names a removed BASE, or one INCR too many with a torn write before it |
| `AofRun.SyncedIsNeverFatal` | apps/redis/redis-7.2.4/src/aof.c:2425-2742 | In particular when no directory sync fails, whatever writes, renames, forks and children fail |
| `AofRun.CrashAndRestart` | apps/redis/redis-7.2.4/src/aof.c:713-766 | After such a crash the next server holds the commands flushed by then and is ready for the next run |
| `AofRestart.UnsyncedRewriteIsFatal` | apps/redis/redis-7.2.4/src/aof.c:580-586 | A failed directory sync in the done handler leaves a manifest that names a removed BASE: the directory cannot be loaded |
| `AofRestart.UnsyncedIncrThenTorn` | apps/redis/redis-7.2.4/src/aof.c:580-586 | A failed directory sync when opening an INCR followed by a torn write leaves a directory that cannot be loaded |
| `AofRestart.TornSwitchIsFatal` | apps/redis/redis-7.2.4/src/aof.c:2425-2493 | So does a switch to a new INCR right after a torn write |
| `AofRestart.NextIncrRepairs` | apps/redis/redis-7.2.4/src/aof.c:790-853 | The next INCR whose manifest is renamed repairs the first of these |
| `AofRestart.LeftoverIsReplayed` | apps/redis/redis-7.2.4/src/aof.c:2425-2493 | If the forced flush leaves commands in the buffer, a rewrite snapshots them and a later load runs them again |
| `AofRestart.LeftoverCounts` | apps/redis/redis-7.2.4/src/aof.c:2425-2493 | On a server whose dataset counts its commands, what is loaded after such a rewrite is the dataset if and only if the forced flush emptied the buffer |
| `AofBuffer.Log.Feed` | apps/redis/redis-7.2.4/src/aof.c:1352-1356 | Feeding appends to the buffer and keeps file followed by buffer equal to all bytes fed |
| `AofBuffer.Log.Write` | apps/redis/redis-7.2.4/src/aof.c:1026-1043 | aofWrite retries short and interrupted writes and reports what was taken; the bytes land where the descriptor points |
| `AofBuffer.Log.Unfinished` | apps/redis/redis-7.2.4/src/aof.c:1131-1212 | The error branch, with and without a successful truncate |
| `AofBuffer.Log.TryFsync` | apps/redis/redis-7.2.4/src/aof.c:1234-1265 | The fsync offset and time are those of the policy, and the offset never passes the file size; "always" exits if it cannot sync |
| `AofBuffer.Log.FlushNow` | apps/redis/redis-7.2.4/src/aof.c:1128-1265 | One write with any outcome: exactly when file and buffer still hold what was fed |
| `AofBuffer.Log.Flush` | apps/redis/redis-7.2.4/src/aof.c:1064-1265 | The same for the whole function with postponement: a write is postponed exactly while a background fsync runs and for less than two seconds, data are synced as the policy says, and all is exact if and only if the descriptor stood at the end, nothing was taken, or the short write was truncated away |
| `AofBuffer.Run` | apps/redis/redis-7.2.4/src/aof.c:1026-1265 | For every sequence of feeds and flushes on an append-mode file: file + buffer = all bytes fed, and the file length is the recorded size |
| `AofBuffer.RunIff` | apps/redis/redis-7.2.4/src/aof.c:1026-1265 | For every run on any file, until the server exits: file and buffer hold all bytes fed if and only if nothing was kept of a write that came after a short write that was truncated away |
| `AofBuffer.GapAfterTruncate` | apps/redis/redis-7.2.4/src/aof.c:805-815 | Counterexample for files a rewrite opens, which lack append mode: a truncated short write leaves a gap of zeros before the next one |
| `AofLog.CatCommand` | apps/redis/redis-7.2.4/src/aof.c:1268-1291 | The buffer loop appends the encoding of the command |
| `AofLog.CommandReads` | apps/redis/redis-7.2.4/src/aof.c:1485-1535 | An encoded command is read back, whatever follows it |
| `AofLog.CommandCut` | apps/redis/redis-7.2.4/src/aof.c:1485-1535 | Every proper part of it is recognised as cut short |
| `AofLog.EmptyCommandRejected` | apps/redis/redis-7.2.4/src/aof.c:1495-1496 | A command without arguments is encoded but not accepted by the loader |
| `AofLoader.LoadFile` | apps/redis/redis-7.2.4/src/aof.c:1395-1640 | The read loop and its end, for any file: status, commands run, and the bytes kept, with unknown commands and with a truncation that is not wanted or fails |
| `AofLoader.ScanWithin` | apps/redis/redis-7.2.4/src/aof.c:1469-1576 | Both truncation offsets lie in the file |
| `AofLoader.EncodedLoads` | apps/redis/redis-7.2.4/src/aof.c:1469-1576 | Loading an encoded log runs exactly its commands in order, outside transactions and inside closed ones, and keeps those of a transaction left open queued; both offsets are ends of commands |
| `AofLoader.OpenFrom` | apps/redis/redis-7.2.4/src/aof.c:1553-1565 | Where the transaction begins that a log leaves open: every MULTI before it has an EXEC after it, and it has none |
| `AofLoader.ExecutedIs` | apps/redis/redis-7.2.4/src/aof.c:1553-1565 | What a log runs is the commands before that place, without MULTI and EXEC; what it has queued is the commands after it |
| `AofLoader.EncodedLoadsIff` | apps/redis/redis-7.2.4/src/aof.c:1268-1576 | Encoding is undone by loading if and only if every command has a name that is known |
| `AofLoader.CutScan` | apps/redis/redis-7.2.4/src/aof.c:1469-1576 | A log cut at any byte runs exactly its whole items; a cut annotation goes unnoticed |
| `AofLoader.CutLoads` | apps/redis/redis-7.2.4/src/aof.c:1469-1625 | Without MULTI and annotations, a log cut at any byte keeps exactly the longest prefix of whole commands, and valid_up_to is its end |
| `AofLoader.CutRuns` | apps/redis/redis-7.2.4/src/aof.c:1469-1625 | With transactions and annotations, for a cut at any byte: the commands of the whole items are run but those of an open transaction, and what is kept ends at the last whole command, before the open transaction, or at the end of the file |
| `AofLoader.LoadLog` | apps/redis/redis-7.2.4/src/aof.c:1395-1640 | The loader on any beginning of any log: the commands it runs, its status and the bytes it keeps |
| `AofLoader.ValidIsLastRun` | apps/redis/redis-7.2.4/src/aof.c:1570-1573 | valid_up_to is the end of the last command |
| `AofLoader.BeforeMulti` | apps/redis/redis-7.2.4/src/aof.c:1578-1587 | In an open transaction the other offset is where the last command before it ended |
| `AofLoader.CutContinuesIff` | apps/redis/redis-7.2.4/src/aof.c:1469-1625 | After a cut, truncation and further appends, the next load runs what was kept and what was appended if and only if the cut fell between items, in a command outside a transaction, or in an annotation inside one |
| `AofLoader.GluedAnnotation` | apps/redis/redis-7.2.4/src/aof.c:1492-1493 | After a cut annotation the next command's header is swallowed and the file is malformed |
| `AofLoader.CutsThatDoNotContinue` | apps/redis/redis-7.2.4/src/aof.c:1469-1625 | The smallest cuts of both kinds that do not continue |
| `AclRules.CoveredCanGo` | apps/redis/redis-7.2.4/src/acl.c:550-604 | Earlier rules that a new rule covers can be dropped without changing what the list means |
| `AclText.RemoveRule` | apps/redis/redis-7.2.4/src/acl.c:550-592 | The in-place edit of the rule string removes exactly the rules equal to the new one or extending it by a bar |
| `AclSplit.SplitJoin` | apps/redis/redis-7.2.4/src/sds.c:1008-1106 | Plain rules survive being joined and split |
| `AclSplit.SplitIff` | apps/redis/redis-7.2.4/src/sds.c:1008-1106 | A rule is split into itself if and only if it holds no blank, quote or null |
| `AclQuote.CatRepr` | apps/redis/redis-7.2.4/src/sds.c:906-935 | The loop of sdscatrepr appends the quoted word |
| `AclQuote.SplitQuoted` | apps/redis/redis-7.2.4/src/sds.c:996-1106 | Splitting undoes quoting, as the comment there promises: a line of quoted words gives back exactly these words, whatever bytes they hold |
| `AclTable.LookupName` | apps/redis/redis-7.2.4/src/server.c:3153-3175 | A looked-up command is the one of that name, up to case |
| `AclTable.ParseLower` | apps/redis/redis-7.2.4/src/acl.c:596-604 | A rule is kept in lower case, and that text is the same rule |
| `AclTable.MatchCovers` | apps/redis/redis-7.2.4/src/acl.c:576-586 | A rule whose text the removal matches is one the new rule covers |
| `AclMeaning.RuleMeaning` | apps/redis/redis-7.2.4/src/acl.c:940-1180 | A rule with a plus grants exactly the commands it names, with their subcommands, or those of its category; one with a minus takes exactly these away; everything else stays, and a command with a first argument adds that |
| `AclMeaning.RuleIff` | apps/redis/redis-7.2.4/src/acl.c:1096-1176 | An operation with a sign is accepted if and only if it names a category, a command or a subcommand, or with a plus a command without subcommands and a first argument |
| `AclMeaning.SetAsDocumented` | apps/redis/redis-7.2.4/src/acl.c:940-1180 | The same on a selector, bit by bit, with every refused operation changing nothing |
| `Acl.NewRule` | apps/redis/redis-7.2.4/src/acl.c:596-604 | Removing the matched rules and adding the new one keeps the list reproducing the permissions |
| `Acl.Selector.constructor` | apps/redis/redis-7.2.4/src/acl.c:312-331 | A new selector allows nothing |
| `Acl.Selector.SetBit` | apps/redis/redis-7.2.4/src/acl.c:536-545 | One bit changes, and the all-commands flag falls with the first bit cleared |
| `Acl.Selector.ResetFirst` | apps/redis/redis-7.2.4/src/acl.c:891-901 | The first arguments of one command go |
| `Acl.Selector.ChangeCmd` | apps/redis/redis-7.2.4/src/acl.c:608-623 | A command and all its subcommands change |
| `Acl.Selector.ChangeCategory` | apps/redis/redis-7.2.4/src/acl.c:629-642 | Exactly the commands and subcommands of the category change |
| `Acl.Selector.AddFirstArg` | apps/redis/redis-7.2.4/src/acl.c:918-942 | The first argument is added once, up to case |
| `Acl.Selector.UpdateRules` | apps/redis/redis-7.2.4/src/acl.c:596-604 | The rule string is the kept rules followed by the new one |
| `Acl.Selector.Add` | apps/redis/redis-7.2.4/src/acl.c:1096-1160 | The "+" branch, with every error leaving the selector unchanged |
| `Acl.Selector.Remove` | apps/redis/redis-7.2.4/src/acl.c:1161-1168 | The "-" branch |
| `Acl.Selector.SetCategory` | apps/redis/redis-7.2.4/src/acl.c:682-690 | The category branch |
| `Acl.Selector.SetAll` | apps/redis/redis-7.2.4/src/acl.c:1027-1040 | +@all and -@all set every bit and clear rules and first arguments |
| `Acl.Selector.Set` | apps/redis/redis-7.2.4/src/acl.c:1010-1180 | Any operation: +@all and allcommands allow everything, -@all and nocommands nothing, errors and other operations change nothing, a rule is applied and kept, and the string goes on reproducing the permissions |
| `Acl.Describe` | apps/redis/redis-7.2.4/src/acl.c:733-786 | The text is split into a first word and the rules; playing all of them grants exactly the permissions of the selector, and replaying them gives the same bitmap and first arguments: the panic is unreachable |
| `Acl.Reread` | apps/redis/redis-7.2.4/src/acl.c:726-786 | All words of the description, the first included, given to a new selector make it the same again: bitmap, first arguments and rule string |
| `Acl.GoOn` | apps/redis/redis-7.2.4/src/acl.c:1010-1180 | From a selector in good order, or from any selector if the first operation is +@all or -@all: after any operations whose first arguments are plain it grants what the whole history plays, and all invariants hold |
| `Acl.History` | apps/redis/redis-7.2.4/src/acl.c:1010-1180 | The same from a new selector; no name has two rules in the string, nor a subcommand or first argument one before that of its command |
| `Acl.Selector.SetArgument` | apps/redis/redis-7.2.4/src/acl.c:1010-1180 | An argument is cut at its first null |
| `Acl.ReadBackIff` | apps/redis/redis-7.2.4/src/sds.c:1008-1106 | A rule is split into itself if and only if its first argument is plain |
| `AclReadBack.GoodTextRebuilds` | apps/redis/redis-7.2.4/src/acl.c:733-786 | A text whose rules are listed and settled stands for the permissions of its selector |
| `AclReadBack.HistoryRebuilds` | apps/redis/redis-7.2.4/src/acl.c:550-1180 | Though older rules are deleted in place, after any history whose first arguments are plain (at least since the last +@all or -@all) the text of the selector stands for exactly what playing the whole history grants |
| `AclReadBack.LostArgument` | apps/redis/redis-7.2.4/src/acl.c:733-786 | A first argument that is not plain is never rebuilt, whatever quotes and escapes the text holds |
| `AclReadBack.StepReproducesIff` | apps/redis/redis-7.2.4/src/acl.c:596-786 | From any selector with a good text, after one more accepted rule the text stands for the permissions if and only if the first argument of the rule is plain |
| `AclReadBack.SetAndRebuild` | apps/redis/redis-7.2.4/src/acl.c:1010-1180 | The same for every operation of the selector |
| `AclReadBack.SpaceIsLost` | apps/redis/redis-7.2.4/src/acl.c:1096-1160 | Counterexample: a first argument with a space is accepted, and the text no longer stands for it |
| `Blocked.Tables.constructor` | apps/redis/redis-7.2.4/src/blocked.c:75-83 | Nobody is blocked at first |
| `Blocked.JoinIndexed` | apps/redis/redis-7.2.4/src/blocked.c:374-407 | Joining a key's list keeps the two-way index |
| `Blocked.LeaveIndexed` | apps/redis/redis-7.2.4/src/blocked.c:512-545 | Leaving through the stored node keeps it, and drops exactly that client |
| `Blocked.LeaveNoKey` | apps/redis/redis-7.2.4/src/blocked.c:512-545 | The no-key counter follows, and goes when it reaches zero |
| `Blocked.Tables.BlockClient` | apps/redis/redis-7.2.4/src/blocked.c:88-99 | The count of the type and the total are exact again, and all invariants are kept, whatever the client is blocked for |
| `Blocked.Tables.Join` | apps/redis/redis-7.2.4/src/blocked.c:374-407 | A key named twice is joined once |
| `Blocked.Tables.BlockForKeys` | apps/redis/redis-7.2.4/src/blocked.c:368-415 | The client stands at the end of the list of every key it names; all invariants hold |
| `Blocked.Tables.Release` | apps/redis/redis-7.2.4/src/blocked.c:512-545 | The client leaves one list, and an empty list goes |
| `Blocked.Tables.UnblockWaitingData` | apps/redis/redis-7.2.4/src/blocked.c:419-433 | The client leaves every list, the rest keep their order |
| `Blocked.Tables.UnblockClient` | apps/redis/redis-7.2.4/src/blocked.c:184-224 | All invariants hold, and only this client changes |
| `Blocked.Tables.UnblockOnKey` | apps/redis/redis-7.2.4/src/blocked.c:636-650 | The same when woken by one key |
| `Blocked.Tables.Signal` | apps/redis/redis-7.2.4/src/blocked.c:452-499 | No wake-up is lost: after a signal a key with a waiter of that type or of a module is queued, after a deletion one with such a waiter that wants to know; and each key is queued at most once |
| `Blocked.TotalChange` | apps/redis/redis-7.2.4/src/blocked.c:88-99 | blocked_clients counts the blocked clients that are not a module's |
| `BlockedReady.GiveTurn` | apps/redis/redis-7.2.4/src/blocked.c:570-592 | One turn: who is not woken stays, a module's client stays, any other leaves its lists, runs, and comes back at the end of the lists it blocks on again; every key that it signals while somebody waits for it is ready |
| `BlockedReady.SignalAll` | apps/redis/redis-7.2.4/src/blocked.c:452-499 | After the signals of a turn every signalled key that a client of its type or of a module waits for is ready, and no key that was not signalled |
| `BlockedReady.TurnIs` | apps/redis/redis-7.2.4/src/blocked.c:576-592 | Woken are those who wait for the type found, a module's clients if anything is found, and those who want to know of every change; of these all but a module's are run again |
| `BlockedReady.WalkOn` | apps/redis/redis-7.2.4/src/blocked.c:566-591 | The list while it is walked and changed: those that stay, those whose turn is still to come, and those that came back, each in order |
| `BlockedReady.TakeTurn` | apps/redis/redis-7.2.4/src/blocked.c:570-592 | The next node is noted before the turn, and is the next of those that waited at the start |
| `BlockedReady.HandleKey` | apps/redis/redis-7.2.4/src/blocked.c:558-595 | Each of the clients that wait at the start gets exactly one turn, in the order in which they blocked; nobody is visited twice, even if it blocks again; the list ends as those that stay followed by those that came back; everybody else is unchanged; who is served is told by the type found, the type waited for and the flag; and every signal that somebody waits for by then leaves its key ready |
| `BlockedReady.HandleReady` | apps/redis/redis-7.2.4/src/blocked.c:336-353 | A pass over the ready keys leaves every client as its turns for these keys say; what is signalled in the turns of a key while somebody waits for it has its own turn later in the pass or is ready for the next, and nothing else is |
| `BlockedReady.HandleAll` | apps/redis/redis-7.2.4/src/blocked.c:315-355 | The same for any number of passes of the outer loop: what is signalled in a pass and waited for has its turn later in that pass or in the next one, and the loop ends only when no key is ready |
| `Blocked.NoKeyIsBlocking` | apps/redis/redis-7.2.4/src/blocked.c:470-479 | A key in the no-key table is also in the blocking table |
| `Blocked.NobodyMissed` | apps/redis/redis-7.2.4/src/blocked.c:455-468 | The early return on zero counts misses nobody of that type |
| `Popcount.SumsAre` | apps/redis/redis-7.2.4/src/bitops.c:66-86 | The masked sums of a word are the counts of its single bytes |
| `Popcount.AddWord` | apps/redis/redis-7.2.4/src/bitops.c:66-86 | Adding a word's sums to the running ones never carries between bytes |
| `Popcount.GatherIs` | apps/redis/redis-7.2.4/src/bitops.c:80-86 | The multiplication by 0x01010101 adds up the four bytes |
| `Popcount.Block` | apps/redis/redis-7.2.4/src/bitops.c:53-87 | The word-parallel sum of 28 bytes is their count |
| `Popcount.Popcount` | apps/redis/redis-7.2.4/src/bitops.c:40-92 | For every string and alignment the result is the bit-by-bit count |
| `Popcount.FirstMaskIs` | apps/redis/redis-7.2.4/src/bitops.c:838-845 | The first mask keeps exactly the ones before the start |
| `Popcount.LastMaskIs` | apps/redis/redis-7.2.4/src/bitops.c:838-845 | The last mask keeps exactly the ones after the end |
| `Popcount.Edges` | apps/redis/redis-7.2.4/src/bitops.c:856-872 | A range of bits is its bytes without the ones under the two masks, also when both ends fall in one byte |
| `Popcount.Bitcount` | apps/redis/redis-7.2.4/src/bitops.c:810-872 | BITCOUNT with any range, in bytes or bits, counts the ones at the positions asked for |
| `Bitfield.GetUnsigned` | apps/redis/redis-7.2.4/src/bitops.c:229-241 | The loop reads the number that the bits denote |
| `Bitfield.PutBit` | apps/redis/redis-7.2.4/src/bitops.c:213-219 | Replacing a bit of a byte replaces that bit of the string and no other |
| `Bitfield.SetUnsigned` | apps/redis/redis-7.2.4/src/bitops.c:209-222 | The low bits of the value are stored, and no other bit changes |
| `Bitfield.ExtendFits` | apps/redis/redis-7.2.4/src/bitops.c:243-262 | Sign extension gives the congruent number of the signed range |
| `Bitfield.GetField` | apps/redis/redis-7.2.4/src/bitops.c:229-262 | A field read as its type |
| `Bitfield.SetField` | apps/redis/redis-7.2.4/src/bitops.c:209-227 | A number in range is read back after it is written |
| `Bitfield.CheckUnsignedIs` | apps/redis/redis-7.2.4/src/bitops.c:288-323 | Nonzero exactly when the sum leaves the range; the wrapped value is congruent, the saturated one the nearest bound |
| `Bitfield.CheckSignedIs` | apps/redis/redis-7.2.4/src/bitops.c:325-379 | The same for signed fields up to 64 bits |
| `Bitfield.CheckSignedSetIs` | apps/redis/redis-7.2.4/src/bitops.c:325-379 | For SET: saturation gives the nearest bound except for values so low that max - value leaves 64 bits, which saturate upwards |
| `Bitfield.LowestSaturatesUpwards` | apps/redis/redis-7.2.4/src/bitops.c:325-379 | Counterexample: the lowest 64-bit number set as an i8 becomes 127 |
| `Bitfield.Check` | apps/redis/redis-7.2.4/src/bitops.c:1155-1200 | The two checks as the operation loop uses them |
| `Bitfield.Store` | apps/redis/redis-7.2.4/src/bitops.c:1139-1215 | SET and INCRBY: the wanted number if it fits, else wrapped, saturated or nothing written; the reply; no other bit changes |
| `Bitfield.Fetch` | apps/redis/redis-7.2.4/src/bitops.c:1216-1251 | GET through nine copied bytes reads the string as if padded with zeros |
| `Bitfield.Run` | apps/redis/redis-7.2.4/src/bitops.c:1135-1253 | The operations of one command, each on what the ones before it left |
| `Bitfield.HighestWrite` | apps/redis/redis-7.2.4/src/bitops.c:1085-1088 | The last bit that any writing operation needs |
| `Bitfield.Grow` | apps/redis/redis-7.2.4/src/bitops.c:481-503 | The string is extended with zeros up to a bit, and never cut |
| `Bitfield.Command` | apps/redis/redis-7.2.4/src/bitops.c:1030-1253 | A whole command on a string of any length, also none: room for the writing operations, then each operation on what the ones before it left; without a writing operation the string stays as it is |

## Left out

- LFU, `poly_policy` and `backup_policy.cc`: ties depend on unspecified sort and hash order; the rest is a printing copy.
- RunMin: a negative target goes through the conversion to `size_t` as in the code; input parsing and printing are not modelled.
- BuildTable: the constants in `mrg_transitions.c` are taken to be what `dump_mrg_powers` prints.
- AcksAlwaysExact: runs in which fewer than 65536 acknowledgements are owed to a process at a time, so that their `ushort` does not wrap; `ShortAcksIff` shows the bound to be exact, step by step.
- BarrierCompletesSends: handlers do not send, a message fits one buffer (`NoOverrunIff` says which do), the handler number fits its byte, MPI is reliable (section 3.5 of the MPI 3.0 standard), and group sizes are powers of two, as `aml_init` demands. Waiting for a free send slot is not modelled.
- Search.Run: each level delivers all its messages; that its barrier ends is `BarrierEnds`.
- Sssp.Run: exact integers instead of floats, so rounding and the bucket width 0.1 are not modelled.
- ValidateBfs: the graph is symmetric, as the construction makes it; the validation of shortest paths is not modelled.
- ScramblePermutes: the 64-bit forms of the reversal; the form on two 32-bit halves is not modelled.
- MakeOneEdge: the random quadrants are parameters; the Bernoulli draw is not modelled.
- Convert: the six-byte packing of vertex numbers and integer widths are not modelled; `degrees` is assumed long enough, as in the code.
- LoadFiles: the upgrade from a single old file, file sizes and progress reports are not modelled.
- StartRewrite: a switch that succeeds follows a flush that leaves nothing behind; `LeftoverIsReplayed` says what happens otherwise. The wait-for-rewrite state is not modelled.
- Server.Flush: a write is torn at one command; what a continuation of a torn command looks like in another file is an unreadable file here, not its bytes.
- AofRun.Run: the text format of the manifest and the contents of the RDB preamble are not modelled; the writing of a snapshot under its temporary name is one call, a crash is between calls, and what was written is on disk.
- Log.Flush: latency reports, log messages and replication offsets are not modelled.
- AofLog.CommandReads: numbers are unbounded, and blanks, signs and overflow in `atoi` and `strtol`, the line buffer of 1024 bytes and the table of two-digit numbers are not modelled.
- AofLoader.ExecutedIs: a MULTI inside a transaction is left out here and in `CutContinuesIff`, though the loader models it.
- Acl.History: what later operations make of a text with a rule whose first argument holds a blank or quote is not modelled until the next +@all or -@all; `StepReproducesIff` shows what that rule itself does.
- Acl.Selector.Set: key and channel patterns are recognised and change nothing; the bitmap is a sequence of 1024 booleans over a fixed command table with ids below the reserved one.
- Acl.Describe: the all-commands flag is shown consistent with the bitmap, not reproduced by the replay.
- BlockedReady.HandleKey: what is found under a key, what a command signals and how it ends are parameters; replies, timeouts and the later unblocking of a module's clients are not modelled.
- BlockedReady.HandleAll: any number of passes, but not that there are finitely many, which depends on the commands.
- Popcount.Popcount: the 256-entry table is taken to hold the number of ones of its index.
- ACL users, passwords, selector lists and the ACL log; Redis event loop, networking and configuration; `controller.c`; YCSB-C; Python scripts; `random-write`; MPI file input and output, pinning and timing: system calls, thin wrappers or no invariants worth proving.
