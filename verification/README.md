# BrickTrace verification

Dafny models of the parts of BrickTrace that are algorithms or protocols, with proofs of
what they promise. `dafny verify dfyconfig.toml` checks the whole project.

The models fall into five groups.

* **Lineage graphs.** `Graphs` defines walks, reachability, acyclicity and distance; all
  graph results are stated with these. `Layering` is the map layout: an explicit-stack
  depth-first search that drops back-edges, then longest-path layering. `LineageGraph`
  collapses jobs and pipelines out of a graph. `Trace` is the cross-catalog trace, two
  breadth-first walks that run concurrently over shared sets, in the inline and the
  patched variant, with `TraceClaims` (the exact condition under which one run loses no row)
  and `TraceLosses` (the lineages on which some schedule does).
  `TraceGraph` is the two separately written graph builders and the node
  classification. `Bfs`, `Backtrack`, `ColumnPath` and `Impact` are the other three walks.
* **Concurrency.** `Build` (reservation and daily budget), `Breaker` and `Gate` (admission
  to the warehouse) and `SingleFlight` (cached fetches under a bounded pool of locks) each
  consist of the critical sections as functions or class methods, and a step system that
  interleaves any number of callers.
* **Spark plans.** `PlanText` (splitting, aliases, bracket groups), `PlanTree` (the indent
  stack) and `PlanSources` (alias resolution).
* **Lexers and escapers.** `DqLexer`, `DqPredicate` and `DqVerdict` (custom data-quality
  predicates, and what their verdict does not depend on), `SplitSql` (statement splitting) and `Escapes` (literals and LIKE patterns), over `Text` and `Alphabets`.
* **Rate limiting.** `RateLimiter`, over whole runs of requests.

`Sequences` and `Wrappers` hold shared vocabulary.

Where the code and its documentation disagree the models follow the code:

* "The result stays acyclic" (backend/lineage_service.py:1102) does not hold;
  `TraceGraph.AcyclicRowsCyclicGraph` is a counterexample and
  `TraceGraph.AcyclicWhenCrossProductIs` the exact condition.
* Entities do count toward table connectivity in `_classify_table_nodes`
  (backend/lineage_service.py:983): an edge to a job is an edge.
* HALF_OPEN admits every caller, not one probe (backend/circuit_breaker.py:7).
* A refund after midnight lowers the new day's counter (backend/build_service.py:365-370).
* A lock that is in use can be evicted (backend/lineage_service.py:393): it may be taken
  after the test that found it free; `SingleFlight.HeldLockIsPopped` is such a run.
* The rate limiter reads the clock before it takes its lock (backend/main.py:386-388), so
  requests need not be counted in the order of their times; `RateLimiter.AnyClockIffOne`
  says when that matters.
* Hops with different ends can share the key by which backtracking deduplicates them
  (backend/transform_service.py:846).
* `/*/` is a whole comment for the statement splitter (testbed/split_sql.py:34-37), whose
  search for the end starts at the opening slash.

## Model

| member | source | states |
|---|---|---|
| `Layering.BuildAdjacency` | backend/excel_export.py:97-103 | The adjacency sets are exactly the edges between known ids without self-loops, and the incident ids exactly those with an edge |
| `Layering.Partition` | backend/excel_export.py:105-106 | Orphans and connected ids list, once each and in the order of the ids, those without and with an edge |
| `Layering.ReadNeighbour` | backend/excel_export.py:120-130 | One neighbour is skipped, dropped, kept or followed, and the whole search invariant survives: gray is the stack, finished nodes are ranked, dropped edges close a cycle, every read edge is listed once |
| `Layering.SearchTree` | backend/excel_export.py:116-133 | One tree is searched to the end with an empty stack; it terminates by unvisited nodes, then unread neighbours |
| `Layering.DropBackEdges` | backend/excel_export.py:108-133 | The kept edges are an acyclic part of the graph, every dropped edge u to v has a kept path from v back to u, finishing numbers fall along kept edges, each edge is read exactly once, and a root that no earlier root reaches keeps no edge from what it reaches back into itself |
| `Layering.NothingDropped` | backend/excel_export.py:123-125 | The search keeps every edge if and only if the graph has no cycle |
| `Layering.DroppedClosesCycle` | backend/excel_export.py:123-125 | Putting any dropped edge back makes a cycle with the kept ones |
| `Layering.CountInDegrees` | backend/excel_export.py:136-139 | The in-degrees are the numbers of kept edges into each node |
| `Layering.RelaxNode` | backend/excel_export.py:144-149 | After a node's edges are relaxed, in-degrees count the waiting predecessors, the queue holds once each the waiting nodes without any, and every layer is justified from below |
| `Layering.LongestPathLayers` | backend/excel_export.py:135-149 | Every connected node is dequeued exactly once, every kept edge climbs, and every positive layer has a predecessor exactly one below |
| `Layering.LayeredIsLongest` | backend/excel_export.py:144-146 | The layer of a node is the number of edges of the longest kept path that ends there |
| `Layering.NoGaps` | backend/excel_export.py:140-149 | Every layer below an occupied one is occupied |
| `Layering.GroupByLayer` | backend/excel_export.py:151-154 | Every connected node stands in the list of its own layer, once, and nothing else stands in any list |
| `Layering.SortByName` | backend/excel_export.py:155-156 | A layer is put in the order of its nodes' names, with the same nodes, each once |
| `Layering.LayerNodes` | backend/excel_export.py:80-157 | The layout is the acyclic part of the graph with each node at its longest distance from a source, every layer in the order of names, the other ids are orphans, the returned adjacency is the graph itself, and of a cycle exactly the edges back into its foremost id are dropped when no earlier id reaches it |
| `Layering.LayoutClimbs` | backend/excel_export.py:80-157 | A node is in one layer only; kept edges, and all edges of an acyclic graph, lead to a later layer |
| `LineageGraph.SortEdges` | backend/excel_export.py:52-60 | The first pass separates the direct edges from the edges of each entity, losing and inventing none |
| `LineageGraph.CollapseEdges` | backend/excel_export.py:40-67 | The output lists, once each and without self-loops, exactly the pairs of tables of which one feeds the other directly or through one entity |
| `LineageGraph.ContractionKeepsReach` | backend/excel_export.py:40-67 | Without entity-to-entity edges, one table reaches another exactly when it does after contracting the entities |
| `LineageGraph.ContractionKeepsCycles` | backend/excel_export.py:40-67 | Contracting the entities neither makes nor breaks a cycle |
| `LineageGraph.CollapseKeepsReach` | backend/excel_export.py:40-67 | The collapse adds no connection between tables, and without entity-to-entity edges loses none |
| `LineageGraph.EntityChainIsLost` | backend/excel_export.py:40-67 | With an edge between two entities a connection between two tables is lost |
| `Trace.Collector.Collect` | backend/lineage_service.py:894-900 | The shared rows become the old ones followed by the first row of each new key, in order: every row of the batch is there with its source, target, paths and entity id, no two new rows agree on all five, and of rows that do the first one stays, in the order of the batch |
| `Trace.AddAllFacts` | backend/perf_patches.py:136-143 | Collecting adds exactly the keys of the batch, repeats none, and takes every new row from the batch |
| `Trace.UntruncatedIsExact` | backend/perf_patches.py:124-189 | In every interleaving of the two walks that ends unflagged, the collected rows are exactly, with source, target, paths and entity id, those whose target is an ancestor or whose source is a descendant of the seed: always for the patched walk, and for the inline walk when only the seed is on both sides |
| `Trace.TraceIsSafe` | backend/lineage_service.py:902-955 | At every moment only rows of the seed's lineage are collected, and a walk that finished after a failed query or after hitting the node, row or hop cap has set the flag; the flag is set only if a walk broke off |
| `Trace.HopCapIsExact` | backend/lineage_service.py:886-912 | A walk asks at most MAX_ITERS times, and with tables to go and the node cap not exceeded it leaves its loop exactly when it has asked that often |
| `Trace.FailuresRaiseInline` | backend/perf_patches.py:172-174 | In every run an inline walk that finishes has had each of its queries answered, because a failed one raises; the patched walk never raises |
| `Trace.CutIsFlagged` | backend/lineage_service.py:911-940 | Any LINEAGE_HOP_MAX_ROWS matching rows may be all an inline hop gets, and that raises the flag |
| `Trace.InlineCanLoseRows` | backend/lineage_service.py:891-950 | A run of the inline walks that ends unflagged without a relevant row, because the up walk had claimed the table first |
| `TraceClaims.ClaimedIsCollected` | backend/lineage_service.py:902-955 | In every interleaving that ends unflagged, on any lineage, exactly the rows into a table the up walk claimed or out of a table the down walk claimed are collected |
| `TraceClaims.ExactIffClaimed` | backend/lineage_service.py:891-955 | Such a run is exact if and only if every relevant row has its target claimed by the up walk or its source by the down walk |
| `TraceLosses.OneAfterTheOther` | backend/lineage_service.py:902-955 | With caps large enough one inline walk can finish before the other starts, unflagged, and the second one then claims nothing of the first one's cone but the seed |
| `TraceLosses.BranchIsLost` | backend/lineage_service.py:891-950 | With caps large enough every row that leads from a table on both sides of the seed to no ancestor, or into one from no descendant, is lost by some unflagged run |
| `TraceLosses.NothingElseIsLost` | backend/lineage_service.py:891-950 | When there is no such row, every unflagged run collects every relevant row that does not lie inside a cycle with the seed |
| `TraceLosses.KeepsOutsideIff` | backend/lineage_service.py:891-955 | So the inline trace keeps all rows outside the seed's cycles, in every schedule, if and only if no row branches off those cycles |
| `TraceGraph.GatherEntities` | backend/lineage_service.py:1028-1053 | The table nodes are exactly the parsed references, and each entity's inputs and outputs are those of all its rows |
| `TraceGraph.DrawEdges` | backend/lineage_service.py:1099-1129 | The edge set is the union of what the rows draw, and the table pairs are the recorded pairs of distinct tables |
| `TraceGraph.BuildGraph` | backend/lineage_service.py:1007-1136 | Nodes, entities, edges and table pairs of the trace graph, all read off the set of rows |
| `TraceGraph.EdgeMeans` | backend/lineage_service.py:1095-1129 | An entity points at exactly the tables it writes, a table at exactly the entities that read without writing it, and two tables are joined exactly by rows without an entity and by read-after-writes |
| `TraceGraph.NoTwoCycles` | backend/lineage_service.py:1095-1102 | No table and entity point at each other, and no entity points at an entity |
| `TraceGraph.RowIsConnected` | backend/lineage_service.py:1116-1129 | The two ends of every recorded row are joined by one edge, or by two |
| `TraceGraph.EdgesAreRecorded` | backend/lineage_service.py:1116-1136 | Every table-to-table edge is a recorded row and every end of an edge is a node |
| `TraceGraph.SelfLoops` | backend/lineage_service.py:1122-1129 | A table has an edge to itself exactly when a row has it at both ends |
| `TraceGraph.AcyclicWhenCrossProductIs` | backend/lineage_service.py:1102 | The graph is acyclic if and only if every entity's inputs crossed with its outputs, together with the direct rows, is |
| `TraceGraph.AcyclicRowsCyclicGraph` | backend/lineage_service.py:1102 | Two jobs whose recorded pairs have no cycle and whose graph has one |
| `TraceGraph.Classify` | backend/lineage_service.py:981-1004 | The counts are the true in- and out-degrees of each table, and orphan, root, leaf and connected are what these say |
| `TraceGraph.NothingComesIn` | backend/lineage_service.py:981-1004 | In a built graph a table has no incoming edge exactly when every row that targets it names neither an entity nor a source |
| `TraceGraph.GatherScoped` | backend/lineage_service.py:1331-1399 | Entities are gathered from all rows, direct pairs only from rows with an end in scope |
| `TraceGraph.PruneKeeps` | backend/lineage_service.py:1400-1409 | The entities that stay are exactly those that touch the scope, with all they were seen to read and write |
| `TraceGraph.FollowUp` | backend/lineage_service.py:1416-1467 | The follow-up rows complete the kept entities and bring back no pruned one |
| `TraceGraph.RouteAll` | backend/lineage_service.py:1588-1592 | After routing, the edges are exactly the inputs into and the outputs out of every entity |
| `TraceGraph.AddDirect` | backend/lineage_service.py:1594-1604 | A direct pair is added exactly when no kept entity reads its source and writes its target |
| `TraceGraph.CoveredByRows` | backend/lineage_service.py:1594-1604 | A pair counts as covered exactly when one kept entity has a row that reads its source and a row that writes its target |
| `TraceGraph.DiscardBackEdges` | backend/lineage_service.py:1611-1613 | Exactly the edges from a table into an entity that also writes it are discarded |
| `TraceGraph.AddReadBacks` | backend/lineage_service.py:1614-1624 | Each row that reads a table its kept entity also writes becomes a direct edge |
| `TraceGraph.SchemaEdges` | backend/lineage_service.py:1331-1626 | The add-discard-add passes end with exactly the edges the trace builder means for the rows of the kept entities, plus the direct pairs in scope that no kept entity covers |
| `TraceGraph.BuildersAgree` | backend/lineage_service.py:1588-1624 | On the same rows with every entity kept the trace builder draws what the schema builder draws, and beyond it exactly the direct pairs that are out of scope or covered by an entity, and are no read-back |
| `TraceGraph.CollapsedTraceKeepsReach` | backend/excel_export.py:40-67 | Collapsing a built graph to its tables keeps who reaches whom |
| `Backtrack.BuildIndex` | backend/transform_service.py:787-797 | The index lists, per destination, exactly its edges, and the sources are all source columns |
| `Backtrack.SweepNode` | backend/transform_service.py:846-887 | Looking at one column's edges records the first hop of each key and each newly seen column once |
| `Backtrack.SweepLevel` | backend/transform_service.py:833-887 | One level records one hop per key among all hops into the frontier, and the next frontier is their sources outside the visited set, in any order of the frontier |
| `Backtrack.SweepExact` | backend/transform_service.py:833-896 | Without a clash of keys the level is exactly the columns one hop further, and records each distinct hop into the frontier once |
| `Backtrack.BacktrackColumn` | backend/transform_service.py:785-908 | Every list of edges, cyclic or repeated, gives exact levels, hops and totals if and only if no two different hops of one level share a key; an unknown column reports whether it is a source; whatever the keys, every recorded hop is the first row of its two columns and no level above the target is without a hop |
| `Backtrack.KeyIsReadBack` | backend/transform_service.py:846 | A key determines its hop when the source ids have no separator |
| `Backtrack.PlainIdsNeverClash` | backend/transform_service.py:846 | Source ids without the separator never clash |
| `Backtrack.ClashLosesOne` | backend/transform_service.py:846-850 | Of two different hops with one key that alone lead into a level exactly one is recorded, and the column the other comes from is missed |
| `Backtrack.ClashLosesHop` | backend/transform_service.py:846-850 | Four edges between columns with a bar in their names that lose a hop and its column so, however the level is swept |
| `Bfs.BallGrows` | backend/transform_service.py:829-898 | What a level points at outside the ball is the next level, and with it the next ball |
| `Bfs.BallStops` | backend/transform_service.py:830-831 | After an empty level the ball no longer grows |
| `ColumnPath.QueuedOnTheWay` | backend/routes/lineage.py:281-347 | Any unexpanded column in range has a queued column on the way that is no further away |
| `ColumnPath.FrontIsExact` | backend/routes/lineage.py:281-347 | A column is expanded at its true distance, although the queue holds duplicates |
| `ColumnPath.Follow` | backend/routes/lineage.py:300-345 | One answer is reported row by row, and followed unless already expanded |
| `ColumnPath.WalkColumnLineage` | backend/routes/lineage.py:281-347 | Exactly the columns at distance below max_hops are expanded, once each, in order of distance, and the path reports every answer row of every expansion |
| `ColumnPath.PathIsAnswers` | backend/routes/lineage.py:281-347 | A path entry is reported exactly when it is an answer row, in a direction asked for, about a column at distance hop - 1 below max_hops; an upstream row leads into that column, a downstream row out of it |
| `Impact.RadiusLaw` | backend/routes/impact.py:68-80 | The completed radius is the largest one before the first failing hop |
| `Impact.Hop` | backend/routes/impact.py:70-89 | A hop finds exactly the targets that are neither the start nor known, once each, with the hop's number |
| `Impact.BfsDownstream` | backend/routes/impact.py:59-90 | The result is exactly the distance map of the ball of radius max_hops without the start, or after a failed hop of the ball completed before it |
| `Build.BuildService.TryReserve` | backend/build_service.py:461-483 | A free table with room left is reserved; otherwise nothing changes and the reason is told, which is the build in progress even when there is no room |
| `Build.BuildService.ReserveBudget` | backend/build_service.py:346-362 | A new day starts from zero, whether or not the charge succeeds, and a charge succeeds only below the ceiling |
| `Build.BuildService.RefundBudget` | backend/build_service.py:365-372 | One charge is taken off the counter, never below zero |
| `Build.BuildService.DropReservation` | backend/build_service.py:489-491 | Only a placeholder is ever removed |
| `Build.BuildService.ReleaseRun` | backend/build_service.py:628-634 | Exactly the entries of the finished run go |
| `Build.BuildService.SubmitBuildJob` | backend/build_service.py:427-502 | A rejected submission changes nothing, a failed one leaves the locks as they were and gives its charge back, a launched one holds its table with its run |
| `Build.AlwaysSafe` | backend/build_service.py:461-502 | In every interleaving of submissions, polls, runs and midnights: entries stay within MAX_BUILDS_IN_FLIGHT, confirmed runs are at most one per table and never more than the entries, every placeholder has exactly one owner, every other entry is its submission's run, and the counter is at most the ceiling and within the stale refunds of the day's live charges |
| `Build.NothingLeftBehind` | backend/build_service.py:486-502 | When nothing is pending or launched for a table, no entry of it remains |
| `Build.RefundBalances` | backend/build_service.py:365-372 | A refund keeps the counter equal to the day's live charges if and only if it returns a charge of that day or there is nothing to take |
| `Build.StaleRefundOverspends` | backend/build_service.py:365-372 | For every positive ceiling and every pool of two or more builds, a reachable state with one live charge of the day more than the ceiling |
| `Build.BudgetBindsIff` | backend/build_service.py:346-372 | In every reachable state the live charges of the counter's day are within the ceiling if and only if at most one build is in flight at a time, or nothing may be charged |
| `Build.LostReplyRunsTwice` | backend/build_service.py:571-584 | For all positive limits, a reachable state in which one table is built twice at once, because a reply was lost after the launch |
| `Build.BuiltOnceIff` | backend/build_service.py:461-502 | In every reachable state no table is built twice at once if and only if no reply is lost, or no build is ever allowed |
| `Build.OnlyOwnersRelease` | backend/build_service.py:483-502 | A placeholder goes only when the one submission that owns it replaces it by its run or drops it, and until then no step moves its ownership |
| `Build.BalancedRefund` | backend/build_service.py:365-372 | A refund keeps the counter below the live charges by no more than the stale refunds |
| `Build.ConfirmedOnce` | backend/build_service.py:461-483 | Two confirmed runs of one table are the same run |
| `Breaker.CircuitBreaker.Check` | backend/circuit_breaker.py:59-84 | The caller is turned away exactly in OPEN, after the recovery time has been looked at |
| `Breaker.CircuitBreaker.RecordFailure` | backend/circuit_breaker.py:94-105 | The count and the time of the last failure advance, and at the threshold the breaker opens |
| `Breaker.CircuitBreaker.RecordSuccess` | backend/circuit_breaker.py:86-92 | The count returns to zero and the breaker closes |
| `Breaker.CircuitBreaker.ResetBreaker` | backend/circuit_breaker.py:107-112 | The count returns to zero and the breaker closes |
| `Breaker.FailureTimeAfter` | backend/circuit_breaker.py:94-105 | Over every history the count is the failures since the last success or reset, and the remembered time is that of the latest failure |
| `Breaker.BreakerIsExpected` | backend/circuit_breaker.py:59-112 | Over every history and any clock: CLOSED exactly while the streak of failures is below the threshold, otherwise HALF_OPEN exactly when somebody asked after the recovery time since the latest failure |
| `Breaker.ClosedBelowThreshold` | backend/circuit_breaker.py:94-105 | CLOSED exactly below the threshold holds over all histories if and only if the threshold is at least one |
| `Breaker.RejectedExactly` | backend/circuit_breaker.py:69-84 | A caller is turned away exactly while the streak is at the threshold and nobody, this caller included, has asked after the recovery time |
| `Breaker.HalfOpenAdmitsAll` | backend/circuit_breaker.py:7-8 | HALF_OPEN lets every caller through, not one probe, and the first recorded failure reopens |
| `Gate.WarehouseGate.Enter` | backend/warehouse_gate.py:225-253 | Only an admitted caller takes a slot; the counters and the breaker change by exactly its outcome |
| `Gate.WarehouseGate.Exit` | backend/warehouse_gate.py:255-267 | The slot and the gauge come back, and the breaker hears of everything but a shed |
| `Gate.WarehouseGate.RunStatement` | backend/warehouse_gate.py:270-279 | One statement from end to end gives back its slot and leaves the gauge as it was |
| `Gate.GateIsSafe` | backend/warehouse_gate.py:225-267 | In every interleaving: free permits plus holders are the slots, the gauge is the running statements less the drift of the last zeroing, the peak stays within the slots, and the breaker hears exactly once of each statement that ended on its own |
| `Gate.ShedIsSilent` | backend/warehouse_gate.py:234-246 | A caller that was turned away, shed, or ended by a nested shed has recorded no outcome |
| `Gate.AllGivenBack` | backend/warehouse_gate.py:255-259 | When nobody holds a slot all slots are free, and the gauge reads minus the drift |
| `Gate.ZeroingKeepsGauge` | backend/warehouse_gate.py:121-126 | Zeroing the counters leaves the gauge true if and only if no statement was running |
| `Gate.CountersAreTrue` | backend/warehouse_gate.py:121-126 | From the start and from any zeroing of the counters, until they are zeroed again, the peak is the highest the gauge has stood and the other counters are the numbers of callers admitted and shed |
| `Gate.AloneIsEnter` | backend/warehouse_gate.py:225-253 | In every state the steps of a caller that comes in undisturbed have exactly the effect and the answer of `Enter` |
| `Gate.AloneIsExit` | backend/warehouse_gate.py:255-267 | The steps of a caller that leaves undisturbed have exactly the effect of `Exit` |
| `Gate.ShedOnlyWhenFull` | backend/warehouse_gate.py:239-247 | In every interleaving a caller gives up waiting only while every slot is held |
| `Gate.ResetLetsIn` | backend/circuit_breaker.py:107-112 | In every state, after the administrator's reset the next caller that asks gets through |
| `SingleFlight.KeyedLocks.GetKeyedLock` | backend/lineage_service.py:381-397 | The key's lock is returned, newest in the pool, after evicting from the old end up to the first lock that its own test finds in use |
| `SingleFlight.TrimKeeps` | backend/lineage_service.py:389-396 | Eviction only removes entries, and neither the newest key nor a lock that is in use whenever it is tested |
| `SingleFlight.TrimEvicts` | backend/transform_service.py:141-146 | Exactly the oldest locks go, each free at its own test and no more than the bound asks for; the pool ends within its bound or with a lock in use as its newest |
| `SingleFlight.HeldLockStays` | backend/lineage_service.py:390-396 | A lock found in use at its test stays, becomes the newest and ends the loop; no step removes any lock but the pop of the oldest by the guard's owner |
| `SingleFlight.EvictedAfterTest` | backend/lineage_service.py:390-396 | In every run a lock about to be popped was the oldest and free at the test before; if it is held by then, its holder acquired it after that test |
| `SingleFlight.HandOutIsGetKeyedLock` | backend/lineage_service.py:381-397 | However the steps of a hand-out are interleaved with those of other calls, the pool ends as the method leaves it, for some locks in use at its tests |
| `SingleFlight.HeldLockIsPopped` | backend/lineage_service.py:390-396 | For every size of the pool, a run that is about to pop a lock that is held |
| `SingleFlight.SingleFlightHolds` | backend/lineage_service.py:437-454 | In every interleaving a returned answer is one that some call of the same key has fetched; unless a lock was evicted between its hand-out and its release, at most one call per key is past its lock and misses begin at most one fetch of a key more than its entry is lost, or a fetch fails or brings an unusable answer |
| `SingleFlight.WaiterIsAnswered` | backend/lineage_service.py:446-451 | After the leader stored a usable answer, a call whose re-check finds the entry alive returns that answer and fetches nothing |
| `SingleFlight.FewKeysFlySingly` | backend/transform_service.py:187-213 | With no more keys requested than the pool has room for, single flight holds unconditionally |
| `SingleFlight.NothingStrays` | backend/lineage_service.py:377-397 | With room for every requested key no lock is ever evicted between its hand-out and its release |
| `SingleFlight.StrayLockFetchesTwice` | backend/lineage_service.py:390-396 | For every size of the pool, a run over one key more than it has room for in which two calls fetch the same key at once |
| `SingleFlight.SinglyIffRoom` | backend/lineage_service.py:376-397 | Every run over at most n keys has at most one call per key past its lock if and only if the pool has room for n locks |
| `SingleFlight.SkippedIsFetched` | backend/lineage_service.py:437-454 | In every run a call that skips the cache returns what its own fetch returned, never a cached answer |
| `RateLimiter.RateLimitMiddleware.Prune` | backend/main.py:394-395 | Exactly the entries younger than the window stay, in order |
| `RateLimiter.RateLimitMiddleware.Dispatch` | backend/main.py:388-406 | The critical section: evict, prune, decide, record |
| `RateLimiter.TrackedUsersBounded` | backend/main.py:389-391 | At most MAX_TRACKED_USERS + 1 users are tracked, each once |
| `RateLimiter.OrderedByAdmission` | backend/main.py:399-406 | When anybody is admitted at all, the tracked users stand in strictly rising order of their last admission in the run |
| `RateLimiter.PushedOutIsOldest` | backend/main.py:388-391 | A user is pushed out exactly when more than MAX_TRACKED_USERS are tracked and its last admission is the longest ago |
| `RateLimiter.EntriesAreLog` | backend/main.py:393-405 | From the clock's last reading on, what is stored of a user and the times it was admitted at since it was last pushed out have the same part inside the window |
| `RateLimiter.AdmittedExactly` | backend/main.py:397-405 | A request is admitted exactly when fewer than the maximum were admitted within the window before it, since the user was last pushed out |
| `RateLimiter.WindowBounded` | backend/main.py:388-406 | No half-open window holds more admissions than the maximum, counted since the user was last pushed out |
| `RateLimiter.LimitHolds` | backend/main.py:388-406 | A user who is never pushed out is admitted at most max_requests times in every half-open window |
| `RateLimiter.PushedOutUserExceeds` | backend/main.py:389-391 | For every limiter with a positive maximum and window, a run over one user more than it tracks in which a pushed-out user is admitted once too often |
| `RateLimiter.LimitIffTracked` | backend/main.py:388-406 | In every run over at most n users with a clock that does not go back every user keeps the limit, if and only if n users are tracked, or the limiter admits nobody or has empty windows |
| `RateLimiter.AnyClockIffOne` | backend/main.py:386-406 | Whatever the clock does, tracked users keep the limit if and only if at most one request is admitted at a time, windows are empty or nobody is tracked |
| `PlanText.SplitTop` | backend/plan_capture/plan_parser.py:21-36 | The items are the non-blank pieces between separators at depth zero, stripped |
| `PlanText.PiecesExactly` | backend/plan_capture/plan_parser.py:21-36 | The pieces of a text are its one decomposition into parts that close their brackets and hold no separator at depth zero; joined they are the text |
| `PlanText.SplitFindsItems` | backend/plan_capture/plan_parser.py:21-36 | Items joined by separators, with or without spaces around them, are found again |
| `PlanText.FindAs` | backend/plan_capture/plan_parser.py:39-53 | The first ` AS ` at depth zero that is followed by an attribute and nothing else, if there is one |
| `PlanText.FindAsExactly` | backend/plan_capture/plan_parser.py:39-53 | The alias of `e AS name#id` is found, whatever e holds, if and only if e closes as many brackets as it opens; the expression is e stripped |
| `PlanText.AttributeReads` | backend/plan_capture/plan_parser.py:48 | `name#id` and `name#idL` are read back as name and id |
| `PlanText.AttributeExactly` | backend/plan_capture/plan_parser.py:50 | An attribute is read exactly from an identifier, a hash, digits and perhaps an L, with that name and the value of the digits |
| `PlanText.AttributeIdReads` | backend/plan_capture/plan_parser.py:48 | Every id is read back from its decimal digits, with or without the suffix |
| `PlanText.DepthIsExcess` | backend/plan_capture/plan_parser.py:25-29 | The depth behind a text is its opening less its closing brackets, round and square together |
| `PlanText.AttributeHasNoSpace` | backend/plan_capture/plan_parser.py:48 | An attribute holds no space |
| `PlanText.AllBrackets` | backend/plan_capture/plan_parser.py:56-68 | The contents of exactly the top-level square-bracket groups, in order: those that open at depth zero and end where the depth first returns to it |
| `PlanTree.ChainIsAbove` | backend/plan_capture/plan_parser.py:153-155 | The chain of parents of a node is exactly the nodes with nothing at or below their indent in between |
| `PlanTree.PopStacked` | backend/plan_capture/plan_parser.py:154-163 | After popping and pushing, the stack is the node's chain of parents with strictly increasing indents |
| `PlanTree.Contexts` | backend/plan_capture/plan_parser.py:146-163 | Each node gets the name of the nearest named node of its own chain of parents, itself included |
| `PlanSources.Resolve` | backend/plan_capture/plan_parser.py:252-273 | The recursion with its shared visited set ends on tangled aliases, visits only ids it reaches, completes each of them, and labels the leaves among them once |
| `PlanSources.SourcesOf` | backend/plan_capture/plan_parser.py:252-273 | The sources are, without repetition, the labels of exactly the non-aliased ids reachable through the alias definitions |
| `PlanSources.SourcesAreLabels` | backend/plan_capture/plan_parser.py:260-268 | When each leaf is always mentioned by the same name, the sources are the labels of all mentions of leaves |
| `PlanSources.LabelIsReadBack` | backend/plan_capture/plan_parser.py:264-268 | What stands before the last dot of a label is the leaf's table and what stands behind it the name; without a dot it is the name of a leaf without a table |
| `DqLexer.Tokenize` | backend/routes/dq.py:565-621 | A backslash is refused; otherwise the tokens found from left to right, or the first error |
| `DqLexer.LexIsLossless` | backend/routes/dq.py:590-621 | The texts of the tokens are the input, for any matcher |
| `DqLexer.MatchExactly` | backend/routes/dq.py:533-543 | A token of a kind is matched up to a position if and only if the text there has that kind's lexical form and ends there: runs are maximal, a number takes its fraction and exponent where they are complete, quotes inside literals are paired, a quoted identifier is short and clean |
| `DqLexer.MatchElsewhere` | backend/routes/dq.py:533-543 | In front of a parenthesis every token is matched as it is on its own |
| `DqLexer.WrapperLexes` | backend/routes/dq.py:786 | A text in parentheses lexes to what is before, the parenthesis, its own tokens, the parenthesis, and what is after |
| `DqPredicate.ValidatePredicate` | backend/routes/dq.py:640-705 | The check accepts exactly the predicates that lex, show no statement or comment token in their code, balance, use no reserved word bare, and call only unqualified allowed functions; it reports a lexing error exactly when there is one, and otherwise the first test that fails, with a token, word or name that fails it |
| `DqPredicate.CheckBalance` | backend/routes/dq.py:651-667 | Accepted exactly when no prefix closes more than it opened and the whole closes all |
| `DqPredicate.FindBadCall` | backend/routes/dq.py:683-705 | Nothing is found exactly when every name in front of an opening parenthesis is unqualified and allowed |
| `DqPredicate.SignificantBalance` | backend/routes/dq.py:624-626 | Dropping whitespace changes nothing about the parentheses |
| `DqPredicate.WrapperCloses` | backend/routes/dq.py:786 | The parenthesis in front of a predicate is closed by the one behind it if and only if the predicate's own parentheses balance |
| `DqPredicate.CheckSqlKeepsWrapper` | backend/routes/dq.py:778-786 | For every table and sample size the query of an accepted custom rule lexes, to the template's tokens around the predicate's, and the template's two parentheses close each other |
| `DqPredicate.AcceptedIsPlain` | backend/routes/dq.py:640-705 | To the statement scanner an accepted predicate is one closed piece of code: no comment, no statement end, no open quote |
| `DqVerdict.AcceptedExactly` | backend/routes/dq.py:640-705 | A predicate that lexes is accepted if and only if its code holds no statement or comment mark, no beginning of it closes more parentheses than it opens and the whole closes all, no bare word is reserved in any case, and every name in front of an opening parenthesis is an allowed one in any case, bare or quoted, without a dot before it |
| `DqVerdict.AcceptedHasNoForbiddenWord` | backend/routes/dq.py:675-681 | No bare word of an accepted predicate is a reserved word, in any mixture of upper and lower case |
| `DqVerdict.ForbiddenWordIsRefused` | backend/routes/dq.py:675-681 | A predicate with a reserved word, however its letters are cased, is refused |
| `DqVerdict.AllowedInAnyCase` | backend/routes/dq.py:699-701 | A name may be called if and only if it is an allowed function, type or operator word up to the case of its letters |
| `DqVerdict.CaseIsNotRead` | backend/routes/dq.py:640-705 | Changing the case of any letters of a predicate, in words, numbers, names or literals, never changes the verdict |
| `DqVerdict.LiteralsAreNotRead` | backend/routes/dq.py:629-705 | Two predicates that differ in nothing but what their literals hold and the case of letters get the same verdict |
| `DqVerdict.MaskedIsNotSearched` | backend/routes/dq.py:629-647 | What literals and quoted names hold is nothing to the search for statement ends and comments |
| `SplitSql.SplitStatements` | testbed/split_sql.py:9-43 | The stripped non-blank pieces of the one-pass scan |
| `SplitSql.SplitInvertsJoin` | testbed/split_sql.py:9-43 | Splitting undoes the joining of closed, comment-free, non-blank, trimmed statements |
| `SplitSql.QuotedIsOneStatement` | testbed/split_sql.py:9-43 | A text in single, double or back quotes is one statement, whatever comments, separators and other quotes it holds |
| `SplitSql.UngluedJoinable` | testbed/split_sql.py:9-43 | When no removed comment brought two characters together that begin a comment, every statement found stands on its own, but for a quote the last one may leave open |
| `SplitSql.SplitAgainIff` | testbed/split_sql.py:9-43 | Joining the statements of any text and splitting them again changes nothing if and only if removed comments brought no two dashes, and no slash and star, together in code and in one piece |
| `SplitSql.SplitAgain` | testbed/split_sql.py:9-43 | On comment-free closed text every statement found stands on its own, so joining and splitting again changes nothing |
| `SplitSql.LineEndsFirst` | testbed/split_sql.py:30-33 | A line comment ends behind its first newline, or with the text |
| `SplitSql.BlockEndsFirst` | testbed/split_sql.py:34-37 | A block comment ends behind the first closing mark from its opening slash on, or with the text |
| `SplitSql.CommentVanishes` | testbed/split_sql.py:30-37 | A comment behind a closed piece and a space changes no statement |
| `SplitSql.CommentsGlue` | testbed/split_sql.py:30-37 | Removing a comment can leave a statement that is itself a comment |
| `Escapes.QuotedIsOneLiteral` | backend/validators.py:33-54 | A quoted sql_str(v, limit) is scanned as one literal, for every value and limit, if and only if no further quote follows it |
| `Escapes.DecodeSqlStr` | backend/validators.py:33-54 | Decoding sql_str(v, limit) gives back v cut to the limit |
| `Escapes.QuotingIsPointwise` | backend/validators.py:54 | Doubling backslashes first and quotes then encodes each character on its own |
| `Escapes.LikeMatchesSubstring` | backend/validators.py:57-68 | The pattern '%' + like_escape(s) + '%' matches t if and only if s occurs in t |
| `Escapes.LayersUnwind` | backend/validators.py:57-68 | The literal that holds the escaped pattern decodes to that pattern, so the two layers unwind in order |

## Left out

- Trace.UntruncatedIsExact: for the inline walk this is the sufficient condition on the lineage. `TraceLosses.KeepsOutsideIff` is the exact condition for all rows that do not lie inside a cycle with the seed, and `TraceClaims.ExactIffClaimed` for all rows of one run; which lineages admit a run that loses a row inside such a cycle depends on how the hops of the two walks race through it, and is not characterised.
- Trace: claiming a table in the walk's own set and in the shared set is one step; the source does the two one after the other, which only the other walk's cap test could notice.
- Trace: the SQL query is a finite relation filtered by the frontier; the inline LIMIT may return any part of the matching rows.
- Layering: the neighbours of a node are read in any order (the source sorts them by id); names in lower case enter as their places in one order, and the order of nodes with equal names is not stated.
- TraceGraph: references and entity keys arrive parsed; names, costs, owners and timestamps of nodes are not modelled, and an entity id never equals a table id.
- LineageGraph, Backtrack: the order of the collapsed edges, and of the columns and hops of one level, which come out of a set.
- Backtrack: the fallback to stored expressions, the captured expressions, labels and colours of levels, and durations.
- ColumnPath: a failing query counts as an empty answer, as in the source; the SQL text is not modelled.
- Build.AlwaysSafe: bounds the runs whose reply arrived; `Build.BuiltOnceIff` says exactly when that is all of them.
- Build: the notebook preflight is part of the refused replies; the list of submitters, which a refund shortens by its newest entry whoever that is, and an exception raised after the placeholder was replaced are not modelled. Run ids are taken to be fresh and not empty.
- Gate: waiting times are not measured, and a wait times out only while no permit is free.
- SingleFlight: the loop test and the test of the oldest lock are one step, since only the guard's owner changes the pool; the TTL and size eviction of the cache are one step that may lose any entry at any time; an entry too large for the cache, on which the cache library raises, counts as a fetch that raised.
- RateLimiter: the user key is given; requests outside /api/ never reach the limiter.
- PlanText: digits are ASCII; `first_bracket`, `attr_bracket`, `clean_nodes`, `root_items` and the schema header are not modelled.
- PlanTree: the table a node names is given (`_table_context` is a regular expression over the node's text).
- PlanSources.Resolve: does not say which of several differing mentions of a leaf names it, nor the order of the sources; the attribute references of an expression are given as a list.
- DqLexer: an unterminated literal is reported at its opening quote; the regular expression first closes it at its last doubled quote and then fails on the next character with the same error.
- DqPredicate: case folding is ASCII only, so a back-quoted name with letters that fold into ASCII is judged differently; the length cap and the other rule types are not modelled.
- Escapes: values are strings or None; `str()` of other objects is not modelled.
- SQL text generation, warehouse and workspace calls, HTTP handlers, logging, caching libraries, workbook drawing, feature flags, notebooks, the frontend and the CRUD routers would only add easy members or are library code.
