# Arroyo, modelled and proved

Arroyo is a stream processor: SQL queries become plan graphs, plan graphs become operators
written in generated Rust, and operators exchange records, watermarks and checkpoint barriers
over FIFO queues. This project models the parts of it where a mistake is hardest to see and
proves what they are meant to guarantee, for every input, every interleaving and every graph.

| files | what they model |
|---|---|
| `Messages`, `Operators`, `EventLoop`, `Dispatch`, `Network`, `StopFlags` | aligned checkpoints: one operator as a transition system, the generated event loop that implements it, and whole pipelines of operators |
| `Aggregates`, `SlidingMemory`, `SlidingRuns` | two-phase aggregates: bins, their combination, and the incremental memory of a sliding window |
| `TimeKeyMap`, `WindowSpec`, `SlidingSpec`, `SlidingWindow`, `Restart`, `LateWatermark`, `TumblingWindow`, `Grid`, `Extremes` | the sliding and the tumbling window operator over their state table, against the windows of the record log, with their restart and a watermark that goes back |
| `Expressions`, `Codegen`, `Refinement`, `CompilerCorrectness`, `OperatorLaws` | the SQL expression compiler: reference evaluator, generated code as a syntax tree with binders, refinement, and the laws of its operators |
| `MaxValue`, `TopN`, `TopNWindow` | the top-N rewrite: the bound read off a filter, bounded heaps over any sharding, and whole runs of the window operator |
| `Digraph`, `Dataflow`, `PathReplacement`, `Shapes`, `RunReplacement`, `Search`, `GraphOptimizer`, `Parallelism` | plan graphs with petgraph's swap-removal of nodes, what they mean, run replacement, depth-first search, and the optimizer with its fixpoint loop |
| `Fusion`, `Merging`, `MaximalRuns`, `RunHeads`, `ExpressionFusion` | the builder that fuses chains of expression operators, alone and as the rule of the optimizer, with what it leaves and when it panics |
| `EdgeArray`, `NodeRemoval`, `WindowFusion`, `WindowPass`, `WindowAggregates`, `WindowExamples` | petgraph's swap-removal of edges, and the folding of aggregates into windows over it |
| `TwoPhaseRewrite` | the loop that exchanges window aggregates for two-phase ones |

Conventions. Integers are mathematical integers except where a width matters (`MaxValue`).
Timestamps are natural numbers. A class stands for an object that the source updates in place,
and its methods are proved against functions and predicates over plain values; a ghost
parameter or ghost field holds the history that a contract talks about. `Option` or an extra
constructor stands for every `unwrap`, `expect` or `unreachable!` that can be reached.

## What was found

Where the code departs from what it is for, the code is modelled as it is, one lemma or method
shows the failure on a concrete input, and another says exactly when it happens.

- An operator whose inputs carry different numbers of barriers ends without a final message,
  and what is queued behind the extra barrier is never read
  (`Operators.SilentEndExample`, `Operators.FinishesIffBarriersAgree`).
- Messages of a two-input operator reach the wrong handler, or panic, unless both sides have
  equally many queues (`Dispatch.DispatchExample`, `Dispatch.DispatchIsRightIff`).
- A sliding nullable Sum counts a null first bin as a present one, and later reads 0 instead of
  null (`SlidingRuns.NullableSumCounterexample`, `SlidingRuns.NullableSumIsRightIff`).
- A sliding nullable Avg forgets the last present bin when it evicts a null one, and can then
  panic (`SlidingRuns.NullableAvgCounterexample`, `SlidingRuns.NullableAvgIsRightIff`). What it
  reads until then, and when that is right by chance, is stated too (`SlidingRuns.SpoiledReads`).
  Other columns of the projection are not affected until it does (`SlidingRuns.HoldsIffSafe`).
- A sliding non-null Min reads the maximum (`SlidingMemory.NonNullMinCounterexample`,
  `SlidingMemory.NonNullMinIsRightIffConstant`).
- `TimeKeyMap::insert` skips a value equal to the persisted one even if a newer value is
  buffered, so the write is lost (`TimeKeyMaps.LostWrite`, `TimeKeyMaps.TimeKeyMap.Insert`), and
  with it a record of a window: 5, a checkpoint, 3 and -3 are emitted as 8
  (`SlidingWindows.LostRecord`, `SlidingWindows.SlidingWindow.ProcessElement`).
- A watermark that goes back, as `WatermarkHolder` lets it when an idle input wakes
  (arroyo-worker/src/engine.rs:100-118), lets records into bins that have entered the memory view.
  Such a bin later leaves with more than had entered, and a sum of 1 is emitted as -6
  (`LateWatermarks.AcceptedLate`, `LateWatermarks.GoesBack`, `LateWatermarks.EntersEmittedIff`,
  `LateWatermarks.LeavesAsAnother`).
- A tumbling window that was checkpointed before it was emitted, and that ends exactly at the
  watermark of the checkpoint restarted from, is emitted again after the restart
  (`TumblingWindows.RestartTwice`, `TumblingWindows.TumblingWindow.OnStart`).
- At width zero, the only width that the optimizer gives the tumbling top-N operator
  (arroyo-sql/src/optimizations.rs:486-490), a row at the watermark itself is accepted although
  its bin has been emitted. The bin is then emitted again, and a second row gets rank one
  (`TopNWindow.EmittedTwice`, `TopNWindow.AcceptedAgainIff`, `TopNWindow.FirstRowsIff`).
  Instant windows are emitted twice for the same reason (`TumblingWindows.InstantTwice`,
  `TumblingWindows.ReopensIff`, `TumblingWindows.ReopenedTwice`).
- Two predicates at the start of a chain are fused into text that does not parse: fusion panics
  (`Fusion.TwoFilters`, `Fusion.TryOptimize`), on a plan graph if and only if one of its maximal
  runs starts with two (`ExpressionFusion.FuseExpressions`).
- IS [NOT] DISTINCT FROM is announced as nullable but generates a plain boolean
  (`CompilerCorrectness.DistinctCounterexample`, `CompilerCorrectness.DistinctIsSoundIff`). The
  inherent `expression_type` (arroyo-sql/src/expressions.rs:1256-1262) wins over the trait's,
  which would have been right.
- `literal > column` with the greatest literal gives the bound 0 (`MaxValue.WrapCounterexample`,
  `MaxValue.LeafIsSoundIff`); with any other the bound is two more than it needs to be
  (`MaxValue.BoundIsLeast`).
- Replacing a run that several edges enter keeps one of them
  (`RunReplacement.ReplaceTwoEntries`, `RunReplacement.InputsKeptIffSingle`); the SQL optimizer
  lets such runs start (arroyo-sql/src/optimizations.rs:53-66).
- An aggregate is folded into the window before it even if the window has other consumers, which
  then read the aggregate (`WindowExamples.FuseSharedWindow`, `WindowFusion.FedAsBeforeIff`).
- `remove_in_place` removes edges through indices taken before the first removal, and a removal
  moves the last edge of the array. With a source, a window, a count and two sinks, added in that
  order, one sink loses its only input and the other gets its edge
  (`WindowExamples.FuseTwoSinks`). It happens exactly if, once the edge into the aggregate is
  removed, an edge out of it other than the newest is the last of the array
  (`NodeRemoval.StaleIff`, `WindowFusion.FedAsBeforeIff`).
- The two-phase rewrite divides by zero for a window that slides by less than a microsecond
  (`TwoPhaseRewrite.TinySlide`, `TwoPhaseRewrite.TwoPhase`), and takes windows whose slide divides
  the width only in truncated microseconds (`TwoPhaseRewrite.HalfMicros`,
  `TwoPhaseRewrite.RewriteKeepsWindowsIff`).

Two choices of the code are followed without a claim that they are wrong:

- AND and OR are null-strict (arroyo-sql/src/expressions.rs:1234-1253); the reference evaluator follows the code.
- A window emitted by the sliding operator carries the start of its last bin, not of the window
  (arroyo-worker/src/operators/aggregating_window.rs:174-232); the model keeps that label.

## Model

| member | source | states |
|---|---|---|
| EventLoops.CheckpointCounter.Mark | arroyo-worker/src/engine.rs:457-477 | true exactly when every other input is marked; then all marks are cleared, otherwise only this input's is set; the counter always equals the number of inputs outstanding |
| EventLoops.EventLoop.constructor | arroyo-macro/src/lib.rs:506-526 | the loop starts with every stream polled, none parked, and the state of a fresh operator |
| EventLoops.EventLoop.HandleControlMessage | arroyo-macro/src/lib.rs:625-698 | closed set, log, snapshots and marks become those of the operator after the message; the outcome says whether and how it finished; a barrier is broadcast exactly when a snapshot is taken |
| EventLoops.EventLoop.Absorb | arroyo-macro/src/lib.rs:432-453 | records and control messages alike move the loop's state to that of the operator after the message |
| EventLoops.EventLoop.Receive | arroyo-macro/src/lib.rs:432-467 | one iteration keeps each open stream in exactly one of polled and parked; a completed checkpoint leaves none parked; the final message is the operator's |
| EventLoops.EventLoop.Requeue | arroyo-macro/src/lib.rs:457-466 | from a stream in neither set to the partition again, releasing every parked stream when no mark is left |
| EventLoops.EventLoop.Drop | arroyo-worker/src/inq_reader.rs:54-70 | a stream whose sender is gone leaves the reader and nothing else changes |
| EventLoops.EventLoop.Complete | arroyo-macro/src/lib.rs:550-553 | an empty reader ends the loop without a final message |
| EventLoops.EventLoop.Poll | arroyo-macro/src/lib.rs:541-549 | polling a stream is the operator's step on that input, taken exactly when the input is ready |
| EventLoops.EventLoop.Run | arroyo-macro/src/lib.rs:511-558 | for every interleaving the loop computes the run of the operator; it breaks silently only when every stream is parked or used up |
| EventLoops.EventLoop.Shutdown | arroyo-macro/src/lib.rs:605-610 | the chosen final message is broadcast once, none if none was chosen |
| EventLoops.DeliverParks | arroyo-macro/src/lib.rs:457-466 | a message parks or frees no other input unless it completes a checkpoint, which frees all |
| EventLoops.TracksBarrier | arroyo-macro/src/lib.rs:638-669 | the counter completes exactly when the operator's alignment does, and the snapshot is the state before the barrier |
| Dispatch.DispatchIsRightIff | arroyo-macro/src/lib.rs:541-549 | every message reaches the handler of its side if and only if both sides have equally many queues |
| Dispatch.DispatchExample | arroyo-macro/src/lib.rs:541-549 | of 1 and 2 queues the last has no handler; of 1 and 3 a message of the right side goes to the left handler |
| Operators.DeliverKeeps | arroyo-macro/src/lib.rs:625-698 | delivering the next message of an input that is not parked keeps the alignment invariant of every input |
| Operators.FeedInv | arroyo-macro/src/lib.rs:505-560 | the invariant holds after every interleaving of every input history |
| Operators.SnapshotsAreCuts | arroyo-macro/src/lib.rs:638-668 | what snapshot k holds of input i is exactly what precedes barrier k on that input |
| Operators.FinalMessageIsEarned | arroyo-macro/src/lib.rs:684-695 | a final message is chosen only after every input has ended, or a stop barrier completed a checkpoint |
| Operators.FinalMessageIsLast | arroyo-macro/src/lib.rs:439-453 | nothing is taken or applied once the final message is chosen |
| Operators.FinishesIffBarriersAgree | arroyo-macro/src/lib.rs:541-554 | over complete inputs the loop ends with a final message if and only if all inputs carry the same number of barriers |
| Operators.SilentEndExample | arroyo-macro/src/lib.rs:541-554 | a barrier on one of two inputs: the loop ends without a final message and the end of that input is never read |
| Network.StepKeeps | arroyo-macro/src/lib.rs:712-730 | every step of every node of any graph over FIFO channels keeps the network invariant |
| Network.RunInv | arroyo-macro/src/lib.rs:712-730 | the network invariant holds in every state of every run |
| Network.ConsistentCut | arroyo-macro/src/lib.rs:712-730 | the snapshots of an epoch form a consistent cut: on each channel the receiver's snapshot holds exactly what the sender had sent at its own snapshot of that epoch |
| Network.OneFinalMessage | arroyo-macro/src/lib.rs:605-610 | in every run a channel carries at most one final message and nothing after it |
| StopFlags.FlagFromInput | arroyo-macro/src/lib.rs:712-730 | in every run, each snapshot of a node with inputs has the stop flag that the sender on some input has in its own snapshot of that number |
| StopFlags.TriggerCarries | arroyo-macro/src/lib.rs:712-730 | a source's snapshot carries the flag of its trigger, and the source ends with Stop exactly if it is set |
| StopFlags.ChannelsAgree | arroyo-macro/src/lib.rs:712-730 | if all sources are told alike for a checkpoint, sender and receiver have that flag on every channel |
| StopFlags.StopIsTriggered | arroyo-macro/src/lib.rs:638-669 | a stop flag in any snapshot comes from a source that was told to stop at that checkpoint |
| StopFlags.FinishesOnlyIfTold | arroyo-macro/src/lib.rs:657-668 | a node that finishes at a barrier finishes with Stop, and only if a source was told to stop at that checkpoint; otherwise it goes on |
| Aggregates.TwoPhaseIsOneShot | arroyo-sql/src/operators.rs:525-606 | folding records into a bin and aggregating it equals the aggregate over the vector of records, for every aggregate and nullability, all-null included |
| Aggregates.CombineCommutes | arroyo-sql/src/operators.rs:613-665 | combining bins is commutative |
| Aggregates.CombineAssociates | arroyo-sql/src/operators.rs:613-665 | combining bins is associative |
| Aggregates.BinOfConcat | arroyo-sql/src/operators.rs:287-311 | the bin of a concatenation is the combination of the bins |
| Aggregates.BinOfPermutation | arroyo-sql/src/operators.rs:253-280 | the bin does not depend on the order of the records |
| Aggregates.CombineShardsIsBinOf | arroyo-sql/src/operators.rs:287-311 | combining the bins of shards in a row gives the bin of all their records |
| Aggregates.AnySplitAnyOrder | arroyo-sql/src/operators.rs:287-311 | for any split of the records into local bins, combined in any order, the result is the bin built directly |
| SlidingMemory.AddFirst | arroyo-sql/src/operators.rs:672-716 | for every column, the memory after one bin holds that bin |
| SlidingMemory.AddNext | arroyo-worker/src/operators/aggregating_window.rs:261-513 | for every column, adding a bin to a memory that holds the live bins gives one that holds the longer list |
| SlidingMemory.RemoveOldest | arroyo-worker/src/operators/aggregating_window.rs:268-523 | for every column, removing the oldest of several bins fails no unwrap, and the memory holds the others if and only if the eviction is not of a null bin of a nullable Avg with exactly one present bin live |
| SlidingMemory.SpoiledRemove | arroyo-worker/src/operators/aggregating_window.rs:473-500 | once spoiled, a nullable Avg stays so until it is empty, and panics exactly when a present bin leaves while it counts none; how many present bins it has forgotten, and what they add up to, is known after every removal |
| SlidingMemory.OwingReadsTrueIff | arroyo-worker/src/operators/aggregating_window.rs:473-500 | it reads the average of the live bins if and only if it counts a bin, what it counts is not zero on balance, and what it has forgotten has that average too |
| SlidingMemory.MemAggregateIsCombinedIff | arroyo-sql/src/operators.rs:797-839 | what a memory of the live bins reads is the aggregate of their combination, for the nullable Sum and the non-null Min if and only if their condition holds, for every other column always |
| SlidingMemory.NonNullMinIsRightIffConstant | arroyo-sql/src/operators.rs:818-820 | the non-null Min is right if and only if all live bins hold the same value |
| SlidingMemory.NonNullMinCounterexample | arroyo-sql/src/operators.rs:818-820 | over bins 1 and 2 the minimum is read as 2 |
| SlidingRuns.ProjRemoveOldest | arroyo-sql/src/operators.rs:352-377 | the entry goes with its last bin; otherwise a removal fails if and only if a spoiled average is to give up a bin it does not count, and else every column holds the other bins |
| SlidingRuns.MemoryFollowsWindow | arroyo-sql/src/operators.rs:318-383 | for every projection and every sequence of additions and oldest-bin removals: the entry is gone exactly when no bin is live, the outer counter is the number of live bins, each column holds its live bins or, if spoiled, these less what it has forgotten, and a crash needs a spoiled column first |
| SlidingRuns.HoldsIffSafe | arroyo-sql/src/operators.rs:318-383 | after any run that has not crashed, a column holds its live bins if and only if none of its evictions since the entry appeared was unsafe |
| SlidingRuns.NoAverageNoFailure | arroyo-sql/src/operators.rs:352-377 | without a nullable Avg in the projection no unwrap ever fails and every column holds its live bins |
| SlidingRuns.ReadIsOneShotIff | arroyo-sql/src/operators.rs:797-839 | a memory that holds a window's bins reads as the one-shot aggregate of all its records, for the nullable Sum and the non-null Min under their exact condition |
| SlidingRuns.ReadsAsOneShot | arroyo-sql/src/operators.rs:797-839 | what those two read otherwise: 0 for null, and the greatest of the bin minima |
| SlidingRuns.SpoiledReads | arroyo-sql/src/operators.rs:797-839 | the quotient that a spoiled average reads, and exactly when it is the one-shot average of the records; null over one present bin |
| SlidingRuns.NullableSumIsRightIff | arroyo-worker/src/operators/aggregating_window.rs:280-320 | after any run the nullable Sum is right if and only if its first bin was present, or a live bin is, or none ever was |
| SlidingRuns.NullableSumCounterexample | arroyo-worker/src/operators/aggregating_window.rs:280-320 | null, 5, null with two evictions reads 0 |
| SlidingRuns.NullableAvgIsRightIff | arroyo-worker/src/operators/aggregating_window.rs:455-500 | a run of the nullable Avg is right throughout if and only if it never evicts a null bin while exactly one live bin is present |
| SlidingRuns.NullableAvgCounterexample | arroyo-worker/src/operators/aggregating_window.rs:473-500 | null, (1, 5), null with two evictions panics |
| TimeKeyMaps.TimeKeyMap.Get | arroyo-state/src/tables/time_key_map.rs:22-36 | the buffered value if there is one, else the persisted one |
| TimeKeyMaps.TimeKeyMap.Insert | arroyo-state/src/tables/time_key_map.rs:38-59 | the table changes at the given slot only, and takes the value if and only if no other value is buffered over an equal persisted one |
| TimeKeyMaps.TimeKeyMap.GetAllForTime | arroyo-state/src/tables/time_key_map.rs:61-76 | all entries of a time, buffered over persisted |
| TimeKeyMaps.TimeKeyMap.GetMinTime | arroyo-state/src/tables/time_key_map.rs:110-118 | the least time with an entry, none exactly if the table is empty |
| TimeKeyMaps.TimeKeyMap.EvictForTimestamp | arroyo-state/src/tables/time_key_map.rs:139-157 | returns what the time held and removes exactly that |
| TimeKeyMaps.TimeKeyMap.FlushAtWatermark | arroyo-state/src/tables/time_key_map.rs:159-183 | the table means the same, and nothing up to the watermark stays buffered |
| TimeKeyMaps.TimeKeyMap.Flush | arroyo-state/src/tables/time_key_map.rs:185-196 | the table means the same and is all persisted |
| TimeKeyMaps.TimeKeyMap.FromCheckpoint | arroyo-state/src/tables/time_key_map.rs:199-246 | the restored table is the part of the store that is not older than the oldest valid time |
| TimeKeyMaps.RestoresTable | arroyo-state/src/tables/time_key_map.rs:199-246 | a table that has just been flushed comes back from its store, except for times before the bound |
| TimeKeyMaps.LostWrite | arroyo-state/src/tables/time_key_map.rs:38-59 | 5 persisted, 8 buffered, 5 written again: the table answers 8 |
| WindowSpec.SelectSplit | arroyo-sql/src/optimizations.rs:258-290 | splitting a time range splits its records |
| WindowSpec.WindowCombines | arroyo-sql/src/optimizations.rs:258-290 | a window whose ends are on the slide grid is the disjoint union of its bins: the rows of its bins combine to the bin of its records |
| WindowSpec.TableGrows | arroyo-worker/src/operators/aggregating_window.rs:101-106 | merging a record into its bin keeps every bin of the table the bin of its records |
| SlidingWindows.SlidingWindow.ProcessElement | arroyo-worker/src/operators/aggregating_window.rs:81-106 | a record is dropped if and only if its bin ends by the start of the watermark's bin, and one that is not counts if and only if the table does not lose the write; a lost one changes nothing, as if it had been too late |
| SlidingWindows.SlidingWindow.AddData | arroyo-worker/src/operators/aggregating_window.rs:142-148 | from an entry that holds some rows to one that holds them and the new one, in every column; no other entry changes |
| SlidingWindows.SlidingWindow.RemoveData | arroyo-worker/src/operators/aggregating_window.rs:150-160 | from an entry that holds some rows to one that holds all but the oldest, gone with the last; a panic exactly if a spoiled average is to give up a bin it does not count; nothing without an entry; no other entry changes |
| SlidingWindows.SlidingWindow.SlideMemory | arroyo-worker/src/operators/aggregating_window.rs:190-198 | one bin enters and one leaves: for every key the entry holds the rows of the next window, and a panic needs an average in doubt |
| SlidingSpec.EmitKey | arroyo-worker/src/operators/aggregating_window.rs:200-216 | a key has an entry exactly if it has records in the window, and what its entry reads is what the window owes, column by column |
| SlidingWindows.SlidingWindow.EmitAll | arroyo-worker/src/operators/aggregating_window.rs:200-216 | one result per key with records in the window, each what the window owes |
| SlidingWindows.SlidingWindow.Advance | arroyo-worker/src/operators/aggregating_window.rs:174-232 | advancing by a slide keeps every invariant and moves the frontier to the end of the bin, unless an average in doubt panics |
| SlidingWindows.SlidingWindow.HandleWatermark | arroyo-worker/src/operators/aggregating_window.rs:234-246 | for every projection: each column of everything emitted is the one-shot aggregate of its window's records, save for the three columns that may misread, whose values are stated too, for a nullable Avg in doubt as the quotient of what it has not forgotten; every window that the watermark closes and that has records is emitted, once; a panic only with a nullable Avg in doubt; the operator can go on if and only if the watermark has not gone back before an emitted window |
| SlidingSpec.DoubtedIsAverage | arroyo-worker/src/operators/aggregating_window.rs:455-500 | nothing but a nullable Avg is ever in doubt, and whether it is depends on the records alone |
| SlidingWindows.SlidingWindow.HandleCheckpoint | arroyo-worker/src/operators/aggregating_window.rs:248-258 | flushing changes nothing that the window can read, and leaves all of it in the store |
| SlidingWindows.RestoredTable | arroyo-state/src/tables/time_key_map.rs:199-246 | what a restart reads back holds the rows of the records from the oldest valid bin on |
| SlidingWindows.RestartKeepsWindow | arroyo-worker/src/operators/aggregating_window.rs:108-140 | those are all the records of every window that a restarted operator has to complete |
| SlidingWindows.SlidingWindow.OnStart | arroyo-worker/src/operators/aggregating_window.rs:108-140 | an operator restarted from a checkpoint is valid, and has, for every window not yet closed, the records that the one before it had; the others had been emitted |
| Restarts.RestartEmits | arroyo-worker/src/operators/aggregating_window.rs:108-140 | what it emits for a window agrees with what the one before it would have emitted in every column, except where that was a nullable Avg in doubt, and except that a nullable Sum that owes null may read 0 in one of them |
| LateWatermarks.EntersEmittedIff | arroyo-worker/src/operators/aggregating_window.rs:81-87 | records are accepted into a bin that has entered the memory view if and only if the watermark's bin lies before the windows emitted |
| LateWatermarks.LeavesAsAnother | arroyo-worker/src/operators/aggregating_window.rs:190-198 | a bin that has changed since it entered leaves a sum off by the change, and right if and only if its value is as it was |
| LateWatermarks.AcceptedLate | arroyo-worker/src/operators/aggregating_window.rs:81-87 | a record at 3, the watermark 19, then 5: a record at 4 is accepted into a bin whose window is out |
| LateWatermarks.GoesBack | arroyo-worker/src/operators/aggregating_window.rs:174-232 | the steps of the operator for one key around such a record: 5, 6 and then -6 are read, where the last window has a 1 alone |
| SlidingWindows.SlidingWindow.Start | arroyo-worker/src/operators/aggregating_window.rs:108-140 | the memory view rebuilt bin by bin holds exactly the rows of the window that ends at the watermark's bin |
| SlidingWindows.LostRecord | arroyo-worker/src/operators/aggregating_window.rs:81-106 | 5 checkpointed, then 3 and -3 in the same bin: all three are accepted and sum to 5, and 8 is emitted |
| SlidingSpec.WindowIsCombined | arroyo-sql/src/optimizations.rs:258-290 | the rows of a window's bins are there exactly if the window has records, and combine to the bin of those records in every column |
| TumblingWindows.TumblingWindow.ProcessElement | arroyo-worker/src/operators/tumbling_aggregating_window.rs:68-97 | a record is dropped if and only if its window is due, at width zero if and only if it is before the watermark, and one that is not counts if and only if its write is not lost; windows stay emitted once if and only if no record that counts falls into one emitted for its key |
| TumblingWindows.TumblingWindow.EmitBin | arroyo-worker/src/operators/tumbling_aggregating_window.rs:144-157 | one result per key of the bin, each the one-shot aggregate of the key's pending records in the window, for every column |
| TumblingWindows.TumblingWindow.Advance | arroyo-worker/src/operators/tumbling_aggregating_window.rs:130-167 | the earliest bin is emitted and dropped; every record that counts is behind exactly one result or still pending |
| TumblingWindows.EmitConserves | arroyo-worker/src/operators/tumbling_aggregating_window.rs:130-167 | emitting a bin moves its records from pending to behind the results, and no other |
| TumblingWindows.TumblingWindow.HandleWatermark | arroyo-worker/src/operators/tumbling_aggregating_window.rs:169-187 | exactly the windows that the watermark has passed are emitted, and no record that counts is left in one |
| TumblingWindows.TumblingWindow.HandleCheckpoint | arroyo-worker/src/operators/tumbling_aggregating_window.rs:189-199 | flushing changes nothing that the windows can read |
| TumblingWindows.TumblingWindow.OnStart | arroyo-worker/src/operators/tumbling_aggregating_window.rs:99-111 | a restart reads back exactly what was pending, unless a window that is out is still in the store and ends at the watermark itself; then it is the earliest, and due again |
| TumblingWindows.RestartTwice | arroyo-state/src/tables/time_key_map.rs:199-215 | a record at 3 checkpointed, its window emitted at the watermark 10, a checkpoint and a restart: the window is due again |
| TumblingWindows.CleanResults | arroyo-worker/src/operators/tumbling_aggregating_window.rs:130-167 | if no window was opened again, every result is the one-shot aggregate, in every column, of all the records that count in its window, and no window has two |
| TumblingWindows.ReopenedTwice | arroyo-worker/src/operators/tumbling_aggregating_window.rs:68-97 | if one was, then once nothing is pending some window has two results |
| TumblingWindows.ReopensIff | arroyo-worker/src/operators/tumbling_aggregating_window.rs:68-77 | with watermarks that do not go back a record opens a window again if and only if the width is zero and the record is at the watermark |
| TumblingWindows.InstantTwice | arroyo-worker/src/operators/tumbling_aggregating_window.rs:68-77 | at width zero two records at 10, around the watermark 10, give two results for 10 |
| Codegen.GenerateCoalesce | arroyo-sql/src/expressions.rs:3262-3286 | the loop returns at the first term that cannot be null and builds the nested fallbacks of the terms before it |
| Refinement.EncInjective | arroyo-sql/src/expressions.rs:1217-1254 | different SQL values have different representations, so comparing representations compares values |
| Refinement.UnaryRefines | arroyo-sql/src/expressions.rs:1088-1129 | null tests, truth tests and negation, with and without a nullable operand |
| Refinement.CompareRefines | arroyo-sql/src/expressions.rs:1217-1262 | comparisons in all four nullabilities |
| Refinement.MathRefines | arroyo-sql/src/expressions.rs:1371-1405 | arithmetic in all four nullabilities |
| Refinement.FieldRefines | arroyo-sql/src/expressions.rs:1436-1471 | struct fields in all four nullabilities |
| Refinement.CastRefines | arroyo-sql/src/expressions.rs:1879-1905 | casts of nullable and other inputs, forced nullable or not |
| Refinement.NullIfRefines | arroyo-sql/src/expressions.rs:3287-3327 | NULLIF in all four nullabilities |
| CompilerCorrectness.CoalesceRefines | arroyo-sql/src/expressions.rs:3262-3286 | the code is the first non-null term, later terms are not evaluated, and it is an option exactly if every term is |
| CompilerCorrectness.ArmsRun | arroyo-sql/src/expressions.rs:3832-3895 | CASE arms are tried in order, a null test never matches, and only the chosen result is evaluated |
| CompilerCorrectness.UdfRuns | arroyo-sql/src/expressions.rs:3541-3577 | arguments are bound in order; a null for a parameter that takes none yields null without a call |
| CompilerCorrectness.GenerateRefines | arroyo-sql/src/expressions.rs:231-315 | whenever the reference evaluator has a value, the generated code has that value, as an option exactly if the announced type is nullable, in every environment that binds the argument: nested binders never capture |
| OperatorLaws.PlusRuns | arroyo-sql/src/expressions.rs:1325-1333 | running the generated code: adding nothing changes nothing, adding one more gives one more |
| OperatorLaws.MinusRuns | arroyo-sql/src/expressions.rs:1325-1333 | subtraction undoes addition, and addition subtraction |
| OperatorLaws.MultiplyRuns | arroyo-sql/src/expressions.rs:1325-1333 | multiplication is repeated addition |
| OperatorLaws.DivideRuns | arroyo-sql/src/expressions.rs:1325-1333 | quotient and remainder fit together, the remainder is smaller than the divisor and has the sign of the dividend; both panic exactly for the divisor 0 |
| OperatorLaws.MathIsWorth | arroyo-sql/src/expressions.rs:1371-1405 | a compiled operation on any operands is worth what the code for the two values is worth, and null if an operand is null, in every environment that binds the argument |
| OperatorLaws.EqualRuns | arroyo-sql/src/expressions.rs:1222-1233 | equal means the same value, different its opposite, and the two distinct operators agree with them |
| OperatorLaws.OrderRuns | arroyo-sql/src/expressions.rs:1222-1233 | exactly one of less, equal and greater; a number is less than the next and all after it; the two weak orders are the opposites of the strict ones |
| OperatorLaws.LogicRuns | arroyo-sql/src/expressions.rs:1222-1233 | the truth tables of AND and OR |
| OperatorLaws.CompareIsWorth | arroyo-sql/src/expressions.rs:1217-1254 | a compiled comparison of any operands says what the code for the two values says, and null if an operand is null |
| OperatorLaws.CastRuns | arroyo-sql/src/expressions.rs:1879-1905 | a cast applies the cast from the one type to the other, and panics where that does |
| OperatorLaws.CallPasses | arroyo-sql/src/expressions.rs:3541-3577 | a call passes the bound arguments in order and returns the represented result |
| CompilerCorrectness.DistinctIsSoundIff | arroyo-sql/src/expressions.rs:1256-1262 | IS [NOT] DISTINCT FROM has the announced type if and only if no operand is nullable |
| CompilerCorrectness.DistinctCounterexample | arroyo-sql/src/expressions.rs:1256-1262 | on two nullable columns, null and 1, the generated code does not have the announced type |
| MaxValue.LeafIsSoundIff | arroyo-sql/src/expressions.rs:336-378 | the bound of one comparison holds for every value if and only if it is not literal > column with the greatest literal |
| MaxValue.BoundsIff | arroyo-sql/src/expressions.rs:336-378 | of the six orderings, exactly those give a bound that let no value above the literal pass |
| MaxValue.BoundIsLeast | arroyo-sql/src/expressions.rs:336-378 | whenever a value passes, the bound is the greatest that does, except for literal > column, where it is two more or has wrapped |
| MaxValue.BoundOfParts | arroyo-sql/src/expressions.rs:321-335 | a conjunction is bounded if a part is, by the smaller bound, and a disjunction if both are, by the larger |
| MaxValue.WrapCounterexample | arroyo-sql/src/expressions.rs:363-365 | row 1 passes a filter whose bound has wrapped to 0 |
| MaxValue.MaxValueIsSound | arroyo-sql/src/expressions.rs:318-383 | every row that passes an And/Or tree of comparisons has at most the bound in the field |
| TopN.PushPopKeeps | arroyo-worker/src/operators/tumbling_top_n_window.rs:134-139 | pushing a row and popping a last one keeps a selection of the first n, ties included |
| TopN.ShardsTopN | arroyo-sql/src/optimizations.rs:458-495 | for any sharding, the first n of the shards' first n are the first n of all rows |
| TopN.SelectionIsUnique | arroyo-worker/src/operators/tumbling_top_n_window.rs:26-45 | under a strict order there is one selection only |
| TopN.SelectedIff | arroyo-worker/src/operators/tumbling_top_n_window.rs:106-140 | a row is selected if and only if its row number is at most n |
| TopN.SelectedRank | arroyo-worker/src/operators/tumbling_top_n_window.rs:172-184 | a selected row has the same row number among the selected rows as among all |
| TopNWindow.Drain | arroyo-worker/src/operators/tumbling_top_n_window.rs:173-183 | the rows of a heap, last first, each with its row number |
| TopNWindow.TumblingTopN.Insert | arroyo-worker/src/operators/tumbling_top_n_window.rs:106-140 | a row is accepted exactly if its bin is not before the watermark's; every heap holds the first n of the rows pending for its bin and key; rows that come for a bin and key already out are recorded |
| TopNWindow.TumblingTopN.Advance | arroyo-worker/src/operators/tumbling_top_n_window.rs:152-190 | the earliest bin is there; exactly its rows with row number at most n are emitted, with their numbers |
| TopNWindow.TumblingTopN.HandleWatermark | arroyo-worker/src/operators/tumbling_top_n_window.rs:201-219 | exactly the bins that the watermark has passed are emitted and dropped, the others stay as they are |
| TopNWindow.FirstRowsIff | arroyo-worker/src/operators/tumbling_top_n_window.rs:152-190 | after any run, for a bin and key with nothing pending and no ties, the output is exactly the first n of all rows accepted, with their row numbers, if and only if no row was accepted for them once they were out |
| TopNWindow.AcceptedAgainIff | arroyo-worker/src/operators/tumbling_top_n_window.rs:106-113 | a row whose bin a watermark has passed is accepted at a later watermark if and only if the width is zero and both watermarks are its own timestamp |
| TopNWindow.EmittedTwice | arroyo-worker/src/operators/tumbling_top_n_window.rs:106-113 | at width zero two rows at 10, around the watermark 10, are emitted apart and both have rank one |
| TopNWindow.TopNRewrite | arroyo-sql/src/optimizations.rs:389-521 | filtering the row numbers of all rows and filtering those of the sharded top-N keep the same rows with the same numbers |
| Fusion.FusedExpressionOperatorBuilder.constructor | arroyo-api/src/optimizations.rs:211-217 | the empty builder represents the empty chain |
| Fusion.FusedExpressionOperatorBuilder.FuseNode | arroyo-api/src/optimizations.rs:218-233 | the builder represents the chain with the node added: return type, names, whether the body parses, and what it computes |
| Fusion.FusedExpressionOperatorBuilder.FusePredicate | arroyo-api/src/optimizations.rs:273-294 | the same for a predicate, in each of the builder's states |
| Fusion.FusedExpressionOperatorBuilder.FuseMap | arroyo-api/src/optimizations.rs:296-323 | the same for a map |
| Fusion.FusedExpressionOperatorBuilder.FuseOptionMap | arroyo-api/src/optimizations.rs:325-354 | the same for an optional map |
| Fusion.FusedExpressionOperatorBuilder.GetOperator | arroyo-api/src/optimizations.rs:234-256 | panics exactly if the chain starts with two predicates; otherwise the operator does what the chain does |
| Fusion.BuildRepresents | arroyo-api/src/optimizations.rs:218-233 | the builder as a function: its state after a chain represents the chain |
| Fusion.FinishIsRight | arroyo-api/src/optimizations.rs:234-256 | its operator exists exactly if the chain does not start with two predicates, and does what the chain does |
| Fusion.TryOptimize | arroyo-api/src/optimizations.rs:187-202 | for every chain and record the fused body equals the nodes in sequence; Predicate iff all are predicates, Record iff all are maps; a panic iff the chain starts with two predicates |
| Fusion.TwoFilters | arroyo-api/src/optimizations.rs:273-294 | two filters are fused into nothing |
| Fusion.FusedStream | arroyo-api/src/optimizations.rs:187-202 | on every stream one pass of the fused operator sends what the chain of operators sends |
| Fusion.ArrayMap | arroyo-worker/src/operators/mod.rs:730-747 | mapping batches element by element sends what flattening and then the expression would |
| Digraphs.RemoveOneMore | arroyo-api/src/optimizations.rs:175-177 | removing a node of a renamed graph removes exactly the node it stands for, under swap-removal |
| RunReplacement.RemoveAll | arroyo-api/src/optimizations.rs:168-177 | removing indices in descending order removes exactly those nodes; all others survive with their edges and weights, up to renaming |
| RunReplacement.ReplaceRun | arroyo-sql/src/optimizations.rs:79-119 | the run is replaced by the new path between the source of its oldest entry and the target of its oldest exit; a path with one way in and one way out is contracted and nothing else changes |
| RunReplacement.InputsKeptIffSingle | arroyo-sql/src/optimizations.rs:85-92 | whatever the streams are, the new node is fed by the oldest edge into the run alone, so it is fed as the run was if and only if the run had a single input |
| RunReplacement.ReplaceTwoEntries | arroyo-sql/src/optimizations.rs:79-119 | a run fed by two sources is replaced by a node that reads one of them, and the other is kept but read by nothing |
| PathReplacement.ReplacementPreserves | arroyo-sql/src/optimizations.rs:79-119 | replacing a path by one of the same meaning preserves the meaning of the graph, for nondeterministic operators too: each solution of either graph has one of the other in which every kept node receives and sends the same, and the new path sends what the old one sent |
| PathReplacement.SameMeaningComposes | arroyo-api/src/optimizations.rs:94-96 | rewrites that preserve meaning compose |
| Shapes.InDegreeOutside | arroyo-api/src/optimizations.rs:145-166 | nodes outside the run keep their in-degree |
| Shapes.OutDegrees | arroyo-api/src/optimizations.rs:145-166 | nodes outside the run keep their out-degree, nodes of the new path have one output |
| Search.Dfs.Next | arroyo-api/src/optimizations.rs:101-104 | on any graph the search keeps all that edges lead to visited or on the stack, and visits no node twice; with at most one output per node it follows that output |
| Search.VisitedAll | arroyo-api/src/optimizations.rs:101-104 | when the stack is used up, exactly the nodes that the source leads to have been visited |
| Search.FindReachable | arroyo-api/src/optimizations.rs:44-50 | the searches from all sources find a node that passes a test if and only if a source leads to one |
| GraphOptimizer.RunsArePaths | arroyo-api/src/optimizations.rs:104-119 | every run that the walk collects is a path of forward edges, entered and left by one edge each |
| GraphOptimizer.VisitNode | arroyo-api/src/optimizations.rs:104-118 | a node joins the last run exactly if the rules let it follow the nodes of that run and it has no input but one forward edge, and otherwise ends it; every collected run stays such a path |
| GraphOptimizer.CollectRuns | arroyo-api/src/optimizations.rs:98-120 | the runs are those along the walks that follow outputs from the sources, in order of index, and all are such paths |
| GraphOptimizer.NodeEdgePairs | arroyo-api/src/optimizations.rs:136-143 | the nodes of a run, each with the weight of the edge to the next |
| GraphOptimizer.ShapeKept | arroyo-api/src/optimizations.rs:145-178 | the rewritten graph again has at most one output per node and no fusable source or sink |
| GraphOptimizer.ReplacementKeepsSinks | arroyo-api/src/optimizations.rs:145-178 | every sink survives as a sink, with its inputs |
| GraphOptimizer.OptimizeOnce | arroyo-api/src/optimizations.rs:98-133 | a change is the fusion of the first run that the rules do not decline: it removes nodes and keeps shape, meaning and sinks; unchanged means that every run is declined, a panic that the first one not declined panics |
| GraphOptimizer.Optimize | arroyo-api/src/optimizations.rs:94-96 | the fixpoint loop terminates, its result has the meaning of the graph it started from, every node that is kept, sinks included, receives and sends the same streams, the graph has changed by such fusions only, and it ends with nothing left to fuse or at a run on which the rules panic |
| MaximalRuns.RunIsMaximal | arroyo-api/src/optimizations.rs:104-118 | for rules that look at one node at a time, every collected run lies between nodes that do not fit |
| MaximalRuns.PairIsCollected | arroyo-api/src/optimizations.rs:104-118 | and two fitting nodes in a row that a source leads to are in one run |
| RunHeads.HeadsAfter | arroyo-api/src/optimizations.rs:119-130 | a fusion leaves the first two nodes of every other maximal run as they are, and makes no new ones |
| ExpressionFusion.FusionIsFaithful | arroyo-api/src/optimizations.rs:180-202 | a rule that fuses by the builder replaces runs only by nodes of the same meaning on streams, whatever the other operators do |
| ExpressionFusion.ByBuilderIs | arroyo-api/src/optimizations.rs:187-202 | the builder as the rule: it fuses every run of expression operators, and panics exactly on those that start with two predicates |
| ExpressionFusion.BuilderFuses | arroyo-api/src/optimizations.rs:187-202 | that rule fuses by the builder |
| ExpressionFusion.BuilderTakesFirst | arroyo-api/src/optimizations.rs:196-200 | the fused operator has the parallelism of the first one |
| ExpressionFusion.FixpointIsFused | arroyo-api/src/optimizations.rs:94-133 | when nothing is left to fuse, no expression operator that a source leads to is fed by a single forward edge from another one that is so fed |
| ExpressionFusion.FuseExpressions | arroyo-api/src/optimizations.rs:180-202 | expression fusion of a whole plan graph, expression operators with several inputs included: the loop ends, every kept node, sinks included, receives and sends the streams it would have, it panics if and only if a maximal run of the given graph starts with two predicates, otherwise nothing is left to fuse, and forward edges go on joining equal parallelisms |
| Merging.OneStream | arroyo-worker/src/inq_reader.rs:54-70 | an operator with one input reads it as it is; with several it reads an interleaving of them |
| Merging.InterleavingConserves | arroyo-worker/src/inq_reader.rs:54-70 | an interleaving has the records of all of the streams, and no others |
| ExpressionFusion.PlanHasStreams | arroyo-api/src/optimizations.rs:180-202 | every acyclic plan has streams under this meaning, however many inputs its expression operators have |
| Parallelism.RunIsUniform | arroyo-api/src/optimizations.rs:104-119 | all nodes of a run have one parallelism |
| Parallelism.FusionKeepsForward | arroyo-api/src/optimizations.rs:187-202 | if every forward edge joins nodes of equal parallelism, so it does after one fusion |
| Parallelism.FusionsKeepForward | arroyo-api/src/optimizations.rs:94-96 | and after any number of them |
| Parallelism.OptimizeForward | arroyo-api/src/optimizations.rs:94-96 | and after the whole optimizer loop |
| EdgeArrays.EdgeGraph.RemoveEdge | arroyo-api/src/optimizations.rs:28-36 | removing the edge in a slot keeps the order of the others in the adjacency lists, and moves the last edge of the array into the slot |
| NodeRemoval.RemoveInPlace | arroyo-api/src/optimizations.rs:23-41 | the node is gone, and its parent has got its outgoing edges; if a round goes wrong, the edge added before it is missing and the next one has its weight; every other node and edge survives, up to renaming |
| NodeRemoval.StaleIff | arroyo-api/src/optimizations.rs:30-38 | a round goes wrong if and only if, once the incoming edge is removed, an outgoing edge other than the newest is the last of the array |
| WindowFusion.PairPreserves | arroyo-api/src/optimizations.rs:64-81 | folding an aggregate into a window whose only consumer it is, with no edge going missing, preserves the meaning of the graph, for nondeterministic operators too |
| WindowFusion.FedAsBeforeIff | arroyo-api/src/optimizations.rs:51-81 | whatever the streams are, every other node is fed as before if and only if the aggregate is the only consumer of the window and no edge goes missing |
| WindowExamples.FuseSharedWindow | arroyo-api/src/optimizations.rs:51-81 | a window read by a count and by a sink: the sink is left reading the counts |
| WindowExamples.FuseTwoSinks | arroyo-api/src/optimizations.rs:23-41 | a window read by a count alone, and two sinks behind the count: one sink is left without an input, and the other is fed over its edge |
| WindowPass.HarmlessRun | arroyo-api/src/optimizations.rs:43-88 | a run of folds that are all harmless preserves the meaning of the graph |
| WindowPass.FoldKeepsForward | arroyo-api/src/optimizations.rs:64-81 | a fold in which no edge goes missing keeps forward edges between nodes of equal parallelism |
| WindowPass.FuseWindowAggregation | arroyo-api/src/optimizations.rs:43-88 | the pass ends on every graph, by folds alone, with no aggregate left to fold among the nodes that a source leads to; if every fold was harmless, as all are on graphs with at most one output per node, the meaning is preserved |
| WindowAggregates.FoldIsRight | arroyo-worker/src/operators/windows.rs:19-80 | whichever windows fire, a window with a count, min, max or sum sends what the window and then the aggregate operator send |
| WindowAggregates.WindowEmits | arroyo-worker/src/operators/windows.rs:19-80 | a window with an aggregate sends, one tick before the end of each window that fires, the least, the greatest, the sum or the number of its records, and nothing for the first three exactly if there are none |
| WindowAggregates.AggregatorEmits | arroyo-worker/src/operators/mod.rs:817-875 | an aggregate operator sends the same of each batch, with its time and key |
| WindowAggregates.SumOfParts | arroyo-worker/src/operators/windows.rs:48-58 | the sum of a batch is the sum of its parts |
| WindowAggregates.FoldsThese | arroyo-api/src/optimizations.rs:51-81 | folded are exactly the aggregates whose only input is a window without one, over a forward edge, and only the aggregate of the window changes |
| WindowAggregates.FuseWindows | arroyo-api/src/optimizations.rs:43-88 | so the pass is right on plans of windows and aggregates, and keeps forward edges matched, if every fold was harmless; no aggregate that a source leads to is left behind a window without one |
| TwoPhaseRewrite.TwoPhase | arroyo-sql/src/optimizations.rs:251-291 | the loop ends; it panics if and only if a window aggregate that it comes to slides by less than a microsecond, and otherwise exchanges exactly the window aggregates that a source leads to, that are not sinks and whose two-phase form fits; every plan whose windows consist of whole bins keeps its windows |
| TwoPhaseRewrite.BecomesIff | arroyo-sql/src/optimizations.rs:258-284 | a window aggregate is exchanged if and only if its projection has a two-phase form, it is no session, and the slide is zero or divides the width in whole microseconds; equal width and slide give the tumbling form |
| TwoPhaseRewrite.RewriteKeepsWindowsIff | arroyo-sql/src/optimizations.rs:273-284 | the new plan completes exactly the windows of the old one if and only if these consist of whole bins of one slide; instant windows stay, and a slide of zero only with a positive width |
| TwoPhaseRewrite.WholeMicros | arroyo-sql/src/optimizations.rs:267-269 | so it does whenever width and slide are whole microseconds and the slide is not zero |
| TwoPhaseRewrite.HalfMicros | arroyo-sql/src/optimizations.rs:267-269 | windows of 1500 ns that slide by 1000 ns pass the test, and the sliding form has no such windows |
| TwoPhaseRewrite.TinySlide | arroyo-sql/src/optimizations.rs:261-269 | a window of a microsecond that slides by half of one |

## Left out

- SlidingWindows.SlidingWindow.HandleWatermark: gives no value after a panic, because the operator then does not run on.
- SlidingWindows.SlidingWindow.OnStart: takes the restored watermark to be the one at the checkpoint, and the width to be a whole number of microseconds; the source restores the least watermark of the operator's subtasks and counts both in microseconds.
- TumblingWindows.TumblingWindow.OnStart: does the same, and states what the operator goes on with only where no window comes back.
- CompilerCorrectness.GenerateRefines: says nothing of rows on which the reference evaluator panics, because generated code may skip the operand that panics.
- CompilerCorrectness.GenerateRefines: excludes IS [NOT] DISTINCT FROM with a nullable operand, which `CompilerCorrectness.DistinctIsSoundIff` shows to be wrong.
- GraphOptimizer.Optimize: is stated for graphs whose nodes have at most one output and whose sources and sinks are not fusable, because consecutive visits of a depth-first search are adjacent only there.
- GraphOptimizer.OptimizeOnce: takes can_optimize and try_optimize as parameters; WASM fusion and the SQL record-transform builder are further instances and would only add easy members.
- TwoPhaseRewrite.RewriteKeepsWindowsIff: takes the windows of a window aggregate to be those that its type declares; the assigners of the one-phase operator count in milliseconds.
- OperatorLaws.MathIsWorth: is about mathematical integers; overflow of the generated Rust is not modelled.
- OperatorLaws.CompareIsWorth: leaves out structs, which have no literals to compare; `CompilerCorrectness.GenerateRefines` covers them.
- MaxValue.MaxValueIsSound: assumes that no comparison is literal > column with the greatest literal, the case that `MaxValue.LeafIsSoundIff` shows to be wrong.
- TopNWindow.TopNRewrite: assumes a strict order of the rows; with ties the selection is one of several, as `TopN.IsTopN` allows.
- TopNWindow.FirstRowsIff: is stated for rows that do not tie and a positive n, because with ties several outputs are right and with n = 0 there is none.
- WindowPass.FuseWindowAggregation: leaves open which edges of the array sit where after a removal of a node, beyond each sitting in one slot, because no later step depends on it except through `WindowFusion.FedAsBeforeIff`.
- LateWatermarks.GoesBack: goes through the steps of the operator for one key, because the invariants of the operator end where the watermark has gone back.
- Termination of the SQL record-transform and top-N loops; the search states of the SQL top-N optimizer, its division by a zero slide for Instant windows and its half-taken state for Session windows.
- Restarting operators other than the sliding and the tumbling window, the sliding top-N operator's sorted store, and the local aggregators.
- Timers, ticks, commits and metrics of the event loop; merging watermarks across inputs (a watermark is data of its input here).
- Floating-point aggregates: addition is not associative there.
- Operator precedence of emitted text, token printing, and types of generated Rust beyond nullability.
- String, regular-expression, JSON, hash, date and array functions of the expression compiler; casts and user-defined functions are arbitrary functions of their arguments.
- The graph builders, encoding and decoding of programs, connectors, controller, schedulers, REST API and console.
