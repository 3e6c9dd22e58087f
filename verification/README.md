# Pravaha: a verified model

Pravaha is a streaming platform: producers publish events to Kafka, consumer groups process
them, an event-time analytics worker keeps per-minute aggregates, pipelines are edited as
graphs and published, a batch layer recomputes hourly rollups, a registry checks schemas and
an AI investigator explains anomalies. This project models the parts whose correctness is an
argument about whole runs or whole loops, and proves those arguments.

## What is modelled

- **Consumer framework** (`ConsumerModel`, `ConsumerSafety`, `ConsumerPersistence`,
  `ConsumerCommits`, `ConsumerRouting`, `ConsumerVisibility`,
  `ConsumerDuplicates`, `ConsumerProgress`, `ConsumerLoop`). Partition logs, committed offsets, processing records,
  the events table, dead letters and one consumer process form a transition system whose steps
  are the awaits of the source: fetch, semaphore, lookup, handler, record write, dead letter
  writes, commit, stop, crash, restart, with every outside call free to fail before or after its
  effect. `ConsumerLoop` holds the imperative code and shows that each method is a run of
  that system.
- **Event-time analytics** (`EventTime`, `Metrics`, `Analytics`, `AnalyticsRuns`,
  `AnalyticsFlush`, `AnalyticsRows`, `AnalyticsProcessor`, `SortedSets`, `TopN`, `TopEndpoint`). Watermark, lateness, open minutes, accumulators and flush,
  against a plain group-by of the accepted events. Times are integer microseconds.
- **Pipelines** (`Graphs`, `Pipelines`, `PipelineReports`, `PipelineValidator`, `Versions`). The graph validator
  with Kahn's sort and depth-first search, and the draft/publish state machine on top of it.
- **Arithmetic kernels** (`MixHash`, `Murmur2`, `Ewma`). The partition hash on 32-bit words and
  the one-pass weighted mean and variance over exact reals.
- **Replay and batch** (`Replay`, `Rollup`). Keyset pagination while others write, and
  delete-then-append recomputation.
- **Schemas** (`Schemas`, `Registry`). What flat JSON object schemas accept (`type`, section
  6.1.1, and `required`, section 6.5.3, of JSON Schema Validation 2020-12; `properties`,
  section 10.3.2.1, and `additionalProperties`, section 10.3.2.3, of JSON Schema Core 2020-12),
  against the registry's compatibility check.
- **Windows, aggregators, grounding** (`Windows`, `Aggregators`, `Grounding`).

Time, randomness, outside failures and the answers of databases, brokers, tools and the AI
provider are parameters of the operations that meet them.

## Where code and documentation disagree

The model follows the code.

- `docs/decisions/0008-dlq-strategy.md` promises that no event is lost silently. Both dead letter writes
  may fail and the offset is committed all the same (`ConsumerVisibility.SilentLoss`). The promise holds of a
  run exactly when its steps left a trace of every committed hand-off (`ConsumerVisibility.TracedIff`,
  `ConsumerVisibility.EveryFailureVisible`), and of no configuration that lets tasks run
  (`ConsumerVisibility.SilentLossIff`).
- No loss needs `consumer_retry_max_attempts >= 1`: with zero attempts the retry loop falls
  through without touching the message (`ConsumerSafety.NoLossIff`).
- A lookup that raises on the last attempt can turn a "processed" record into a "failed" one and reopen the
  handler, in every configuration and any number of times (`ConsumerDuplicates.LookupErrorsReopen`). The number
  of such overwrites is exactly what the duplicate bound has to add (`ConsumerDuplicates.BoundedDuplicates`).
- The watermark is not monotone (`EventTime.MovesBackIff`).
- The docstring of `pravaha/analytics/processor.py` says that a too-late event still updates Redis while
  its key is alive; `handle` returns before folding it. `docs/decisions/0005-event-time.md` says that state is
  deleted when a window is written; it is kept, so a reopened minute is rewritten with its cumulative totals.
- The pipeline rules say that every node is reachable from the source; the validator only warns
  (`Pipelines.AllReachedIff`, `Pipelines.DisconnectedIsSound`).
- A replay with batch size zero completes without replaying anything (`Replay.CoverageIff`); a cancelled
  replay's row misses its last page (`Replay.RowCounts`).
- The rollup job's default window, the last 24 hours, starts off the hour and replaces a complete
  row of its first hour by a partial one (`Rollup.AlignedIff`, `Rollup.UnalignedRunLosesRows`).
- The compatibility check overlooks four kinds of change (`Schemas.SoundIffNoGap`), and of the changes that
  are compatible it refuses exactly those that trade `integer` for `number` (`Schemas.RefusedIffTrade`).
- The tool-call budget is tested once per response (`Grounding.BudgetKeptIff`).

## Model

| member | source | states |
|---|---|---|
| `ConsumerSafety.NoLossIff` | pravaha/kafka/consumer.py:254-319 | in every run of fetch, concurrent handling, commit, shutdown, crash and restart, every message below a committed offset was handled and recorded, skipped as a duplicate, or handed to the dead letter path, if and only if at least one attempt is allowed (or the semaphore lets nothing start) |
| `ConsumerSafety.LosingRun` | pravaha/kafka/consumer.py:370-374 | with no attempt allowed there is a run that commits a message nobody handled |
| `ConsumerSafety.UntriedRun` | pravaha/kafka/consumer.py:370-374 | the seven steps of that run, for any well-formed message |
| `ConsumerSafety.LossHolds` | pravaha/kafka/consumer.py:205-213 | the no-loss invariant, which covers the fetch positions that the shutdown commit uses as well as the batch ends |
| `ConsumerSafety.KeptOccurs` | pravaha/kafka/consumer.py:376-385 | "handled or skipped" and "handed off" are exactly the occurrences of those steps in the run |
| `ConsumerSafety.CommittedMonotone` | pravaha/kafka/consumer.py:313-315 | a committed offset never moves back over a run and never passes the end of the log |
| `ConsumerCommits.CommitExact` | pravaha/kafka/consumer.py:277-282 | in every run a commit that the broker takes commits, for each partition of the batch, the offset after its last message, and leaves every other partition alone |
| `ConsumerCommits.GatheredCommits` | pravaha/kafka/consumer.py:313-315 | in every run a gathered batch goes on to its commit exactly when it has a message and no stop was asked for |
| `ConsumerRouting.MalformedNeverHandled` | pravaha/kafka/consumer.py:340-346 | in every run no lookup, handler call or record write is made for an envelope that does not parse |
| `ConsumerRouting.MalformedIsHandedOff` | pravaha/kafka/consumer.py:340-346 | every committed envelope that does not parse went through the dead letter hand-off, and only there |
| `ConsumerRouting.LettersAreTrue` | pravaha/kafka/consumer.py:417-447 | in every run each dead letter names a logged message, its event id, the reason that fits it, and a number of attempts that fits the reason: one, within the limit, or all of them |
| `ConsumerSafety.ConcurrencyBound` | pravaha/kafka/consumer.py:273-275 | at most `consumer_max_concurrency` tasks are past the semaphore in any reachable state |
| `ConsumerPersistence.InsertKeeps` | pravaha/analytics/persistence.py:61-63 | insert-or-ignore keeps ids unique and existing rows in place, and leaves a row for the id |
| `ConsumerPersistence.PersistenceSafety` | pravaha/analytics/persistence.py:32-63 | in every run the events table has at most one row per id, each row is a logged message, a "processed" record implies its row, and every committed message has its row or a dead letter hand-off |
| `ConsumerPersistence.RowsArePermanent` | pravaha/analytics/persistence.py:61-63 | the table at any point of a run is a prefix of the table later: the first delivery wins |
| `ConsumerVisibility.TracedIff` | pravaha/kafka/consumer.py:370-447 | in every run a logged message has a row for its event or a dead letter of its own if and only if some step of the run inserted that row or wrote that dead letter |
| `ConsumerVisibility.VisibleIffStored` | pravaha/kafka/consumer.py:437-447 | a dead letter is in the topic or the table exactly when a publish or insert step for that message took effect |
| `ConsumerVisibility.RowIffInserted` | pravaha/analytics/persistence.py:61-63 | an event has a row exactly when a handler call for its id took effect, whichever delivery it was and whether or not it raised |
| `ConsumerVisibility.EveryFailureVisible` | pravaha/kafka/consumer.py:417-447 | no committed message is lost silently if and only if every committed message that was handed off left a dead letter or a row, in this delivery or another |
| `ConsumerVisibility.StoredHandOffsSuffice` | pravaha/kafka/consumer.py:417-447 | in particular when no hand-off loses both its writes |
| `ConsumerVisibility.SilentLoss` | pravaha/kafka/consumer.py:437-447 | for every well-formed message and every configuration that lets tasks run, some run commits it with neither a row nor a dead letter |
| `ConsumerVisibility.SilentLossIff` | pravaha/kafka/consumer.py:417-447 | no run of a configuration loses a message silently if and only if its semaphore lets nothing start |
| `ConsumerVisibility.DroppedHandOff` | pravaha/kafka/consumer.py:386-391 | the nine steps of a permanent error whose two dead letter writes fail form a legal run |
| `ConsumerDuplicates.BoundedDuplicates` | pravaha/kafka/consumer.py:373-409 | when no id is in flight twice, whatever raises: completed handler runs of an id are at most one more than its lost record writes and its overwritten records, and each overwrite has cost a lookup that raised on the last attempt |
| `ConsumerDuplicates.NoReentry` | pravaha/kafka/consumer.py:376-409 | re-entry only after an overwrite: whenever the handler is open to an id, every record confirmed for it has been overwritten |
| `ConsumerDuplicates.OverwriteHitsRecord` | pravaha/kafka/consumer.py:406-408 | what counts as an overwrite turns a "processed" record into a "failed" one |
| `ConsumerDuplicates.TameDuplicates` | pravaha/kafka/consumer.py:373-385 | if no lookup raises on the last attempt nothing is overwritten, and completed runs are at most one more than lost record writes |
| `ConsumerDuplicates.TameNoReentry` | pravaha/kafka/consumer.py:376-379 | then a confirmed record keeps every later delivery of the id out of the handler |
| `ConsumerDuplicates.UniqueLogIsApart` | pravaha/kafka/consumer.py:254-291 | in a log without repeated ids no id is ever in flight twice, redeliveries included |
| `ConsumerDuplicates.BoundedDuplicatesUniqueLog` | pravaha/kafka/consumer.py:81-118 | the duplicate bound from a condition on the log alone |
| `ConsumerDuplicates.LookupErrorsReopen` | pravaha/kafka/consumer.py:402-409 | the bound is reached: for every configuration in which a handler can run, every message and every k, some run completes the handler k + 1 times without losing a record write |
| `ConsumerDuplicates.LostWritesBoundIff` | pravaha/kafka/consumer.py:373-409 | lost writes alone bound the completed runs of every run if and only if no handler can run |
| `ConsumerProgress.GatherEnds` | pravaha/kafka/consumer.py:273-291 | every interleaving of the tasks of a batch takes at most as many steps as there was work, and until all are done some task can step: the gathering ends under any schedule |
| `ConsumerProgress.SomeTaskCanStep` | pravaha/kafka/consumer.py:273-275 | the semaphore never deadlocks a batch |
| `ConsumerProgress.GatherCanFinish` | pravaha/kafka/consumer.py:291 | from any point of a batch some schedule reaches its end |
| `ConsumerProgress.FreshWork` | pravaha/kafka/consumer.py:373-415 | the work of a fresh batch is four steps per attempt and eight more, for each message |
| `ConsumerLoop.StreamConsumer.AlreadyProcessed` | pravaha/kafka/consumer.py:81-94 | the lookup answers by the record, or raises; it is a step of the transition system |
| `ConsumerLoop.StreamConsumer.CallHandler` | pravaha/kafka/consumer.py:380 | the handler call with its possible effect and reply is a step of the transition system |
| `ConsumerLoop.StreamConsumer.MarkProcessed` | pravaha/kafka/consumer.py:96-118 | the record upsert, which may apply and still raise, is a step of the transition system |
| `ConsumerLoop.StreamConsumer.MarkFailed` | pravaha/kafka/consumer.py:406-408 | the suppressed "failed" record is a step of the transition system |
| `ConsumerLoop.StreamConsumer.ToDlq` | pravaha/kafka/consumer.py:417-447 | publish and insert, each free to fail, are two steps of the transition system |
| `ConsumerLoop.StreamConsumer.TryOnce` | pravaha/kafka/consumer.py:375-391 | one attempt: lookup, handler, record, or the permanent-error branch |
| `ConsumerLoop.StreamConsumer.Exhausted` | pravaha/kafka/consumer.py:402-409 | the last-attempt branch |
| `ConsumerLoop.StreamConsumer.HandleWithRetry` | pravaha/kafka/consumer.py:370-415 | the retry loop takes the task to a final stage by a legal run, touching nothing else of the process |
| `ConsumerLoop.StreamConsumer.ProcessOne` | pravaha/kafka/consumer.py:328-361 | one message from a free place in the semaphore to its final stage, with the other tasks in any stage; a malformed envelope ends dead-lettered |
| `ConsumerLoop.StreamConsumer.Fetch` | pravaha/kafka/consumer.py:258-287 | a broker error or an empty poll ends the turn with nothing changed, another error ends the loop, and a delivery advances each position by its messages, creates one task per message, and keeps for exactly the partitions that delivered the offset after their last message |
| `ConsumerLoop.StreamConsumer.GatherBatch` | pravaha/kafka/consumer.py:291 | the tasks of the batch, one after the other in any order, all reach a final stage by a legal run |
| `ConsumerLoop.StreamConsumer.CommitAfterBatch` | pravaha/kafka/consumer.py:313-319 | the commit of `last_offset + 1` per partition, skipped when stopping, possibly failing |
| `ConsumerLoop.StreamConsumer.Stop` | pravaha/kafka/consumer.py:205-213 | after the loop no task is in flight; the process commits its fetch positions and ends, by a legal run |
| `ConsumerLoop.StreamConsumer.RunBatch` | pravaha/kafka/consumer.py:270-319 | a fetched batch is handled and its offsets committed, unless a stop was asked for meanwhile or the broker refuses |
| `ConsumerLoop.StreamConsumer.RunOnce` | pravaha/kafka/consumer.py:254-319 | one turn of the main loop, whatever the poll brings, is a legal run of the transition system; afterwards each partition that delivered is committed to its old position plus its messages if the broker took the commit and no stop was asked for, and every other committed offset is as before |
| `EventTime.Watermark.CurrentValue` | pravaha/processing/watermark.py:45-54 | newest event time less the lateness, plus the idle excess |
| `EventTime.Watermark.Observe` | pravaha/processing/watermark.py:56-62 | the whole new state of the watermark |
| `EventTime.Watermark.Classify` | pravaha/processing/watermark.py:64-79 | the three lateness classes |
| `EventTime.Watermark.IsClosed` | pravaha/processing/watermark.py:81-83 | a window is closed exactly when an event classified for it would no longer be on time |
| `EventTime.MaxTimeIsMax` | pravaha/processing/watermark.py:59-60 | the newest time is one of the event times and bounds all of them |
| `EventTime.TooLateExactly` | pravaha/processing/watermark.py:46-79 | an event observed and then classified is too late exactly when the newest event time, itself included, has reached the window's end plus twice the lateness; the clock enters only between the two readings |
| `EventTime.MovesBackIff` | pravaha/processing/watermark.py:50-61 | after idling the watermark falls exactly when the idle excess was larger than the step in event time |
| `Metrics.ClassifyEvent` | pravaha/analytics/metrics_catalog.py:114-139 | the loop yields the contributions of every matching definition whose fields resolve, in catalog order |
| `Metrics.ContributesIff` | pravaha/analytics/metrics_catalog.py:110-139 | an event contributes to exactly the definitions that list its type or all types and whose fields resolve |
| `Metrics.DeltaMeans` | pravaha/analytics/metrics_catalog.py:121-138 | what it contributes for each kind, field by field: one, the number, the text, or the key with its weight |
| `Metrics.WeightMeans` | pravaha/analytics/metrics_catalog.py:136-137 | the weight is the weight field's number, and one where there is no such field or number |
| `Metrics.FoldFields` | pravaha/processing/state.py:61-68 | hash fields hold the number and the sum of the deltas, independently of order |
| `Metrics.FoldMembers` | pravaha/processing/state.py:70-81 | the distinct set holds exactly the members added |
| `Metrics.FoldScores` | pravaha/processing/state.py:83-89 | each score is the sum of that member's weights |
| `Analytics.BucketIsMinute` | pravaha/analytics/processor.py:46-48 | a time lies in exactly one whole minute, and that minute's start is its bucket |
| `Analytics.StoreIsGroupBy` | pravaha/analytics/processor.py:99-116 | after any sequence of events every accumulator equals the fold of the group-by for its metric, its minute `[b, b + 60 s)` and its group: "_all", or the event's region for regional metrics |
| `Analytics.OtherBuckets` | pravaha/analytics/processor.py:105-116 | an event changes no accumulator of another minute |
| `AnalyticsRuns.RunHolds` | pravaha/analytics/processor.py:78-166 | over every interleaving of handling and flushing the accumulators are those of the accepted events, and closed minutes have current rows |
| `AnalyticsRuns.DroppedIff` | pravaha/analytics/processor.py:80-89 | which events are dropped, by event times alone: those whose minute's end plus twice the lateness some event so far, itself included, has reached |
| `AnalyticsRuns.WriteBehindCoherence` | pravaha/analytics/processor.py:154-197 | in every reachable state a minute that accepted an event is open or has a row equal to what its accumulators give |
| `AnalyticsRuns.ClosedRowIsGroupBy` | pravaha/analytics/processor.py:78-197 | a closed minute's row is the group-by of the accepted events, which event times alone decide, however often idling closed and reopened it |
| `AnalyticsRuns.ClocksDoNotMatter` | pravaha/analytics/processor.py:78-92 | two runs over the same events end with the same accumulators whatever their clocks and flushes |
| `AnalyticsRuns.ShutdownRows` | pravaha/analytics/processor.py:67-74 | after the forced flush every minute with an accepted event has that group-by row |
| `AnalyticsFlush.FlushPicks` | pravaha/analytics/processor.py:154-163 | in every run, whatever its clocks, a flush lines up in ascending order exactly the open minutes whose end plus twice the lateness the newest event time and the idle excess have reached |
| `AnalyticsFlush.FlushCloses` | pravaha/analytics/processor.py:164-166 | if all its persists succeed it leaves no such minute open, closes no other, and writes the rows of exactly those |
| `AnalyticsFlush.MarkHolds` | pravaha/analytics/processor.py:80 | over every run the watermark knows the newest event time and the clock reading of the last observation |
| `AnalyticsRuns.GroupByIsDef` | pravaha/analytics/processor.py:173-191 | with unique metric names the group-by of a metric is the filter of the events by that definition |
| `Metrics.ComposeMetrics` | pravaha/analytics/processor.py:221-254 | the two loops store every sample but numerators and denominators, and put the per-second rate and the ratios in their place |
| `AnalyticsRows.StoredOrNot` | pravaha/analytics/processor.py:227-232 | a metric has a row of its own exactly when its name is derived or is neither a numerator nor a denominator |
| `AnalyticsRows.HitsIff` | pravaha/analytics/processor.py:80-106 | an event belongs to a metric's minute exactly when its time is in `[b, b + 60 s)` of a whole minute `b` and the metric lists its type or all types |
| `AnalyticsRows.CountRowExact` | pravaha/analytics/processor.py:176-181 | a count metric's sample, and its row where it has one, is the number of accepted events with a listed type and a time in `[b, b + 60 s)` |
| `AnalyticsRows.DerivedNames` | pravaha/analytics/processor.py:234-253 | the six names that are derived |
| `AnalyticsRows.InternalNames` | pravaha/analytics/processor.py:227-229 | the names that are combined and not stored are those that end in `.num` or `.den` |
| `AnalyticsRows.PerSecondRowExact` | pravaha/analytics/processor.py:235 | the per-second row is the number of the minute's events over sixty |
| `AnalyticsRows.SumRowExact` | pravaha/analytics/processor.py:176-181 | a sum metric's sample, and its row where it has one, is the total and the number of the field's numbers in that minute |
| `AnalyticsRows.DistinctRowExact` | pravaha/analytics/processor.py:182-184 | a distinct metric's row is the number of different texts of the field in that minute |
| `AnalyticsRows.TopRowExact` | pravaha/analytics/processor.py:185-191 | a top metric's row is the list, the length and the truncated score sum of the best fifteen among exactly the keys that events of the minute name, each scored by its total weight |
| `AnalyticsRows.RatioRowExact` | pravaha/analytics/processor.py:236-253 | a ratio's row is the numerator's count or total over the denominator's count, zero without any |
| `AnalyticsProcessor.Processor.Handle` | pravaha/analytics/processor.py:78-116 | handling an event is one step of the run; it opens exactly the whole minute that holds the event's time, unless the event is too late |
| `AnalyticsProcessor.Processor.FoldContributions` | pravaha/analytics/processor.py:99-116 | the two nested loops add every contribution to every group key |
| `AnalyticsProcessor.Processor.ReadSamples` | pravaha/analytics/processor.py:170-191 | the loop over the metric names reads each accumulator by the kind of the first definition of that name |
| `AnalyticsProcessor.Processor.FinalizeBucket` | pravaha/analytics/processor.py:168-197 | reading, composing and writing store the row that the write-behind theorems speak of; a failed persist changes nothing |
| `AnalyticsProcessor.Processor.ReadyBuckets` | pravaha/analytics/processor.py:155-163 | in ascending order exactly the open minutes whose end plus twice the lateness the newest event time and the idle excess have reached, or all when forced |
| `AnalyticsProcessor.Processor.Flush` | pravaha/analytics/processor.py:154-166 | a flush is a run of the transition system: it closes only such minutes, with the database's consent and their rows written, changes no other row, and if the database takes everything leaves none of them open; a failed persist ends it with the minute still open |
| `TopN.TopKeysCorrect` | pravaha/processing/state.py:91-94 | the stored list has the right length, no repetition, is in order and beats everything it omits |
| `TopN.TopScoresFall` | pravaha/processing/state.py:91-94 | scores never rise along the list, and no omitted key scores higher than a listed one |
| `TopEndpoint.SumRows` | pravaha/api/routers/analytics.py:120-123 | the endpoint's loops give each key the sum of its entries in the stored rows |
| `TopEndpoint.TopAnswer` | pravaha/api/routers/analytics.py:110-124 | end to end, for every run and any minutes: what the endpoint sums for a key never exceeds the weight of the accepted events that name it, falls short by at most the smallest scores of the full lists that omit it, and is exact if and only if no minute omits it while it has a score |
| `TopEndpoint.TotalIsWeight` | pravaha/analytics/processor.py:115-116 | summed over different minutes the scores of a key are the weight of its events |
| `TopN.MinuteBound` | pravaha/analytics/processor.py:185-191 | one minute loses a key at most the smallest score of a full list that omits it |
| `TopN.GapIsSmallest` | pravaha/analytics/processor.py:186 | the bound's term is the smallest score of a list of fifteen that omits the key, and zero otherwise |
| `TopN.TruncationBound` | pravaha/api/routers/analytics.py:120-124 | for non-negative weights the summed score never exceeds the true total and falls short by at most the sum of those smallest scores |
| `TopN.ExactIff` | pravaha/api/routers/analytics.py:120-124 | it is exact if and only if no minute omits the key while giving it a score |
| `TopN.ExactWhenSmall` | pravaha/analytics/processor.py:186 | in particular when no minute has more than fifteen keys |
| `Graphs.Kahn` | pravaha/processing/pipeline_spec.py:105-117 | for any enumeration of the keys the order is topological (parallel edges included), is complete exactly when the edges have no cycle, and is non-empty exactly when some node has no in-edge; the loop terminates |
| `Graphs.Scan` | pravaha/processing/pipeline_spec.py:112-115 | the inner loop keeps counts equal to the open in-edges and enqueues each node at most once |
| `Graphs.FinishNode` | pravaha/processing/pipeline_spec.py:112-113 | finishing a node removes exactly its out-edges, with multiplicity, from the in-counts |
| `Graphs.TopologicalAcyclic` | pravaha/processing/pipeline_spec.py:116-117 | a complete topological order excludes every cycle |
| `Graphs.EveryPredecessorCycle` | pravaha/processing/pipeline_spec.py:116-117 | a finite set in which each node has a predecessor contains a cycle, which is why an incomplete order means one |
| `Graphs.Reachable` | pravaha/processing/pipeline_spec.py:130-139 | the search returns exactly the nodes some path from the start ends in, and terminates |
| `Pipelines.LocalMeaning` | pravaha/processing/pipeline_spec.py:47-103 | apart from the cycle, no error is reported exactly when keys are unique and named, types and configurations valid, every edge known and leading strictly forward in the listed stage order, one source and a sink present |
| `PipelineReports.NodeErrorsExact` | pravaha/processing/pipeline_spec.py:52-80 | each error about a node is reported exactly when some node has that fault: no name, an invalid type, a window without a size or with a malformed length, an aggregate of unknown kind |
| `PipelineReports.UnknownNodeExact` | pravaha/processing/pipeline_spec.py:84-88 | an edge is reported as unknown exactly when an end of it is no node's key |
| `PipelineReports.StageOrderExact` | pravaha/processing/pipeline_spec.py:91-96 | an edge between named nodes of valid types is reported for its order exactly when its target does not come strictly later in the list of stages |
| `PipelineReports.DuplicatesExact` | pravaha/processing/pipeline_spec.py:47-49 | repeated keys are reported exactly when two nodes share one |
| `PipelineReports.CanonicalIsSound` | pravaha/processing/pipeline_spec.py:13-15 | the pipeline through all seven stages in their order is accepted |
| `Pipelines.CycleReportedIff` | pravaha/processing/pipeline_spec.py:116-117 | the cycle error occurs exactly when the edges between known nodes contain a cycle |
| `Pipelines.NoProblemsIffSound` | pravaha/processing/pipeline_spec.py:38-127 | a graph is accepted exactly when it meets the rules; a cycle is never the only error |
| `Pipelines.RankIsPosition` | pravaha/processing/pipeline_spec.py:26-27 | a stage's rank is its position in the list of the seven stages |
| `Pipelines.RanksIncrease` | pravaha/processing/pipeline_spec.py:91-96 | along every path of an accepted graph the stage rank rises by at least one per edge |
| `Pipelines.StagesAdvance` | pravaha/processing/pipeline_spec.py:91-96 | of two nodes on a path the earlier one's stage comes strictly earlier in the listed order |
| `Pipelines.PathsAreShort` | pravaha/processing/pipeline_spec.py:26-27 | so no path has more than seven nodes |
| `Pipelines.AllReachedIff` | pravaha/processing/pipeline_spec.py:119-123 | an accepted graph is fully reachable from its source if and only if every other node has an incoming edge |
| `Pipelines.DisconnectedIsSound` | pravaha/processing/pipeline_spec.py:119-123 | an accepted graph whose sink the source does not reach |
| `PipelineValidator.ScanNodes` | pravaha/processing/pipeline_spec.py:52-80 | the node loop yields the errors in order, the last node per key and the order of first insertion |
| `PipelineValidator.ScanEdges` | pravaha/processing/pipeline_spec.py:82-96 | adjacency lists and in-degrees of the known edges and the edge errors; it raises exactly when a known edge touches an unnamed node |
| `PipelineValidator.ValidateGraph` | pravaha/processing/pipeline_spec.py:38-127 | the exact error list, a topological order, the unreachable nodes, the inputs on which it raises; accepted exactly when the rules hold |
| `Versions.RunHolds` | pravaha/api/routers/pipelines.py:140-198 | after every run of create, update and publish: the published version is the active one, only the highest can be a draft, everything ever published meets the rules |
| `Versions.OneActive` | pravaha/api/routers/pipelines.py:184-198 | two published versions of a pipeline are the same one, and it is the active one |
| `Versions.PublishedIsImmutable` | pravaha/api/routers/pipelines.py:146-156 | a version once published stays, is never a draft again and keeps its graph through every later run |
| `Versions.PublishedStagesAdvance` | pravaha/api/routers/pipelines.py:179-184 | along every path of a graph ever published the stages strictly advance in the listed order, over at most seven nodes |
| `Versions.NumbersHaveNoGap` | pravaha/api/routers/pipelines.py:140-151 | in every run the versions of a pipeline are numbered from one without a gap |
| `Versions.DraftThenPublish` | pravaha/api/routers/pipelines.py:137-188 | posting a draft that meets the rules and publishing the number answered makes exactly that graph the active published one |
| `Versions.NamesAreUnique` | pravaha/api/routers/pipelines.py:74-75 | in every run no two pipelines have the same name |
| `Versions.CreateIsExact` | pravaha/api/routers/pipelines.py:74-92 | creation is refused exactly for a name in use or a graph on which the validator raises, and otherwise adds one pipeline whose only version is a draft of the posted graph |
| `Versions.UpdateIsExact` | pravaha/api/routers/pipelines.py:137-159 | which version a draft update writes, and that it changes nothing else |
| `Versions.PublishIsExact` | pravaha/api/routers/pipelines.py:170-205 | publishing succeeds exactly for an existing unpublished version whose graph meets the rules; it is then published and active, the one published before disabled, all else unchanged |
| `Versions.PipelineApi.CreatePipeline` | pravaha/api/routers/pipelines.py:74-92 | name conflict, validator failure, or version 1 as a draft |
| `Versions.PipelineApi.Update` | pravaha/api/routers/pipelines.py:137-159 | the latest draft is overwritten, otherwise the next version is created |
| `Versions.PipelineApi.DisableOthers` | pravaha/api/routers/pipelines.py:184-198 | after the loop the version is published and every other published one disabled |
| `Versions.PipelineApi.PublishVersion` | pravaha/api/routers/pipelines.py:170-205 | not found, conflict, invalid, or published and active |
| `Murmur2.Murmur2` | pravaha/kafka/producer.py:27-59 | the loops compute the hash written as a composition of word steps |
| `Murmur2.KnownHashes` | pravaha/kafka/producer.py:27-59 | the hashes of the empty key, "21", "abc" and "foobar" are those of Kafka's own partitioner |
| `Murmur2.PackIsLittleEndian` | pravaha/kafka/producer.py:37-42 | byte `i` of a block fills the bits from `8 * i` up |
| `Murmur2.RunTail` | pravaha/kafka/producer.py:48-55 | the three conditional steps mix in the tail bytes as one word |
| `Murmur2.PartitionForKey` | pravaha/kafka/producer.py:62-64 | partitions are in range; no partitions is an error |
| `Murmur2.MurmurInverse` | pravaha/kafka/producer.py:43-58 | every mixing step is a bijection on 32-bit words, with its inverse |
| `Murmur2.BlockSeparation` | pravaha/kafka/producer.py:35-47 | keys that differ inside exactly one aligned block have different hashes |
| `Murmur2.TailSeparation` | pravaha/kafka/producer.py:48-55 | keys that differ only in the one to three tail bytes have different hashes |
| `Murmur2.BlockReachesEvery` | pravaha/kafka/producer.py:35-59 | every 32-bit value is the hash of some key that differs in one given block only |
| `MixHash.StayDifferent` | pravaha/kafka/producer.py:46-47 | different states stay different through equal blocks |
| `Ewma.OnePass` | pravaha/anomaly/detectors.py:123-128 | for every history the loop's results are the exponentially weighted mean and the weighted variance about that final mean |
| `Ewma.VarianceStep` | pravaha/anomaly/detectors.py:126-128 | the recurrence for the variance, through the parallel axis theorem |
| `Ewma.Recentre` | pravaha/anomaly/detectors.py:128 | the parallel axis theorem for arbitrary weights |
| `Ewma.WeightsSumToOne` | pravaha/anomaly/detectors.py:127 | the weights sum to one |
| `Ewma.WeightsClosedForm` | pravaha/anomaly/detectors.py:123-127 | each weight is alpha times a power of one minus alpha by age |
| `Ewma.Bounds` | pravaha/anomaly/detectors.py:127-129 | for alpha in [0, 1] the mean lies between the extremes and the variance is not negative |
| `Ewma.ConstantHistory` | pravaha/anomaly/detectors.py:123-130 | a constant history has no variance |
| `Ewma.DecisionSquared` | pravaha/anomaly/detectors.py:129-133 | deciding with any root of the variance and deciding on squares agree |
| `Ewma.Detect` | pravaha/anomaly/detectors.py:113-133 | the whole decision on the batch mean and variance, short and empty histories included |
| `Replay.NoRowTwice` | pravaha/replay/engine.py:77-119 | in every run, whatever others insert or delete, attempts strictly increase in id order and replayed plus failed is their number |
| `Replay.CoverageIff` | pravaha/replay/engine.py:77-134 | a completed job attempted every row that, in all the tables it queried, was in the job's time range and had the event type and producer it names, if and only if the batch size is not zero (or the time range is empty) |
| `Replay.RunCovers` | pravaha/replay/engine.py:86-92 | until it completes, a row that is always there was attempted or lies beyond the last id |
| `Replay.PageTakesSmallest` | pravaha/replay/engine.py:86-89 | a candidate that a page leaves out comes after everything on the page, which is then full |
| `Replay.OnlyMatching` | pravaha/replay/engine.py:79-85 | every attempted row was, in some queried table, in the job's time range, both ends included, with the event type and the producer it names, if it names them |
| `Replay.TurnEnds` | pravaha/replay/engine.py:91-153 | what ends a turn: a failing query or read fails the job, finding nothing completes it, a cancelled or missing job row after a page cancels it, and nothing else ends it |
| `Replay.PublishDecides` | pravaha/replay/engine.py:115-119 | where every publish works no row counts as failed, and where none works none counts as replayed |
| `Replay.RowCounts` | pravaha/replay/engine.py:121-134 | the job row shows the true counts unless the job was cancelled, when it misses the last page |
| `Replay.AttemptPage` | pravaha/replay/engine.py:94-119 | the inner loop attempts the page in order and counts successes and failures |
| `Replay.RunReplayJob` | pravaha/replay/engine.py:76-153 | the loop is the run the theorems speak of, with its completed, cancelled and failed ends |
| `Rollup.DeleteCoversInserts` | spark/src/main/scala/pravaha/batch/EventRollupJob.scala:108-124 | the deleted range covers every hour the run inserts into, for any window |
| `Rollup.AppendNeverConflicts` | spark/src/main/scala/pravaha/batch/EventRollupJob.scala:62-63 | so the append never violates the unique key |
| `Rollup.LastRunWins` | spark/src/main/scala/pravaha/batch/EventRollupJob.scala:62-63 | after any sequence of runs, broken-off ones included, an hour whose last clearing run finished holds exactly that run's rows |
| `Rollup.Idempotent` | spark/src/main/scala/pravaha/batch/EventRollupJob.scala:105-124 | running a window again changes nothing |
| `Rollup.RerunRepairs` | spark/src/main/scala/pravaha/batch/EventRollupJob.scala:62-63 | a rerun after dying at any point gives the table of one undisturbed run |
| `Rollup.CoversIffExact` | spark/src/main/scala/pravaha/batch/EventRollupJob.scala:80-99 | a window gives an hour's own group-by for every event table if and only if it covers the hour |
| `Rollup.AlignedIff` | spark/src/main/scala/pravaha/batch/EventRollupJob.scala:97-115 | a window covers every hour it clears if and only if both its ends are on the hour |
| `Rollup.RecomputationIsExact` | spark/src/main/scala/pravaha/batch/EventRollupJob.scala:62-124 | for aligned windows, overlapping, repeated, reordered or broken off, every hour last cleared by a finished run holds exactly its group-by rows |
| `Rollup.OrderDoesNotMatter` | spark/src/main/scala/pravaha/batch/EventRollupJob.scala:62-63 | two such sequences agree on every hour both recomputed |
| `Rollup.RowIff` | spark/src/main/scala/pravaha/batch/EventRollupJob.scala:83-98 | the rollup has a row for a type, region and hour exactly when some event of the window has that type, that region ("unknown" where it has none) and a time in that whole hour |
| `Rollup.GroupIs` | spark/src/main/scala/pravaha/batch/EventRollupJob.scala:83-98 | a row is computed from exactly those events |
| `Rollup.RowMeans` | spark/src/main/scala/pravaha/batch/RollupLogic.scala:71-79 | its fields: the events, the different correlation ids, the different users without the missing ones, and an average that times the number of amounts is their total |
| `Rollup.UnalignedRunLosesRows` | spark/src/main/scala/pravaha/batch/EventRollupJob.scala:108-115 | a window off the hour deletes a complete row and does not write it again |
| `Rollup.Conservation` | spark/src/main/scala/pravaha/batch/RollupLogic.scala:69-79 | an additive measure summed over the rollup's groups is the measure of the window's events |
| `Rollup.CountsAndTotalsConserved` | spark/src/main/scala/pravaha/batch/RollupLogic.scala:71-79 | event counts, amounts, late and replayed counts of the rows add up to those of the events read |
| `Rollup.RollupJob.Append` | spark/src/main/scala/pravaha/batch/EventRollupJob.scala:126-129 | rows are inserted one by one until a key is already there or the job dies; what is there then is the old table and exactly the rows inserted, all of them if nothing stopped it |
| `Rollup.RollupJob.RunWindow` | spark/src/main/scala/pravaha/batch/EventRollupJob.scala:52-63 | a run that may die after any row never meets the unique key and leaves the table of the run the theorems speak of, a finished one if it had room for all rows |
| `Schemas.CheckBackwardCompatible` | pravaha/registry/service.py:60-96 | the check passes exactly under its three conditions and lists exactly the violated ones |
| `Schemas.CompatibleIff` | pravaha/registry/service.py:63 | reading old data with the new schema is possible exactly when nothing new is required and every name allows at least the old kinds |
| `Schemas.SoundIffNoGap` | pravaha/registry/service.py:60-103 | where the check passes, all old payloads stay valid if and only if none of four overlooked changes occurs (or nothing was valid) |
| `Schemas.TypeAddedUnnoticed` | pravaha/registry/service.py:83-86 | a type put on an untyped property passes and rejects old payloads |
| `Schemas.RefusedIffTrade` | pravaha/registry/service.py:60-96 | a change that keeps every old payload valid is refused if and only if some property trades `integer` for `number`; the other complaints are never false alarms |
| `Schemas.TypesWidenIff` | pravaha/registry/service.py:83-86 | a type list accepts at least the kinds of another exactly when it contains it or makes that one trade |
| `Schemas.WideningRefused` | pravaha/registry/service.py:86 | an instance: `integer` to `number` is refused although compatible |
| `Schemas.ChainSoundness` | pravaha/registry/service.py:164-177 | along passing steps that drop no property or type and type nothing untyped, a payload with declared properties only stays valid under every later version |
| `Schemas.ForgetfulChain` | pravaha/registry/service.py:83-86 | without that, two passing steps can forget a type and put another |
| `Registry.ActiveAgrees` | pravaha/registry/service.py:179-234 | after every run the active flag is on exactly the row the active version names |
| `Registry.VersionsPass` | pravaha/registry/service.py:164-177 | without force each version passed the check against the one before |
| `Registry.RegistrationAppends` | pravaha/registry/service.py:179-193 | an accepted registration appends exactly the posted schema, changes no earlier one, and is active on request |
| `Registry.RegistrationAccepted` | pravaha/registry/service.py:161-177 | a registration is accepted exactly when the type is registered and, in backward mode and without force, the schema passes the check against the latest version |
| `Registry.ActivationIsExact` | pravaha/registry/service.py:227-230 | activation makes exactly the requested version active |
| `Registry.DeactivationIsExact` | pravaha/registry/service.py:227-232 | deactivation leaves none active if the version was the active one, and changes nothing otherwise |
| `Registry.ActivationKeepsSchemas` | pravaha/registry/service.py:227-234 | activation and deactivation change no schema |
| `Registry.PayloadsStayValid` | pravaha/registry/service.py:147-234 | over whole unforced runs such payloads stay valid under the active version |
| `Registry.SchemaRegistry.CreateSchema` | pravaha/registry/service.py:109-144 | version 1, active, unless the type exists |
| `Registry.SchemaRegistry.DeactivateOthers` | pravaha/registry/service.py:204-209 | the loop leaves only the given version active |
| `Registry.SchemaRegistry.RegisterVersion` | pravaha/registry/service.py:147-201 | the next version after the check, activated on request |
| `Registry.SchemaRegistry.SetVersionActive` | pravaha/registry/service.py:212-234 | activation moves the active version, deactivation clears it only if it was this one |
| `Windows.AssignSliding` | pravaha/processing/windows.py:99-119 | strictly sorted and without repetition, precisely the aligned windows that hold the timestamp; size divided by slide of them when that is whole |
| `Windows.AssignTumbling` | pravaha/processing/windows.py:73-85 | an aligned window that holds the timestamp |
| `Windows.TumblingUnique` | pravaha/processing/windows.py:73-85 | it is the only one |
| `Windows.MergeIffUnion` | pravaha/processing/windows.py:150-160 | sessions merge exactly when they share a group and their union is one interval, which is the result |
| `Windows.MergedSize` | pravaha/processing/windows.py:157-159 | the merged session records its length in whole seconds |
| `Windows.MergeSymmetric` | pravaha/processing/windows.py:151-160 | merging is commutative |
| `Windows.MergeAssociative` | pravaha/processing/windows.py:154-159 | where neighbours merge, all three do, in either order, with one result |
| `Windows.EventsMergeIff` | pravaha/processing/windows.py:137-160 | two events share a session exactly when they are at most the gap apart |
| `Aggregators.AnyPlan` | pravaha/processing/primitives.py:104-231 | for all six aggregators, any split or interleaving over any number of workers and any tree of merges gives the state of one pass |
| `Aggregators.FoldAppend` | pravaha/processing/primitives.py:114-231 | one pass over a concatenation is the merge of the two passes |
| `Aggregators.FoldPermutes` | pravaha/processing/primitives.py:110-225 | the order of events does not matter |
| `Aggregators.PlanFinalizesAlike` | pravaha/processing/primitives.py:117-240 | finalised value and count agree, and for top-N the sequence of scores, whatever the order of ties |
| `Aggregators.TopScoresAgree` | pravaha/processing/primitives.py:233-240 | any two lists that sort the scores downwards and cut after n show the same scores |
| `Aggregators.TopExists` | pravaha/processing/primitives.py:233-240 | such a list exists; its scores dominate all omitted ones |
| `Aggregators.ScoresAreSums` | pravaha/processing/primitives.py:215-225 | top-N holds exactly the keys mentioned, each with its total weight |
| `Aggregators.MembersAreMentioned` | pravaha/processing/primitives.py:191-197 | distinct-count holds exactly the members mentioned |
| `Aggregators.RateCounts` | pravaha/processing/primitives.py:163-168 | rate holds the number of matching positions and of all, count the number of all |
| `Aggregators.SumIsTotal` | pravaha/processing/primitives.py:130-135 | sum and average hold the total and the count of the numbers |
| `Aggregators.FinalMeans` | pravaha/processing/primitives.py:117-240 | the finalised value and count of all six in terms of the stream: numbers of events, totals, averages and rates as quotients, different members, keys and their weight |
| `Aggregators.Process` | pravaha/processing/primitives.py:110-225 | a worker's loop is the fold |
| `Aggregators.MergeCounts` | pravaha/processing/primitives.py:227-231 | the merge loop adds the scores pointwise |
| `Grounding.RefsIff` | pravaha/ai/investigator.py:231-248 | the walk finds exactly the references that some path through the payload leads to |
| `Grounding.Walk` | pravaha/ai/investigator.py:231-248 | the recursive walk adds exactly those references |
| `Grounding.RunCollects` | pravaha/ai/investigator.py:172-184 | in every run each collected reference occurs in the output of an executed tool; failed and disallowed calls contribute none |
| `Grounding.CallBounds` | pravaha/ai/investigator.py:139-173 | provider calls are at most the budget plus three, tool calls at most the budget less one plus the largest response |
| `Grounding.BoundIsReached` | pravaha/ai/investigator.py:160-173 | that bound is reached for every budget and response size |
| `Grounding.BudgetKeptIff` | pravaha/ai/investigator.py:160-173 | tool calls stay within the budget in every run if and only if no response asks for more than one (or the budget allows none) |
| `Grounding.RunEnds` | pravaha/ai/investigator.py:140-211 | every run concludes with the first reply that holds a conclusion and no tool calls, and with what it says, or fails with the first provider error, or goes on until the turns run out |
| `Grounding.SplitPartitions` | pravaha/ai/investigator.py:290-292 | kept and hallucinated references partition the model's string references, repetitions included |
| `Grounding.HypothesesAligned` | pravaha/ai/investigator.py:270-288 | one evidence record per hypothesis object, in order, partitioning that hypothesis's own references |
| `Grounding.HypothesesFailIff` | pravaha/ai/investigator.py:272-288 | reading the hypotheses fails exactly when one of them has references, supporting or contradicting points that cannot be iterated |
| `Grounding.ConclusionHolds` | pravaha/ai/investigator.py:269-322 | kept references are known ones, hallucinated ones are not, confidence is in [0, 1] and at most 0.2 without grounded evidence for a named cause |
| `Grounding.ConclusionMeans` | pravaha/ai/investigator.py:269-322 | the checked conclusion in terms of what the model wrote: its references partitioned, one record per hypothesis or a single empty one, the confidence given brought into its bounds |
| `Grounding.RootCauseMeans` | pravaha/ai/investigator.py:295 | the root cause is the one written, or "inconclusive", cut after 300 characters |
| `Grounding.ReadFailsIff` | pravaha/ai/investigator.py:269-322 | reading a conclusion fails exactly when a list the checks iterate over cannot be iterated |
| `Grounding.RunIsGrounded` | pravaha/ai/investigator.py:131-322 | over whole runs every reference kept in the conclusion or a hypothesis occurs in the output of an allow-listed tool executed in that run |
| `Grounding.RunTools` | pravaha/ai/investigator.py:172-197 | the inner loop executes the calls of a response in order |
| `Grounding.AgentLoop` | pravaha/ai/investigator.py:139-211 | the loop is the run the theorems speak of |

## Left out

- Consumer: offsets of a partition are contiguous; task cancellation inside a batch, consumer-group rebalances, pause and latency statistics are not modelled, and a fetch that raises is taken not to advance the positions.
- ConsumerLoop.StreamConsumer.GatherBatch: the method takes the tasks of a batch one after the other, in any order, and so does `RunOnce`; their interleavings are in the transition system, over which the theorems are stated and `ConsumerProgress` shows that they all end.
- Analytics: handling an event and finalising a minute are single steps, so a handler and a flush interleaved on one minute, and a handler that fails half way through its Redis updates, are outside the model; so are TTL expiry, the late counters stored with a row, window records, the rounding of derived values and the `numerator` kept beside a ratio. A row replaces the minute's row as a whole: its names depend on the catalog alone.
- Analytics runs assume that an event is classified within the idle advance of its observation; the code takes the two clock readings in direct succession.
- The metric catalog is a parameter; the exact list of definitions is not reproduced.
- Numbers are exact reals and integers where the source has floats; `sqrt`, rounding, confidence scores and the other detectors are not modelled.
- The `/top` endpoint's final sort and cut of the summed scores is not modelled.
- Murmur2.RunTail: the tail bytes are xored together before they reach the state, which gives the same word.
- Validator: values of the wrong JSON type for keys, types, lists and configurations, and the parsing of window lengths, are not modelled; the text of messages is not either.
- Versions: requests are serialised; the denormalised node and edge tables, audit records and time stamps are not modelled, and version rows are named by number, which the unique constraint allows.
- Replay: ids enter only through their order; the content of republished envelopes, the estimate and the target topic are not modelled.
- Rollup: runs are serialised and the database session is in UTC; row ids and run stamps are not part of a row.
- Schemas: nested schemas, other keywords, root types other than object, and documents that the metaschema rejects are not modelled.
- Grounding: message contents, token accounting, stored tool calls and the free-text fields of a conclusion are not modelled.
- Session windows: state handling that merges sessions over a stream is not part of the source.
- Alerts, data quality, lag sampling, rate limiting, authentication, the web application and the second batch job are not modelled: they would only add easier members or depend on library numerics.
