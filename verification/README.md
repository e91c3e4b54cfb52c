# Verification of an ns-3 O-RAN test bed with an AI control channel

The project models, in Dafny, the algorithms and protocols on which this repository's results
depend, and proves what they promise: the tools that build and check the simulator, the scenarios
that disturb it, and the control channel and the logs between it and an external AI.
`dafny verify dfyconfig.toml` checks everything.

| part | files |
|---|---|
| The search for attribute paths: exactly the simple paths of a cyclic type graph | `TypeGraph`, `PathSearch`, `PathSearchTheorems`, `GraphEdges`, `UniquePaths` |
| The parallel test dispatcher: conservation, shutdown, deadlock, termination, accounting | `Dispatcher`, `DispatcherInvariant`, `DispatcherTheorems`, `DispatcherHonesty`, `DispatcherLedger`, `TestRun` |
| The growing CSV log and its exporter: meaning preserved, every row exported once | `CsvLog`, `CsvCells`, `CsvExport`, `ExportLedger` |
| The style fixers and the patch parser: fixpoints and round trips | `TextLines`, `StyleFixers`, `StyleTheorems`, `StyleMeaning`, `Decimals`, `PatchSet`, `PatchTheorems`, `PatchMeaning` |
| Online statistics and the scheduler benchmark | `Statistics`, `Benchmark` |
| Fault injectors and MCS phases: every run of an event queue | `Injectors`, `McsPhases` |
| Framing, broadcast under a lock, and the field extractor | `Framing`, `Broadcast`, `BroadcastEffects`, `Relay`, `FieldExtractor`, `ExtractorTheorems`, `ExtractorAgreement`, `FlowTarget` |
| The timeline index | `Timelines` |

Each part has the same plan. The code that updates state is a class or a method with the fields
and loops of the original; its contract ties it to a specification on values. A protocol of
several threads or processes is a step relation, each method is one or more of its steps, and
the theorems are about every run of it. What a specification means is proved in terms of
the data alone, so that no theorem rests on a definition that only it uses. Times are whole seconds or abstract ticks.

Some promises turned out to be false in general. In each of these cases the code is modelled as
it is, a lemma gives an input on which it fails, and an if-and-only-if says when it holds:

| promise | holds exactly when | fails on |
|---|---|---|
| The log of a search is reduced to its unique items | `UniquePaths.LoggedOnceWhen` | `UniquePaths.TwiceInTheLog` |
| The CSV file has its columns as header | `CsvLog.HeaderAfterCall` | `CsvLog.ADataRowBecomesTheHeader` |
| A rewrite of the CSV file keeps its rows | `CsvLog.GrowthKeepsRowsWhen` | `CsvLog.TheNextColumnLosesIt` |
| A patch set survives printing and parsing | `PatchTheorems.RoundTrip` | `PatchTheorems.ARemovedLineCanVanish` |
| Both tab passes see the same guards | `StyleTheorems.PassesAgreeWhen` | `StyleTheorems.AGuardCanAppear` |
| The string extractor agrees with a parse | `ExtractorAgreement.StringAgreesWhen` | `ExtractorAgreement.ANumberGivesTheNextKey` |
| The number extractor agrees with a parse | `ExtractorAgreement.UintAgreesWhen` | `ExtractorAgreement.AnAbsentKeyCanBeFound` |
| No overlapping range is dropped | `Timelines.CompleteWhen` | `Timelines.ARangeCanBeDropped` |
| No event of the interval is dropped | `Timelines.EventsCoveredWhen` | `Timelines.AnEventCanBeDropped` |
| The dispatcher never waits for ever | `DispatcherTheorems.NoDeadlock` | `DispatcherTheorems.PutEverything` |

The first one is about `Uniquefy` (ns-3-mmwave-oran/utils/print-introspected-doxygen.cc:408-429),
which is documented to modify its container in place and takes it by value; for the log of all
roots the condition is `UniquePaths.LoggedOnceFromRootsWhen`. The last one is met by a negative
`--jobs`, which starts no worker (ns-3-mmwave-oran/test.py:1417-1431).

## Model

| member | source | states |
|---|---|---|
| PathSearchTheorems.LogsExactlyTheSimplePaths | ns-3-mmwave-oran/utils/print-introspected-doxygen.cc:448-532 | for every type graph, cycles and parallel edges included, and every stack content: what the search logs corresponds one to one, in depth-first order and without repetition, to the simple paths out of the type that avoid the stack; each entry carries the end and the labels of its path |
| GraphEdges.EdgesWhen | ns-3-mmwave-oran/utils/print-introspected-doxygen.cc:456-531 | which edges the search follows, for every valid graph and in terms of the registry only: those of pointer attributes to another type than plain Object, of object vectors (name and "/[i]"), to children ("$" and the name of the child), and to the other side of recorded aggregations, in either direction |
| GraphEdges.EdgesCount | ns-3-mmwave-oran/utils/print-introspected-doxygen.cc:456-531 | how often: an edge occurs once for each attribute, each child and each recorded aggregation that gives it |
| GraphEdges.PathsAreSimplePaths | ns-3-mmwave-oran/utils/print-introspected-doxygen.cc:394-445 | after a search from an empty state, the paths of a type are exactly the texts of the simple paths from the root to it |
| GraphEdges.PathsToCount | ns-3-mmwave-oran/utils/print-introspected-doxygen.cc:394-406 | each path is returned as often as the log has an entry of this type with it |
| GraphEdges.RenderConcat | ns-3-mmwave-oran/utils/print-introspected-doxygen.cc:361-370 | the text of a path is that of its parts in order, each after a slash |
| PathSearchTheorems.FoundIffReachable | ns-3-mmwave-oran/utils/print-introspected-doxygen.cc:394-445 | from an empty state, a type is given a path if and only if it is reachable from the root by the edges that are followed |
| PathSearchTheorems.FoundIffReachableFromARoot | ns-3-mmwave-oran/utils/print-introspected-doxygen.cc:587-591 | the same for a log gathered from several roots, one after the other |
| UniquePaths.LoggedOnceWhen | ns-3-mmwave-oran/utils/print-introspected-doxygen.cc:408-445 | Gather does not make the log unique (the helper works on a copy): in a well-named registry, the log of a search holds no entry twice if and only if there are no two equal edges whose source a walk from the root reaches without visiting their target |
| UniquePaths.LoggedOnceFromRootsWhen | ns-3-mmwave-oran/utils/print-introspected-doxygen.cc:587-591 | the log gathered from all roots holds no entry twice if and only if no root reaches such edges and no two roots have simple paths with one end and the same parts |
| UniquePaths.SharedWhen | ns-3-mmwave-oran/utils/print-introspected-doxygen.cc:587-591 | two roots have a log entry in common if and only if they have such paths |
| UniquePaths.AggregatedTwice | ns-3-mmwave-oran/utils/print-introspected-doxygen.cc:506-531 | in every type graph, an aggregation of two types that is recorded twice puts an entry into the log of the first one twice |
| UniquePaths.TwiceInTheLog | ns-3-mmwave-oran/utils/print-introspected-doxygen.cc:566-568 | the input that the program itself builds: a node and its ICMP protocol, recorded twice |
| UniquePaths.TwiceMeansDoubled | ns-3-mmwave-oran/utils/print-introspected-doxygen.cc:448-532 | whenever an entry is logged twice, there are two such edges |
| UniquePaths.DoubledMeansTwice | ns-3-mmwave-oran/utils/print-introspected-doxygen.cc:448-532 | whenever there are two such edges, an entry is logged twice; names do not matter |
| UniquePaths.RenderInjective | ns-3-mmwave-oran/utils/print-introspected-doxygen.cc:361-370 | the text of a path determines its parts, vector marks included |
| UniquePaths.SameNameSameEdge | ns-3-mmwave-oran/utils/print-introspected-doxygen.cc:456-531 | in a well-named registry, edges of one type with the same name are equal, whichever of the three loops they come from |
| TypeGraph.Shorten | ns-3-mmwave-oran/utils/print-introspected-doxygen.cc:448-532 | every walk shortens to a simple path with the same ends that visits no other types; so refusing to re-enter a type loses no reachable type |
| PathSearchTheorems.LogsAlong | ns-3-mmwave-oran/utils/print-introspected-doxygen.cc:466-531 | after the first k edges of a type, the log holds exactly the simple paths that start with one of them |
| PathSearch.EnteringTakesRoom | ns-3-mmwave-oran/utils/print-introspected-doxygen.cc:448-464 | the termination measure: each type put on the stack leaves fewer registered types to enter |
| PathSearch.GatheredInTurn | ns-3-mmwave-oran/utils/print-introspected-doxygen.cc:455-531 | what a type contributes is its own entry, then its attributes, then its child types, then its aggregates, in that order |
| PathSearchTheorems.PathsToFound | ns-3-mmwave-oran/utils/print-introspected-doxygen.cc:394-406 | a type has a path in the result exactly when the log has an entry for it |
| PathSearch.StaticInformation.DoGather | ns-3-mmwave-oran/utils/print-introspected-doxygen.cc:448-532 | the recursive search with its two mutable stacks terminates, puts both stacks back, and appends exactly the specified entries to the log |
| PathSearch.StaticInformation.GatherAttributes | ns-3-mmwave-oran/utils/print-introspected-doxygen.cc:455-491 | the attribute loop: pointers (not to a plain Object) and object vectors are followed, others are not |
| PathSearch.StaticInformation.GatherChildren | ns-3-mmwave-oran/utils/print-introspected-doxygen.cc:492-505 | the loop over all registered types follows exactly the children |
| PathSearch.StaticInformation.GatherAggregates | ns-3-mmwave-oran/utils/print-introspected-doxygen.cc:506-531 | the loop over the recorded aggregations follows them in both directions; a self-aggregation leads to the type itself |
| PathSearch.StaticInformation.Gather | ns-3-mmwave-oran/utils/print-introspected-doxygen.cc:440-445 | a search leaves both stacks as they were and extends the log only |
| PathSearch.StaticInformation.GatherRoots | ns-3-mmwave-oran/utils/print-introspected-doxygen.cc:587-591 | one search per root object, each with empty stacks |
| PathSearch.StaticInformation.HasAlreadyBeenProcessed | ns-3-mmwave-oran/utils/print-introspected-doxygen.cc:380-391 | true exactly when the type is on the stack |
| PathSearch.StaticInformation.GetCurrentPath | ns-3-mmwave-oran/utils/print-introspected-doxygen.cc:361-370 | the path stack as text, each part after a slash |
| PathSearch.StaticInformation.RecordOutput | ns-3-mmwave-oran/utils/print-introspected-doxygen.cc:373-377 | one more log entry, with the current path |
| PathSearch.StaticInformation.Get | ns-3-mmwave-oran/utils/print-introspected-doxygen.cc:394-406 | the logged paths of one type, in order |
| PathSearch.StaticInformation.RecordAggregationInfo | ns-3-mmwave-oran/utils/print-introspected-doxygen.cc:329-348 | both names known: their types are recorded; otherwise the first unknown name is noted and nothing else changes |
| DispatcherTheorems.SafeShutdown | ns-3-mmwave-oran/test.py:988-1056 | over every run and wherever the interrupt falls: each dispatched job is in exactly one of input queue, worker, output queue and results; once a worker has returned, no test is queued any more; without an interrupt no test is handed back as a break |
| DispatcherTheorems.NoDeadlock | ns-3-mmwave-oran/test.py:1425-1431 | no run gets stuck before its end if and only if there is a worker or there are no jobs |
| DispatcherTheorems.StuckMeansFinished | ns-3-mmwave-oran/test.py:1713-1754 | a state of the invariant in which nothing but an interrupt can happen has all results collected and all threads joined |
| DispatcherTheorems.PutEverything | ns-3-mmwave-oran/test.py:1698-1721 | with jobs and no worker, the main thread waits for a result for ever |
| DispatcherTheorems.EveryRunEnds | ns-3-mmwave-oran/test.py:988-1056 | no schedule, outcome or interrupt makes a run longer than 5 steps per job, 6 per worker and 1 |
| DispatcherTheorems.FinalAccounting | ns-3-mmwave-oran/test.py:1698-1754 | at the end of every run: each test collected exactly once, each worker returned upon a break job of its own, the outcomes and the interrupted tests add up to the jobs, and the exit status is 0 exactly when every test passed or was skipped |
| DispatcherLedger.CountersCountSteps | ns-3-mmwave-oran/test.py:1002-1056 | in terms of the steps taken, at the end of every run: the counters are the numbers of tests put as skipped and of commands that returned 0, 1, 2 and anything else; a test handed back is in none of them, whatever its mark |
| DispatcherLedger.ExitStatusSays | ns-3-mmwave-oran/test.py:1943-1946 | the exit status is 0 if and only if no test was handed back and every command that was run returned 0 |
| DispatcherLedger.NothingStartsAfterAnInterrupt | ns-3-mmwave-oran/test.py:1002-1020 | once an interrupt has come, no test is started and none is skipped |
| DispatcherLedger.TakenInOrder | ns-3-mmwave-oran/test.py:989-990 | workers take the jobs in the order in which they were put |
| DispatcherLedger.CollectedInOrder | ns-3-mmwave-oran/test.py:1720-1721 | results are collected in the order in which they were handed in |
| DispatcherLedger.ReportedOutcome | ns-3-mmwave-oran/test.py:1722-1754 | what the fields of a handed-in job are read as is what happened to it: a break before a skip mark, a skip mark before a return code |
| DispatcherLedger.EnvironmentIsFree | ns-3-mmwave-oran/test.py:573-576 | in every state an interrupt may come, unless one has, and a command may return anything |
| DispatcherTheorems.OutcomesAddUp | ns-3-mmwave-oran/test.py:1943-1946 | the exit status tells exactly whether every test passed or was skipped |
| DispatcherTheorems.StoppedOnce | ns-3-mmwave-oran/test.py:1698-1701 | each worker consumes one break job, and no two the same one |
| DispatcherTheorems.CollectedOnce | ns-3-mmwave-oran/test.py:1720-1723 | the results are the dispatched tests, each exactly once |
| DispatcherTheorems.FinishedState | ns-3-mmwave-oran/test.py:1859-1860 | when all results are in and all threads joined, both queues are empty and every worker has returned upon a break job |
| DispatcherTheorems.TallyCounts | ns-3-mmwave-oran/test.py:1713-1754 | each counter is the number of results with its outcome, and with the interrupted ones they make up all results |
| DispatcherTheorems.RunInv | ns-3-mmwave-oran/test.py:988-1056 | the invariant of the dispatcher holds in every reachable state |
| DispatcherHonesty.OutcomesAreHonest | ns-3-mmwave-oran/test.py:988-1056 | at the end of every run: a test counted as passed, failed, valgrind error or crashed was run and returned that code; a skipped one was marked so and not run; an interrupted one was not run, and there was an interrupt |
| DispatcherHonesty.NoJobRunsTwice | ns-3-mmwave-oran/test.py:1020-1056 | whenever a worker finishes a job, that job had not been run to the end before |
| DispatcherHonesty.StepHonest | ns-3-mmwave-oran/test.py:1002-1056 | every step keeps the agreement between the fields of reported jobs and what happened to them |
| DispatcherInvariant.StepInv | ns-3-mmwave-oran/test.py:988-1056 | every step of main thread, workers and signal handler keeps conservation, queue order, the state of every worker and job, the counts and the tally |
| DispatcherInvariant.HeldExclusively | ns-3-mmwave-oran/test.py:990-1013 | a job in the hands of a worker is with no other worker and in no result, so its fields are written without a race |
| DispatcherInvariant.AppendInv | ns-3-mmwave-oran/test.py:1450-1484 | putting a job on the input queue keeps the invariant |
| DispatcherInvariant.TakeInv | ns-3-mmwave-oran/test.py:989-990 | a worker that takes the head of the queue keeps the invariant |
| DispatcherInvariant.BecomeInv | ns-3-mmwave-oran/test.py:995-996 | a worker that returns upon a break job, or starts a test, keeps the invariant |
| DispatcherInvariant.ReportInv | ns-3-mmwave-oran/test.py:1002-1056 | a worker that writes its job and hands it in (run, skipped, or turned into a break after an interrupt) keeps the invariant |
| DispatcherInvariant.GatherInv | ns-3-mmwave-oran/test.py:1713-1754 | collecting a result keeps the invariant, the tally included |
| DispatcherInvariant.InterruptInv | ns-3-mmwave-oran/test.py:573-576 | the interrupt flag may rise in any state |
| TestRun.TestRun.PutJob | ns-3-mmwave-oran/test.py:1450-1484 | one dispatch of a test or a break job is exactly the protocol step |
| TestRun.TestRun.TakeJob | ns-3-mmwave-oran/test.py:989-990 | taking a job is exactly the protocol step |
| TestRun.TestRun.WorkOn | ns-3-mmwave-oran/test.py:995-1020 | the checks of the worker loop, in their order (break, interrupt, skip, run), are an enabled protocol step; a skipped job is put in a step of its own |
| TestRun.TestRun.PutSkippedJob | ns-3-mmwave-oran/test.py:1014-1015 | putting a job that was found to be skipped, also when an interrupt has come since, is exactly the protocol step |
| TestRun.TestRun.FinishJob | ns-3-mmwave-oran/test.py:1026-1056 | the end of a job is exactly the protocol step |
| TestRun.TestRun.SigintHook | ns-3-mmwave-oran/test.py:573-576 | the handler raises the flag and changes nothing else |
| TestRun.TestRun.CollectResult | ns-3-mmwave-oran/test.py:1720-1754 | one turn of the collecting loop is exactly the protocol step, counters included |
| TestRun.TestRun.JoinThread | ns-3-mmwave-oran/test.py:1859-1860 | joining the next thread, once it has returned, is exactly the protocol step |
| TestRun.TestRun.Summary | ns-3-mmwave-oran/test.py:1943-1946 | the exit status of the protocol |
| CsvExport.ExactlyOnce | ai-dashboard/csv_to_influxdb.py:44-91 | for every interleaving of server calls (down to single lines and buffer flushes, truncation and rewriting included) with exporter visits, and every outcome of the database writes: the exported rows are exactly the first watermark-many rows of the log, in order |
| CsvExport.ExportsOnlyGrow | ai-dashboard/csv_to_influxdb.py:51-88 | later exports only add to earlier ones, and the watermark never goes back, also across rewrites |
| CsvExport.CatchesUp | ai-dashboard/csv_to_influxdb.py:46-88 | between calls, one visit with a working database exports every row of the log |
| CsvExport.NeverRefused | ai-dashboard/csv_to_influxdb.py:46-49 | over every run that starts from a file with a header and no longer row, the exporter never meets a file it cannot read, other than one without a line |
| CsvExport.CallsArrive | ai_relay_server.py:102-140 | the line-by-line steps of a call arrive at the file that the call is specified to produce |
| CsvExport.SeesAPrefix | ai-dashboard/csv_to_influxdb.py:46-56 | whatever part of the file the exporter sees, also in mid-rewrite, says the first rows of the log |
| CsvExport.StepOk | ai_relay_server.py:116-140 | every step of either process keeps the invariant, and neither log nor watermark goes back |
| CsvExport.RunOk | ai_relay_server.py:102-140 | the same over every run, from any state of the invariant |
| CsvExport.CsvHandler.ProcessGnbCsv | ai-dashboard/csv_to_influxdb.py:44-91 | one visit: if the file can be read and the write succeeds, exactly the rows beyond the watermark are written and the watermark is the number of rows; otherwise nothing changes |
| ExportLedger.FailedWriteChangesNothing | ai-dashboard/csv_to_influxdb.py:85-91 | a visit whose write fails leaves the whole system as it was |
| ExportLedger.ExportedIsSent | ai-dashboard/csv_to_influxdb.py:51-87 | over every run, what counts as exported is what the successful writes sent, one after the other: each time, what was seen beyond the watermark |
| ExportLedger.SentExactlyOnce | ai-dashboard/csv_to_influxdb.py:44-91 | over every run, the rows sent by the writes that succeeded are the first watermark-many rows of the log |
| ExportLedger.CallCompletes | ai_relay_server.py:102-140 | every call can be completed by the steps of the server: the file is then the specified one and all of it visible, the log has the one row of the call, and one visit with a working database exports everything |
| ExportLedger.VisitsAnytime | ai-dashboard/csv_to_influxdb.py:44-47 | in every state the exporter may visit, and any more lines may have left the buffer before |
| CsvExport.PointsFrom | ai-dashboard/csv_to_influxdb.py:56-84 | one point per new row, in order |
| CsvLog.CallAddsOneRow | ai_relay_server.py:102-140 | schema growth preserves meaning: however many columns a call introduces, the header on disk is the server's column list with the old columns first and none twice, every earlier row says what it said before, and exactly one row is added, which says what the call said |
| CsvCells.RowsSayTheirCells | ai_relay_server.py:127-134 | what a row says: each cell that is not empty, under the column it stands in, and nothing else |
| CsvCells.CellAt | ai_relay_server.py:127-129 | a column is read at the last place where the header has its name; beyond the end of a line it is empty |
| CsvCells.WrittenCells | ai_relay_server.py:131-139 | a row is written with one cell for each column, in order, and empty where it has none |
| CsvLog.BaseLine | ai_relay_server.py:109-114 | the four base columns hold time, meid, cell and format, in this order |
| CsvCells.SameColumnWhen | ai_relay_server.py:52-55 | two measurements share a column if and only if their names differ only in dots, spaces and underscores |
| CsvCells.LabelKeepsTheRest | ai_relay_server.py:52-55 | a label has no dot or space and differs from the name only there |
| CsvCells.MissingParts | ai_relay_server.py:117-118 | a measurement without name, id or value |
| CsvLog.NothingIsLost | ai_relay_server.py:109-123 | the new row, column by column, whatever the file: a column is kept if and only if the file has it or the call measures it, so every measurement is kept; nothing is lost if and only if every base column is kept |
| CsvLog.LastValueWins | ai_relay_server.py:116-120 | each measured column holds the value measured last, and every other column what the row held before |
| CsvLog.HeaderAfterCall | ai_relay_server.py:116-140 | for every file: after a call the header on disk is the list of columns if and only if the call brings a column the server does not know, or the first line already was that list; in an empty file the first line is the row of the call |
| CsvLog.GrowthRestrictsRows | ai_relay_server.py:122-135 | for every file: a rewrite keeps of each row exactly the cells in columns the server knows, and takes the first line for the header |
| CsvLog.GrowthKeepsRowsWhen | ai_relay_server.py:122-135 | for every file: a rewrite keeps all rows if and only if the server knows every column that they fill |
| CsvLog.ADataRowBecomesTheHeader | ai_relay_server.py:62-73 | an empty file and two calls, each with one measurement in a known column: the first row stands where the header should |
| CsvLog.TheNextColumnLosesIt | ai_relay_server.py:122-135 | the next new column then leaves nothing of either row |
| CsvLog.GrowthKeepsRows | ai_relay_server.py:123-135 | reading the file back, truncating it and rewriting it with one more column changes nothing that its rows say |
| CsvLog.RewrittenRowSaysTheSame | ai_relay_server.py:128-136 | a row that is read under the old header and written under the new one says the same |
| CsvLog.WriteThenRead | ai_relay_server.py:139-140 | a row written under a header reads back as its non-empty cells in the columns of the header, also when a column name repeats |
| CsvLog.AppendRow | ai_relay_server.py:139-140 | appending adds one row and leaves the others as they were |
| CsvLog.ColumnsOnlyGrow | ai_relay_server.py:122-123 | a call keeps all columns in their order, adds exactly the columns its measurements name, and introduces no duplicate |
| CsvLog.GnbLog.InitCsvFiles | ai_relay_server.py:57-73 | the file starts with the server's columns as header if and only if it was absent or had a header; an absent file is created with one |
| CsvLog.GnbLog.AddColumn | ai_relay_server.py:122-137 | the close, read, truncate and rewrite loop does to the file what the specification of growth says |
| CsvLog.GnbLog.WriteGnbCsv | ai_relay_server.py:102-140 | one whole call, with any number of measurements and new columns, does what its specification says; without a writer it does nothing |
| CsvLog.GnbLog.ReadExisting | ai_relay_server.py:125-129 | all rows of the file, keyed by its header |
| StyleTheorems.JointFixpoint | ns-3-mmwave-oran/utils/check-style-clang-format.py:334-342 | for every file, fixing trailing whitespace and then tabs leaves a file that both checks report clean and neither fix changes |
| StyleTheorems.TabFixIsFinal | ns-3-mmwave-oran/utils/check-style-clang-format.py:595-639 | for every file, after the tab fix the check finds no tab and a second fix changes nothing; lines inside guards are as they were |
| StyleMeaning.EnabledWhen | ns-3-mmwave-oran/utils/check-style-clang-format.py:605-618 | a line is enabled if and only if every "off" guard before it is followed by an "on" guard before it |
| StyleMeaning.CheckedWhen | ns-3-mmwave-oran/utils/check-style-clang-format.py:613-622 | a line is checked if and only if it is a guard or outside of guards |
| StyleMeaning.TabsReportedWhen | ns-3-mmwave-oran/utils/check-style-clang-format.py:610-630 | a file is reported if and only if a guard, or a line outside of guards, holds a tab |
| StyleMeaning.FixedFile | ns-3-mmwave-oran/utils/check-style-clang-format.py:610-632 | the fix leaves all other lines as they are, and of these it removes the tabs and keeps text and columns |
| StyleMeaning.TrimmedFile | ns-3-mmwave-oran/utils/check-style-clang-format.py:519-538 | the whitespace fix keeps the number of lines, and each line up to its last character that is no whitespace, so with its indentation, plus a newline |
| StyleMeaning.TrailingReportedWhen | ns-3-mmwave-oran/utils/check-style-clang-format.py:523-533 | a file is reported if and only if some line has whitespace before its newline, or no newline |
| StyleMeaning.AsciiWhitespace | ns-3-mmwave-oran/utils/check-style-clang-format.py:524-524 | which ASCII characters count as whitespace |
| StyleTheorems.EnabledBefore | ns-3-mmwave-oran/utils/check-style-clang-format.py:605-622 | a line that is enabled in the second pass was enabled in the first, although the fix may create guards |
| StyleTheorems.PassesAgreeWhen | ns-3-mmwave-oran/utils/check-style-clang-format.py:610-632 | for every list of lines, the passes before and after the fix agree on what is enabled if and only if no line outside a guard becomes an "off" guard by the fix |
| StyleTheorems.AGuardCanAppear | ns-3-mmwave-oran/utils/check-style-clang-format.py:610-632 | an input on which they disagree: a tab in a comment expands to a guard |
| StyleTheorems.NoTabsLeft | ns-3-mmwave-oran/utils/check-style-clang-format.py:604-632 | the same as a statement about lists of lines, for any lines |
| StyleTheorems.FixedLine | ns-3-mmwave-oran/utils/check-style-clang-format.py:610-632 | a line that was a guard stays the same guard; a checked line loses its tabs, an unchecked one is untouched |
| StyleTheorems.ExpandKeepsGuards | ns-3-mmwave-oran/utils/check-style-clang-format.py:613-618 | tabs around a guard do not decide whether it is one |
| StyleTheorems.TabFixKeepsTrim | ns-3-mmwave-oran/utils/check-style-clang-format.py:524-526 | fixing the tabs of a trimmed line leaves it trimmed |
| StyleTheorems.TrimIsFinal | ns-3-mmwave-oran/utils/check-style-clang-format.py:507-540 | the whitespace fix leaves nothing to report, and the check reports a file exactly when the fix would change it |
| StyleTheorems.ExpandKeepsColumns | ns-3-mmwave-oran/utils/check-style-clang-format.py:632-632 | expanding tabs with stops every 4 columns moves nothing: text ends at the same column |
| StyleTheorems.ExpandKeepsText | ns-3-mmwave-oran/utils/check-style-clang-format.py:632-632 | expanding tabs changes nothing but blanks |
| StyleTheorems.ExpandRemovesTabs | ns-3-mmwave-oran/utils/check-style-clang-format.py:632-632 | no tab is left, and a line without tabs is unchanged |
| StyleTheorems.OneTab | ns-3-mmwave-oran/utils/check-style-clang-format.py:632-632 | a single tab becomes spaces up to the next stop |
| StyleFixers.SourceFile.CheckTabs | ns-3-mmwave-oran/utils/check-style-clang-format.py:595-639 | reports tabs in checked lines exactly when there are some, also when it stops at the first; fixes the whole file or leaves it alone |
| StyleFixers.SourceFile.CheckTrailingWhitespace | ns-3-mmwave-oran/utils/check-style-clang-format.py:507-540 | reports trailing whitespace or a missing final newline exactly when there is some; fixes the whole file or leaves it alone |
| TextLines.ReadThenWrite | ns-3-mmwave-oran/utils/check-style-clang-format.py:519-538 | reading a text into lines and writing them gives the text back |
| TextLines.WriteThenRead | ns-3-mmwave-oran/utils/check-style-clang-format.py:536-538 | lines that are written are read back as the same lines |
| TextLines.StripUnique | ns-3-mmwave-oran/utils/check-style-clang-format.py:613-613 | stripping gives the one core with whitespace on both sides |
| PatchTheorems.RoundTrip | ns-3-mmwave-oran/utils/check-style.py:356-411 | parsing what was printed gives the same patches if and only if no removed line starts with "-- " and no added line with "++ " |
| PatchTheorems.ARemovedLineCanVanish | ns-3-mmwave-oran/utils/check-style.py:214-225 | a patch set on which it fails |
| PatchTheorems.RereadingIsStable | ns-3-mmwave-oran/utils/check-style.py:367-411 | whatever the parser accepts, printing and parsing it again gives the same patches |
| PatchMeaning.ParsedWhen | ns-3-mmwave-oran/utils/check-style.py:367-411 | a list of lines is parsed without an error if and only if each line is of a known kind and comes after what it needs: a new file name or chunk after an old file name, and content after a chunk header |
| PatchMeaning.ContentLineWhen | ns-3-mmwave-oran/utils/check-style.py:371-409 | exactly which lines are read as content, and as what |
| PatchMeaning.SrcFileWhen | ns-3-mmwave-oran/utils/check-style.py:368-382 | exactly which lines are read as an old file name, and as which |
| PatchMeaning.DstFileWhen | ns-3-mmwave-oran/utils/check-style.py:369-386 | exactly which lines are read as a new file name, and as which |
| PatchMeaning.HeaderRecognised | ns-3-mmwave-oran/utils/check-style.py:370-391 | every chunk header, whatever follows it on the line, is read with its first and third number |
| PatchMeaning.OnlyHeadersRecognised | ns-3-mmwave-oran/utils/check-style.py:370-391 | nothing else is |
| PatchMeaning.PrintedHeader | ns-3-mmwave-oran/utils/check-style.py:295-304 | a printed chunk header holds, in this order, the source position, the number of "-" and blank lines that follow, the destination position, and the number of "+" and blank lines |
| PatchMeaning.PrintedLines | ns-3-mmwave-oran/utils/check-style.py:214-225 | each line is printed in order as its mark, its text and a newline |
| PatchMeaning.AStrayLine | ns-3-mmwave-oran/utils/check-style.py:389-409 | content after the header of another file goes to the chunk started last |
| PatchMeaning.BaseTen | ns-3-mmwave-oran/utils/check-style.py:301-302 | numbers are in base ten |
| PatchTheorems.PrintedCountsAreRight | ns-3-mmwave-oran/utils/check-style.py:295-305 | the two counts in a printed chunk header are the numbers of lines that follow with the marks of that side |
| PatchTheorems.LengthsAreCounts | ns-3-mmwave-oran/utils/check-style.py:263-294 | source and destination length are the numbers of printed lines with their marks |
| PatchTheorems.ContentRecognised | ns-3-mmwave-oran/utils/check-style.py:367-410 | a printed line is read back as itself exactly when it does not look like a file header; otherwise it is not read as content at all |
| PatchTheorems.ChunkHeaderRecognised | ns-3-mmwave-oran/utils/check-style.py:301-302 | a printed chunk header is recognised, with its two positions in decimal |
| PatchTheorems.ParsePatches | ns-3-mmwave-oran/utils/check-style.py:356-411 | clean patches are read back behind any that were read before |
| PatchTheorems.ParseCounts | ns-3-mmwave-oran/utils/check-style.py:367-411 | the parser keeps one chunk line per content line it reads |
| PatchTheorems.ContentOfPatches | ns-3-mmwave-oran/utils/check-style.py:214-227 | a printed patch set has as many content lines as it has chunk lines exactly when it is clean |
| PatchTheorems.ParseKeeps | ns-3-mmwave-oran/utils/check-style.py:367-411 | the parser produces only lines that can be printed and read back |
| PatchTheorems.ReadContentIsClean | ns-3-mmwave-oran/utils/check-style.py:368-373 | no line that is read as content looks like a file header |
| PatchSet.ParsePatchset | ns-3-mmwave-oran/utils/check-style.py:367-411 | the loop with its current patch and current chunk; a content line goes to the chunk started last, even after a new file header, and anything unexpected is an error |
| PatchSet.AddLineAtCurrent | ns-3-mmwave-oran/utils/check-style.py:392-409 | adding to the current chunk object is adding to the last chunk of the last patch that has one |
| Decimals.NumberOfDecimal | ns-3-mmwave-oran/utils/check-style.py:301-302 | a position printed in decimal reads back as itself |
| Statistics.Log | ns-3-mmwave-oran/utils/bench-scheduler.cc:332-381 | with at least two runs, each of the six averages is the mean of its column and each second moment the sum of squared deviations from that mean, so not negative; with fewer, nothing is logged |
| Statistics.WelfordStep | ns-3-mmwave-oran/utils/bench-scheduler.cc:358-362 | one step of the recurrence takes mean and deviation of the samples so far to those of one more |
| Statistics.AccumulateStep | ns-3-mmwave-oran/utils/bench-scheduler.cc:346-362 | seeding the average with the first sample makes the first step harmless; every step keeps the meaning of both fields |
| Statistics.DeviationMoved | ns-3-mmwave-oran/utils/bench-scheduler.cc:358-362 | how the sum of squared deviations changes with its reference point |
| Statistics.AccumulateAll | ns-3-mmwave-oran/utils/bench-scheduler.cc:364-369 | all six fields take their own step |
| Statistics.Accumulate | ns-3-mmwave-oran/utils/bench-scheduler.cc:358-362 | one step of one field, in the order of the four assignments |
| Benchmark.Bench.Run | ns-3-mmwave-oran/utils/bench-scheduler.cc:133-161 | whatever the delays: the population is kept up, exactly the given total of events is counted, one more stops the simulator, and the clock never goes back; without a population nothing is counted |
| Benchmark.Bench.Cb | ns-3-mmwave-oran/utils/bench-scheduler.cc:163-176 | an event either stops the simulator or schedules one successor and is counted |
| Benchmark.Bench.Schedule | ns-3-mmwave-oran/utils/bench-scheduler.cc:144-145 | one more pending event, after the next delay of the stream |
| Injectors.InjectorsNeverCompound | ns-3-mmwave-oran/scratch/our-multiple.cc:127-207 | over every run and every random draw: at most one UE has its noise figure raised (by 30), at most one application the spike rate, at most one gNB its power raised (by 10); an injector that fires finds its devices at base level; each keeps exactly one firing pending, and what is raised has its restore pending at least 10 s before that |
| Injectors.RaisedInNumbers | ns-3-mmwave-oran/scratch/our-multiple.cc:127-207 | the same in numbers: a noise figure raised by 30, an application at 500 Mbps instead of 50, a power raised by 10 |
| Injectors.FiringsOfARun | ns-3-mmwave-oran/scratch/our-multiple.cc:127-207 | every firing of every run: the next one of its kind is 15 to 29, 20 to 39 or 25 to 49 seconds later, and the device drawn is restored to its base level after 5 seconds |
| Injectors.EveryDelayIsDrawn | ns-3-mmwave-oran/scratch/our-multiple.cc:149-150 | every one of these delays can be drawn |
| Injectors.FirstFirings | ns-3-mmwave-oran/scratch/our-multiple.cc:363-366 | the first firings at 10, 15 and 20 seconds |
| Injectors.NoDeviceNoFiring | ns-3-mmwave-oran/scratch/our-multiple.cc:129-129 | an injector without any device never fires again |
| Injectors.RestoreDevice | ns-3-mmwave-oran/scratch/our-multiple.cc:143-146 | the delayed restore of each kind |
| Injectors.StepInv | ns-3-mmwave-oran/scratch/our-multiple.cc:127-207 | every firing and every restore keeps the invariant of all three injectors |
| Injectors.OwnFire | ns-3-mmwave-oran/scratch/our-multiple.cc:127-207 | whoever fires at base level schedules a restore to exactly the base value |
| Injectors.OwnRestore | ns-3-mmwave-oran/scratch/our-multiple.cc:143-146 | a restore puts its device back to base level |
| Injectors.NextEventKnown | ns-3-mmwave-oran/scratch/our-multiple.cc:363-366 | the next event belongs to one injector and is the one its status predicts; in particular no injector fires while its device is raised |
| Injectors.ExecuteFrame | ns-3-mmwave-oran/scratch/our-multiple.cc:127-207 | an event of one injector touches no quantity of the other two |
| Injectors.InvMeansNoCompounding | ns-3-mmwave-oran/scratch/our-multiple.cc:127-207 | what the invariant says of the levels |
| Injectors.InvMeansLively | ns-3-mmwave-oran/scratch/our-multiple.cc:127-207 | what the invariant says of pending firings and restores |
| Injectors.RunInv | ns-3-mmwave-oran/scratch/our-multiple.cc:127-207 | the invariant over every run, and an injector with a device never ends |
| Injectors.Scenario.constructor | ns-3-mmwave-oran/scratch/our-multiple.cc:363-366 | the first firings at 10, 15 and 20 s |
| Injectors.Scenario.RandomBlockageEvent | ns-3-mmwave-oran/scratch/our-multiple.cc:127-151 | raises one UE, schedules its restore after 5 s and the next firing after 15 to 29 s; without UEs it ends, and a UE without the part is skipped |
| Injectors.Scenario.TrafficSpikeEvent | ns-3-mmwave-oran/scratch/our-multiple.cc:154-179 | the same for applications, 500 and 50 Mbps, 20 to 39 s |
| Injectors.Scenario.NeighborInterferenceEvent | ns-3-mmwave-oran/scratch/our-multiple.cc:182-207 | the same for gNBs, 25 to 49 s |
| McsPhases.PhasesAlternateInTime | ns-3-mmwave-oran/scratch/our-v5.cc:285-356 | over every run and whatever a controller writes: exactly one phase event is pending; low (4 to 9) and random (1 to 28) phases alternate strictly; a phase lasts 15 s if a valid value other than its target is read at its end and 10 s otherwise; so phase k starts within 5 + 10k and 5 + 15k |
| McsPhases.InterventionDecides | ns-3-mmwave-oran/scratch/our-v5.cc:303-318 | at the end of every phase of every run: it is extended to 15 seconds if and only if the scheduler can be reached and is not fixed to the target of the phase |
| McsPhases.PhaseSetsMcs | ns-3-mmwave-oran/scratch/our-v5.cc:285-303 | a phase that begins fixes the MCS to its target, is announced, and is checked 10 seconds later |
| McsPhases.EveryTargetIsDrawn | ns-3-mmwave-oran/scratch/our-v5.cc:288-288 | the targets that can be drawn are exactly 4 to 9, and 1 to 28 |
| McsPhases.ChangeThenRead | ns-3-mmwave-oran/scratch/our-v5.cc:236-283 | what was set is what is read, 255 for an adaptive MCS |
| McsPhases.ControllerIsFree | ns-3-mmwave-oran/scratch/our-v5.cc:303-305 | a controller may write anything at any moment |
| McsPhases.UntouchedPhaseIsShort | ns-3-mmwave-oran/scratch/our-v5.cc:303-318 | a phase in which no controller writes lasts 10 s: the value that is read is the one that was set |
| McsPhases.StepInv | ns-3-mmwave-oran/scratch/our-v5.cc:285-356 | every event and every write of a controller keeps the invariant |
| McsPhases.CheckInv | ns-3-mmwave-oran/scratch/our-v5.cc:303-318 | the end of a phase, with or without the extension |
| McsPhases.BegunInv | ns-3-mmwave-oran/scratch/our-v5.cc:285-302 | starting a phase when nothing is pending |
| McsPhases.Scenario.constructor | ns-3-mmwave-oran/scratch/our-v5.cc:741-741 | the first phase is a low one, at 5 s |
| McsPhases.Scenario.ScheduleNextMcsEvent | ns-3-mmwave-oran/scratch/our-v5.cc:285-356 | the start of a phase: target drawn in the range of its kind, scheduler set, one check pending in 10 s |
| McsPhases.Scenario.EndOfPhase | ns-3-mmwave-oran/scratch/our-v5.cc:303-318 | the end of a phase: an intervention is answered by 5 s more, otherwise the other phase starts at once |
| McsPhases.Scenario.ChangeMcs | ns-3-mmwave-oran/scratch/our-v5.cc:236-266 | a non-negative MCS is fixed, a negative one restores adaptation; a missing part means no effect |
| McsPhases.Scenario.GetCurrentMcs | ns-3-mmwave-oran/scratch/our-v5.cc:268-283 | the fixed MCS, 255 if adaptive, -1 if a part is missing |
| Framing.FramingRoundTrip | ai_dummy_server.py:784-806 | exactly the messages sent are received, with nothing left over, if and only if each has 1 to 2^20 bytes |
| Framing.DecodeEncoded | ai_dummy_server.py:784-806 | in general the messages up to the first empty or oversized one are received, and that one closes the connection |
| Framing.DecodeAhead | ai_dummy_server.py:784-806 | messages in front of any bytes are received up to the first undeliverable one; if there is none, the rest is read as if it stood alone |
| Framing.CutFrame | ai_dummy_server.py:802-805 | a frame that was cut behind its header and is followed by other bytes is received as one message made up of both, or not at all if there are too few |
| Framing.CutHeader | ai_dummy_server.py:793-805 | a frame that was cut inside its header: the length is read across the cut, and what follows is read by it |
| Framing.LengthAcross | ai_dummy_server.py:798-799 | if another header follows the cut, that length is the one of the cut message with its lower bytes replaced by the upper bytes of the other |
| Framing.CutUndeliverable | ai_dummy_server.py:799-801 | the header of an empty or oversized message ends the connection |
| Framing.CutStream | ai_dummy_server.py:405-412 | a stream cut at any byte delivers exactly the messages that are there in full, and says whether it was cut inside a body |
| Framing.HeaderIsBigEndian | ai_dummy_server.py:634-634 | the most significant byte of a length comes first |
| Framing.DecodeFrame | ai_dummy_server.py:634-634 | one frame in front of any bytes is taken off as one message |
| Framing.HeaderGivesLength | ai_dummy_server.py:634-634 | the four header bytes give the length back |
| Framing.Connection.HandleConn | ai_dummy_server.py:784-806 | the frame loop over any chunks decodes the concatenated stream |
| Framing.Connection.RecvAll | ai_dummy_server.py:405-412 | exactly n bytes off the stream however it is chunked, or nothing if the stream ends before |
| Framing.Connection.Recv | ai_dummy_server.py:408-410 | at most n bytes from the front of the stream; none only at its end |
| Broadcast.DeliversASegment | ai_relay_server.py:303-315 | total order: under any interleaving of the threads, the commands delivered to an xApp are a contiguous segment of one global order, from its registration to its removal; those delivered before a first failed send are the beginning of that segment |
| BroadcastEffects.RemovedForGood | ai_relay_server.py:426-428 | over every run: a removed address has no registration, all others are as before and in order, and from then on no command is on its way or delivered to the removed connection |
| BroadcastEffects.UnregisterEffect | ai_relay_server.py:426-428 | what removal changes, and that it changes nothing else |
| BroadcastEffects.RegisterEffect | ai_relay_server.py:343-344 | after registration the address has this connection and no other, and all other addresses are as before and in order |
| BroadcastEffects.NothingAfterRemoval | ai_relay_server.py:426-428 | the same from any state of the invariant |
| BroadcastEffects.DistinctRun | ai_relay_server.py:343-344 | no address is ever registered twice |
| BroadcastEffects.BroadcastEffect | ai_relay_server.py:303-308 | a command that finds registered xApps is the newest in the order and is owed to each of them in turn |
| BroadcastEffects.ThreadsAreFree | ai_relay_server.py:303-310 | any thread may take a free lock for any message, and any send may go on or fail at any byte |
| Broadcast.StreamDecodes | ai_relay_server.py:247-256 | the bytes sent to an xApp on which no send failed are whole frames that decode to exactly the messages sent to it if and only if these have 1 to 2^20 bytes |
| Broadcast.StreamAfterFailure | ai_relay_server.py:247-256 | what an xApp receives after a failed send, since it stays registered: all messages before; then, by how much of the failed frame was sent: nothing lost but its message, a length read across the cut, or one message made up of its part and of bytes of later frames |
| Broadcast.NeverInterleaved | ai_relay_server.py:247-256 | at every moment, also in mid-frame, an xApp on which no send failed has been sent whole frames and the first part of one more |
| Broadcast.StepOk | ai_relay_server.py:303-411 | every step of every thread keeps the invariant |
| Broadcast.RegisterOk | ai_relay_server.py:343-344 | registration, also when it replaces a connection of the same address |
| Broadcast.UnregisterOk | ai_relay_server.py:426-428 | removal, also when the address is not registered, or was taken over by another connection |
| Broadcast.BeginBroadcastOk | ai_relay_server.py:461-470 | taking the lock for a command fixes its place in the global order |
| Broadcast.FinishSendOk | ai_relay_server.py:252-253 | a whole frame is out |
| Broadcast.FailSendOk | ai_relay_server.py:254-256 | a failed send keeps the invariant, that of its own connection included |
| Broadcast.RunOk | ai_relay_server.py:303-411 | the invariant over every run |
| Relay.RelayServer.ForwardToAll | ai_relay_server.py:461-478 | one forwarded command is a run of the protocol that puts the whole frame, or a part of it where the send fails, on every registered connection and nothing on any other; success means that at least one send went through |
| Relay.RelayServer.Connect | ai_relay_server.py:343-344 | a new xApp takes its address over from whoever had it |
| Relay.RelayServer.Disconnect | ai_relay_server.py:426-428 | an xApp that is gone is removed; an address that is not registered changes nothing |
| Relay.RelayServer.Reply | ai_relay_server.py:384-389 | a reply puts its frame, or a part of it, on one connection and nothing on any other |
| Relay.RelayServer.SendToAll | ai_relay_server.py:470-478 | the loop over the connections, as protocol steps |
| Relay.RelayServer.SendFramed | ai_relay_server.py:247-256 | one send as protocol steps; it succeeds exactly when the length fits in 32 bits and the socket takes it all |
| ExtractorAgreement.StringAgreesWhen | temp/ric-control-message-v2.cc:73-85 | for every printed flat object and every name, a key or not: the string read is the one bound to the name (none if it is absent or bound to a number) if and only if the entry of the name is read and is a string or a last number, or what is read in its place happens to be the same |
| ExtractorAgreement.UintAgreesWhen | temp/ric-control-message-v2.cc:64-71 | for every printed flat object and every name: the number read is the one below 2^32 bound to the name (none if there is no such) if and only if the entry of the name is read and is not too large, or what is read in its place happens to be the same |
| ExtractorAgreement.ReadsTheRightEntry | temp/ric-control-message-v2.cc:51-85 | the entry of the name is the one read, or none if the name is absent, if and only if no string value equal to the name stands before it, except right before it |
| ExtractorAgreement.AgreesWithParse | temp/ric-control-message-v2.cc:51-119 | if no string value is the name looked up: the number is right if and only if it is below 2^32, and a string or nothing is right unless the name is bound to a number before the last entry |
| ExtractorAgreement.AValueCanShadowAKey | temp/ric-control-message-v2.cc:372-378 | a set-flow-rate command with a value "node", for which the number of another key is read as its node |
| ExtractorAgreement.AnAbsentKeyCanBeFound | temp/ric-control-message-v2.cc:377-378 | a set-flow-rate command for which a node is found although it gives none |
| ExtractorAgreement.ANumberGivesTheNextKey | temp/ric-control-message-v2.cc:73-85 | a key bound to a number reads, as a string, the key after it |
| ExtractorTheorems.FindStringOnFlat | temp/ric-control-message-v2.cc:73-85 | the whole of what the string extractor does on flat objects: which entry it reads, and that a number makes it read the next key |
| ExtractorTheorems.FindNumberOnFlat | temp/ric-control-message-v2.cc:51-62 | the whole of what the number extractor does on flat objects |
| ExtractorTheorems.ScanReads | temp/ric-control-message-v2.cc:59-61 | any decimal integer is read, after blanks and a sign |
| ExtractorTheorems.KeyIsHit | temp/ric-control-message-v2.cc:53-54 | where in a printed object the quoted key is found first |
| ExtractorTheorems.FindIsSuffix | temp/ric-control-message-v2.cc:53-56 | a search by position finds what a search by suffix finds |
| ExtractorTheorems.FindStringReads | temp/ric-control-message-v2.cc:73-85 | the string extractor in terms of suffixes |
| FieldExtractor.ExtractNumber | temp/ric-control-message-v2.cc:92-101 | the extractor with its loop over spaces computes what is specified |
| FlowTarget.FindTarget | temp/ric-control-message-v2.cc:401-445 | a target is found exactly when any node has one; the given application comes first, then the first one on the given node, then the first one anywhere |
| FlowTarget.FirstOnNode | temp/ric-control-message-v2.cc:411-420 | the first on-off application of a node, if any |
| Timelines.CompleteWhen | ns-3-mmwave-oran/utils/grid.py:148-164 | no overlapping range is dropped if and only if an endpoint hits a range or nothing overlaps |
| Timelines.ExactWhen | ns-3-mmwave-oran/utils/grid.py:148-164 | the exact condition under which the bounds are those of the linear scan |
| Timelines.BothHit | ns-3-mmwave-oran/utils/grid.py:148-164 | if both endpoints hit a range, the bounds are exactly those of the linear scan |
| Timelines.SelectedIsScan | ns-3-mmwave-oran/utils/grid.py:131-147 | if both endpoints hit a range, the ranges selected are those of a linear scan, in order |
| Timelines.Slice | ns-3-mmwave-oran/utils/grid.py:131-147 | what a slice holds, also when its bounds cross or lie beyond the end |
| Timelines.OverlapsWhen | ns-3-mmwave-oran/utils/grid.py:131-147 | a range overlaps an interval if and only if they share a point |
| Timelines.ARangeCanBeDropped | ns-3-mmwave-oran/utils/grid.py:157-158 | an input with both endpoints between ranges whose only range is dropped |
| Timelines.EventsBounds | ns-3-mmwave-oran/utils/grid.py:230-239 | on distinct times, all events of the interval are covered and at most one more, the next one after it |
| Timelines.EventsCoveredWhen | ns-3-mmwave-oran/utils/grid.py:195-239 | the bounds cover all events of the interval if and only if the search finds the first of the events at its start, if there are any, and the last of those at its end; which one it finds is decided by their places alone |
| Timelines.CoveredIfOnce | ns-3-mmwave-oran/utils/grid.py:195-239 | they do in particular if neither endpoint is the time of several events |
| Timelines.BisectIsProbe | ns-3-mmwave-oran/utils/grid.py:201-212 | the search ends at the first midpoint among the events of that time, whatever the other times are, or where one would be inserted if there is none |
| Timelines.PlaceIsPlace | ns-3-mmwave-oran/utils/grid.py:195-212 | in order, the search gives an event of that time, or else the place where one would be inserted |
| Timelines.AnEventCanBeDropped | ns-3-mmwave-oran/utils/grid.py:195-239 | three events at the start of the interval, of which the search finds the second, so the first is dropped |
| Timelines.DroppedEventsHaveTwins | ns-3-mmwave-oran/utils/grid.py:230-239 | an event that is dropped shares the time of an endpoint with another event |
| Timelines.TimelineDataRange.Search | ns-3-mmwave-oran/utils/grid.py:100-117 | the binary search finds a range that holds the key exactly when there is one |
| Timelines.TimelineDataRange.GetRangesBounds | ns-3-mmwave-oran/utils/grid.py:148-164 | each bound is where its endpoint hits, or the end of the list; (0, 0) if neither hits |
| Timelines.TimelineDataRange.GetRanges | ns-3-mmwave-oran/utils/grid.py:131-147 | the ranges between those bounds |
| Timelines.TimelineDataRange.AddRange | ns-3-mmwave-oran/utils/grid.py:118-124 | one more range at the end |
| Timelines.TimelineEvent.Search | ns-3-mmwave-oran/utils/grid.py:195-212 | the one place that bisection arrives at, also among events of equal time; in order, it is an event of that time or where one would be inserted |
| Timelines.TimelineEvent.GetEventsBounds | ns-3-mmwave-oran/utils/grid.py:230-239 | from the place found for the start to just behind the one found for the end |
| Timelines.TimelineEvent.GetEvents | ns-3-mmwave-oran/utils/grid.py:220-229 | the events between these bounds |
| Timelines.TimelineEvent.AddEvent | ns-3-mmwave-oran/utils/grid.py:213-219 | one more event at the end |

## Left out

- Type registry: which type is a child of which is a given relation, and attribute checkers are of three kinds (pointer, object vector, other); printing and `GetNoTypeIds` are not modelled.
- Dispatcher threads: a worker that dies of an exception, valgrind and the temporary result files, the texts and reports, and the choice of the number of processors.
- `TestRun.TestRun` states each turn of a thread as one method; the interleaving of the turns is in the step relation.
- CSV cells: quoting is taken to be lossless, a line is taken to reach the disk whole, blank lines are not rows, and a row is what its non-empty cells say; the type inference and the tags of points are not modelled.
- CsvExport.CatchesUp: a file that already has a row longer than its header when logging starts is excluded; the reader refuses such a file or reads it shifted.
- UniquePaths.LoggedOnceFromRootsWhen: names are as a type registry has them (distinct, without slashes, attributes not starting with "$"); the log is not sorted either.
- CSV processes: one producer (the server calls the writer without a lock), an exporter that is not restarted (its watermark is only in memory), and not the UE log.
- Style checks: the formatting pass, the choice of files and the worker pool; a text is what is read after newline translation.
- Patches: `remove_trailing_whitespace_changes` and patch application; positions are natural numbers without a limit on their digits, and a list element is one line.
- Statistics.Log: over real numbers, without rounding, square roots and the division of a rate by a time of zero.
- Benchmark.Bench.Run: without wall-clock times; events of equal time are executed in any order.
- Injectors.InjectorsNeverCompound: assumes that no control command changes the same quantities, and does not stop at the end of the simulation; the injectors of our-v5.cc are not modelled.
- McsPhases.PhasesAlternateInTime: follows the downlink MCS only, the one that is read back; the uplink is set alongside.
- Broadcast.StreamAfterFailure: commands sent after the failure are not placed in the global order.
- Relay: the reading of recommendation responses, JSON and the single-read header of `recv_framed` are not modelled.
- ExtractorTheorems.FindNumberOnFlat: the values are integers, as printed in decimal; other number forms are `Other`, converting a number of 2^32 or more to 32 bits is undefined, and escapes in strings do not occur.
- FlowTarget.FindTarget: the search only, not the change of the data rate; the other commands are not modelled.
- Timelines: lists are sorted when they are searched (`sort` is not modelled), and the midpoint is exact; drawing is not modelled.
- ns-3, mmWave and E2AP internals, sockets, the database, dashboards and scenario set-up.
