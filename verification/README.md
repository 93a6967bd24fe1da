# ReproVM in Dafny

ReproVM is a small build engine: a manifest declares tasks, a dependency graph orders them, a serial
loop or a pool of threads runs them, and a content-addressed store with a cache of records makes a task
whose key is known restore its outputs instead of running. This project models that engine and proves
what it is for. Verify with `dafny verify dfyconfig.toml`.

## How the model is built

- `Graphs.dfy` holds dependency graphs over positions, and the decrement-and-push loop that the parallel
  executor and Kahn's algorithm share.
- `Scheduler.dfy` and `SchedulerRuns.dfy` are the thread protocol as a state machine: one step per
  critical section, one per stage a worker passes through with a task, any number of workers, spurious
  wake-ups included. Two protocols are kept apart. *Literal* is the code as it stands: after a failed
  command the worker locks the mutex it already holds, and a task whose inputs cannot be hashed releases
  no dependents. *Intended* takes one lock and always releases, as the comment in that branch and the
  project's documentation describe.
- `ParallelExecutor.dfy` is the shared context as an object (linked ready queue, counter array,
  `remaining`, `failed`); each critical section is a method whose contract is the matching step of the
  protocol (`S.Apply`) on the shared value.
- `Interleaving.dfy`, `Independence.dfy` and `ScheduleIndependence.dfy` run the protocol together with
  the files, the store and the cache, and compare every schedule, failing ones included, with running the
  tasks in turn.
- `Tasks.dfy`, `ReverseEdges.dfy`, `TopoSort.dfy`, `Closure.dfy` and `GraphPrinter.dfy` are the graph code
  on task objects, with `KahnOrder.dfy` for the order of the sort; `Manifest.dfy` is the parser,
  `ManifestLaws.dfy` what it does with any text, line by line; `Engine.dfy` puts the serial program together,
  `TwinNames.dfy` is a manifest it refuses wrongly, and `ParallelEngine.dfy` compares the parallel entry
  point with it.
- `Cache.dfy` gives the cache on values (a world is files, objects and records), `Workspace.dfy` the same
  operations as methods that change an object, `KeyFacts.dfy` what keys, result hashes and turns mean in
  terms of tasks and contents, and `StoreFacts.dfy`, `Transparency.dfy`, `WarmRerun.dfy`
  and `StaleCache.dfy` what the cache guarantees and what it misses. `Example.dfy` is a project on which
  everything those results assume holds. `Records.dfy` has the key text and the record text, `Text.dfy`
  and `Sorting.dfy` the string layer and the exchange sort.
- `Sha256.dfy` is SHA-256 after FIPS 180-4 (sections 4.1.2, 4.2.2, 5.1.1, 5.3.3 and 6.2.2) on whole messages,
  `Sha256Ctx.dfy` the buffered implementation, `Hex.dfy` the names made from digests. `Sha256Constants.dfy`
  derives the constants from prime numbers, and `Sha256Answer.dfy` computes the hash of "abc" round by round.
- `RateLimiter.dfy` is the token bucket with its 64-bit arithmetic.

## What is assumed

The hash function and the effect of commands are parameters of the cache (`Cache.Env`); `Hex.TextName` is
the hash the program uses, and it always gives 64 hexadecimal digits, as `Cache.HashNames` asks
(`Hex.TextNamesAreHashNames`). Everything else is assumed only of what occurs:

- A *turn* is a task on the files its turn finds. For a set of turns that occur, `Cache.Storable` says that
  the contents they store, inputs and outputs, do not collide, and that tasks have at most 64 outputs with
  names a record can carry. Key texts are not among those contents and may collide with anything.
- `Cache.Interchangeable` says of two turns that if the second can meet the first one's record (the first
  succeeded, the keys are equal), the record does to the second what its own command does. Under `Storable`
  the cache is transparent after every history of turns if and only if all of them are interchangeable
  (`Transparency.TransparentIff`); `Transparency.SecondTurnIff` is the same for a single hit.
  `Transparency.LawsSuffice` gives it from the laws one expects of commands.
- The results about the executor assume `Interleaving.Assumed` of the run's own tasks: each command is a
  function of the contents of its declared inputs and writes its declared outputs (`Cache.Behaved`), the
  contents in play do not collide, and a record the run may meet holds what the task's own command writes.
  From a cold cache the last point is just that the keys differ (`ScheduleIndependence.ColdSchedules`).
- That store and cache stay honest (`Transparency.ReachableHonest`) needs neither laws nor the absence of
  collisions.

## What the code does differently

The model follows the code where it departs from the documentation, or from what one would expect.

- The documentation says a task's key contains its dependencies' result hashes, so that changes propagate
  (README.md:110, 340). The code appends empty placeholders. `StaleCache.DependencyChangeIsMissed` is a
  manifest in which a stale output is restored; `StaleCache.StaleIff` and `Transparency.TransparentIff` say
  exactly when that happens.
- The documentation says other tasks still finish after a failure (README.md:685). The code as written
  reaches the end of a run only in the cases `SchedulerRuns.CompletesIff` names; `LiteralCanHang` is a
  concrete run that hangs.
- File names of inputs are not in the key either, and the hashes of their contents are sorted: swapping the
  contents of two inputs is missed in the same way (`Example.SwapIsMissed`).
- The parser accepts several tasks of one name. The sort then counts every bearer of a dependency's name
  and counts down only the first, so it reports a cycle where there is none (`TwinNames.FalseCycle`);
  `Engine.SortSucceedsIff` says exactly when. Builds of named targets never run into this
  (`Engine.NamedIsUnambiguous`).

## Model

| member | source | states |
|---|---|---|
| `Scheduler.InitInv` | parallel_executor.c:143-166 | the set-up establishes the protocol invariant: counters are the in-subset dependency counts and exactly the tasks without any are queued |
| `Scheduler.StepInv` | parallel_executor.c:58-124 | every step of every worker and of main, under both protocols and for all outcomes, keeps the invariant (counters, queue, owners, verdicts, sleepers) |
| `Scheduler.RunInv` | parallel_executor.c:58-124 | the invariant holds in every state of every run of any number of workers |
| `Scheduler.FinishBooks` | parallel_executor.c:103-119 | counting a task off and releasing its dependents keeps each counter equal to the dependency occurrences not yet released, and queues a task exactly when its last one goes |
| `SchedulerRuns.OnePlace` | parallel_executor.c:34-121 | in every reachable state a task is in exactly one of four places: waiting, queued once, held by one worker, finished; `remaining` is n minus the finished ones |
| `SchedulerRuns.PopIsSafe` | parallel_executor.c:63-71 | a popped task was never popped before and all its in-subset dependencies have finished |
| `SchedulerRuns.NoLostWakeUp` | parallel_executor.c:61-121 | with the mutex free and work queued or nothing remaining, no worker is asleep |
| `SchedulerRuns.NoDeadlock` | parallel_executor.c:60-122 | on an acyclic subset with tasks remaining, the queue is non-empty or some worker holds a task |
| `SchedulerRuns.AlwaysMoves` | parallel_executor.c:60-183 | until main has returned some step other than a spurious wake-up is possible (intended protocol, or literal with benign outcomes) |
| `SchedulerRuns.StepDecreases` | parallel_executor.c:60-122 | every step lowers one measure over worker stages, except a spurious wake-up, which raises it by one |
| `SchedulerRuns.RunBound` | parallel_executor.c:60-122 | an explicit bound on the length of every run in tasks, workers and spurious wake-ups |
| `SchedulerRuns.ReturnedMeansDone` | parallel_executor.c:179-198 | when main has returned every task has finished, the queue is empty (the drain loop frees nothing) and the code is 1 exactly when some task failed |
| `SchedulerRuns.LiteralReturnsOnlyIfBenign` | parallel_executor.c:79-99 | the literal code returns only if no command failed and every task that could not be hashed had no dependents |
| `SchedulerRuns.CompletesIff` | parallel_executor.c:79-121 | a run that can go no further has completed if and only if the protocol is the intended one or the outcomes were benign |
| `SchedulerRuns.LiteralCanHang` | parallel_executor.c:92-103 | a concrete run in which one failing command leaves the worker blocked on its own mutex and no step possible |
| `ParallelExecutor.ReadyQueue.Push` | parallel_executor.c:34-44 | the linked queue gets the task at its end, tail pointer included |
| `ParallelExecutor.ReadyQueue.Pop` | parallel_executor.c:47-55 | the linked queue gives up its first task, or nothing when empty |
| `ParallelExecutor.ParallelCtx.constructor` | parallel_executor.c:143-166 | on any subset the counters are the in-subset dependency counts and the tasks without any are queued in order; with unique names that is the protocol's initial shared state |
| `ParallelExecutor.ParallelCtx.CountKnown` | parallel_executor.c:158-162 | the counting loop yields the number of in-subset dependency occurrences |
| `ParallelExecutor.ParallelCtx.TakeTask` | parallel_executor.c:61-71 | for an idle worker the locked section makes its Sleep, Leave or Pop step of the protocol, whichever is enabled; a task taken is the one the protocol pops |
| `ParallelExecutor.ParallelCtx.AbandonTask` | parallel_executor.c:82-86 | after a failed hash the section makes the literal AbortHash step: `failed` is set, `remaining` lowered, no dependent released |
| `ParallelExecutor.ParallelCtx.NoteFailure` | parallel_executor.c:92-99 | after a failed execution the first section does what the literal AbortExec step does to the context, and no more |
| `ParallelExecutor.ParallelCtx.CompleteTask` | parallel_executor.c:102-121 | on the graph of the subset the completion section makes the Complete step: the in-subset dependents are counted down in order and queued at zero |
| `Independence.AtTask` | parallel_executor.c:70-92 | a worker holding a task finds its inputs, and so its key and its command's effect, as in the files a run through all tasks ends in, failed tasks before it or not |
| `Independence.JointStepInv` | parallel_executor.c:58-124 | each step of protocol and data together, the failing ones included, keeps: every output either untouched or as in the reference, every key, snapshot and end as on the reference files |
| `Independence.JointRunInv` | parallel_executor.c:58-124 | and so in every state of every joint run |
| `ScheduleIndependence.TopologicalNoOverwrites` | main.c:75-96 | disjoint outputs and produced inputs coming from ancestors mean that a topological order never overwrites what an earlier task read or wrote |
| `ScheduleIndependence.SerialIsPrefix` | main.c:75-96 | the serial loop takes the same turns as a run that goes on after failures, up to and including its first failure |
| `ScheduleIndependence.ThroughReference` | main.c:75-96 | the files a run through all tasks ends in are fixed for every task, failed ones with partial writes included, and each turn ended as on those files |
| `ScheduleIndependence.SameAsThrough` | parallel_executor.c:58-199 | any run of the executor that returns, with any workers, pops, overlaps and failures, returns 1 exactly when some task of a run through all tasks fails, leaves that run's files and gives each task the same failure or the same key and result hash |
| `ScheduleIndependence.SameAsSerial` | parallel_executor.c:58-199 | any completed run, with any workers, pops and overlaps, returns 0 and leaves the files, keys and result hashes of the serial run, wherever the serial run succeeds |
| `ScheduleIndependence.JointMoves` | parallel_executor.c:60-122 | and no such run gets stuck before main returns, whatever fails, under the intended protocol or with benign outcomes |
| `ScheduleIndependence.EveryOutcome` | parallel_executor.c:58-199 | so a run of the intended executor that has gone as far as it can, as every run does within the bound above, has returned with the code, files and ends of the run through all tasks, whatever failed |
| `ScheduleIndependence.EverySchedule` | parallel_executor.c:58-199 | where the serial run succeeds, a run of the executor, as written or as intended, that has gone as far as it can has returned 0 with the files, keys and result hashes of the serial run |
| `ScheduleIndependence.ColdSchedules` | parallel_executor.c:58-199 | from an empty cache that holds for commands that are functions of their declared inputs, disjoint outputs, produced inputs from ancestors, distinct keys and no collision among the final contents |
| `ScheduleIndependence.ColdOutcomes` | parallel_executor.c:58-199 | and so does every run of the intended executor whatever fails, under the same laws |
| `Graphs.ReleaseCounts` | parallel_executor.c:109-119 | the shared loop turns the outstanding counts for one set of finished tasks into those for one more, queueing exactly the tasks that reach zero, each once |
| `Graphs.StuckHasCycle` | task.c:257-260 | tasks that all wait for one another contain a dependency cycle |
| `Graphs.OrderedIsAcyclic` | task.c:216-264 | a complete order with dependencies first rules cycles out |
| `Tasks.FindTask` | parallel_executor.c:127-132 | the lookup returns the first bearer of the name or -1 |
| `ReverseEdges.BuildReverse` | task.c:151-168 | the dependents of each task are, in list order and once per occurrence, the tasks whose dependencies resolve to it |
| `ReverseEdges.BuiltIsLinked` | task.c:151-168 | with unique names the reverse edges mirror the dependencies occurrence by occurrence |
| `ReverseEdges.SubsetIsLinked` | parallel_executor.c:109-112 | any selection of a linked list is linked again, and looking dependents up by name or by object agrees |
| `TopoSort.CountIndegrees` | task.c:223-233 | on any subset, the indegree of a task counts every bearer of the name of each of its dependencies |
| `TopoSort.KahnStep` | task.c:242-255 | one turn of the queue loop keeps the invariant: counts, queued exactly at zero, dependencies queued earlier |
| `TopoSort.KahnFits` | task.c:236-253 | the n-slot queue never overflows, whatever repeated or self dependencies there are |
| `TopoSort.KahnEnd` | task.c:257-263 | with the queue used up it holds every task if and only if there is no cycle, and is then an order with dependencies first |
| `TopoSort.Sort` | task.c:216-264 | on any selection of a parsed list, duplicate names included: NULL if and only if the counted graph has a cycle, otherwise the tasks of the selection with dependencies first, in the one order above |
| `TopoSort.BearersCover` | task.c:223-255 | at least as much is counted up as is counted down, and exactly as much if and only if each dependency name is borne by its first bearer alone |
| `TopoSort.UniqueNamesGraph` | task.c:223-253 | with unique names the counted graph is the dependency graph the executor works on |
| `TopoSort.OrderKept` | task.c:242-255 | each turn of the queue loop keeps the queue in order: tasks without dependencies first, in subset order, the others by the place of their last dependency, and those released by one task in list order |
| `KahnOrder.OrderUnique` | task.c:236-255 | only one order of all tasks has that property, so the sort leaves nothing open |
| `Closure.DfsSound` | task.c:174-187 | where no cycle is reached, a visit adds the task, exactly what it reaches, each once, dependencies first |
| `Closure.DfsEndless` | task.c:174-187 | where a cycle is reached, no recursion depth is enough |
| `Closure.CollectEndsIff` | task.c:189-214 | the collection ends if and only if no cycle can be reached from where it starts |
| `Closure.CollectIsClosure` | task.c:189-214 | and then it is exactly the closure of its roots, each task once, dependencies first |
| `Closure.ServesIff` | task.c:189-214 | in terms of names: with no targets the closure lists every task; otherwise the first bearer of every known target, and nothing that no chain of dependency names from a target leads to; each task once, behind the first bearers of its dependency names |
| `Closure.CollectInOrder` | task.c:194-208 | roots are served in order: later ones add, behind what the earlier ones need, what they need and is not there yet |
| `Closure.CollectOne` | task.c:174-187 | and a task comes directly behind what its dependencies need, in the order they are declared |
| `Closure.TaskBuffer.Append` | task.c:182-186 | the doubling array keeps its contents and gets one more task |
| `Closure.CollectDfs` | task.c:174-187 | the recursion on task objects computes the search on positions and ends where no cycle is reached |
| `Closure.CollectNeeded` | task.c:189-214 | the needed tasks are the closure of the known targets, or of all tasks when none is named, and so serve the targets |
| `GraphPrinter.GraphPrintedOnce` | task.c:550-601 | on any graph, cyclic ones included, every task is printed exactly once, and every indented line stands below a task that depends on it |
| `GraphPrinter.PrintIsTree` | task.c:550-573 | a task's lines form one tree of dependencies at its indent |
| `GraphPrinter.PrintAllTakesTurns` | task.c:567-572 | below a task its dependencies come in their declared order: each line shows the first one of its parent not printed before |
| `GraphPrinter.GraphRootsIff` | task.c:578-590 | a task is a root if and only if no other task names it as a dependency, and roots are in list order |
| `GraphPrinter.LineOfSuccess` | task.c:556-566 | the text of one line, with symbol, indent, key and result |
| `GraphPrinter.RootsAtMargin` | task.c:583-597 | tasks that no other depends on, printed first, stand at the margin in their order, before any other task there |
| `GraphPrinter.PrintTask` | task.c:550-573 | the recursion over visited flags prints that tree, and ends because each call that goes on marks a task |
| `GraphPrinter.PrintGraph` | task.c:575-601 | the printed lines have these properties, and the margin begins with the tasks that no other names as a dependency, in list order |
| `Manifest.ReadOne` | task.c:78-141 | the loop body, with the line cut and trimmed in its buffer and lists split in place, makes one step of the parser |
| `Manifest.ParseManifest` | task.c:62-171 | the task objects are the parsed declarations in order, with exact reverse edges under unique names |
| `Manifest.ReadTask` | task.c:78-141 | the lines of a printable task append exactly that task |
| `Manifest.ManifestRoundTrip` | task.c:62-149 | parsing the canonical text of any printable tasks gives them back in order |
| `Manifest.ParsedIsReadable` | task.c:62-149 | whatever the text, parsed names, commands and list items are clean |
| `Manifest.ParseShowParse` | task.c:62-149 | for any text, printing what was parsed and parsing again changes nothing, if the lines fit the buffer |
| `ManifestLaws.CommentsSkipped` | task.c:83-84 | anywhere in any text, a blank or comment line can be left out, whatever braces are in it |
| `ManifestLaws.LongLine` | task.c:79-81 | a line counts up to its 4095th character |
| `ManifestLaws.NulEnds` | task.c:76-76 | nothing behind a NUL counts |
| `ManifestLaws.LastNewlineOptional` | task.c:76-140 | the last line needs no newline |
| `ManifestLaws.BraceCloses` | task.c:131-139 | any other line with a brace does what a lone closing brace does |
| `ManifestLaws.OtherLinesSkipped` | task.c:131-139 | and one without a brace can be left out |
| `ManifestLaws.LastBraceOptional` | task.c:143-149 | a closing brace at the end of any text can be left out |
| `ManifestLaws.UnclosedTaskCounts` | task.c:143-149 | so canonical text without its last line gives the same tasks |
| `ManifestLaws.OutsideTasks` | task.c:97-139 | behind a closing brace, or at the beginning, a line that is no header can be left out |
| `ManifestLaws.KeyWithoutValueSkipped` | task.c:97-130 | a key line without "=" can be left out, even with a brace in it |
| `ManifestLaws.KeySpacing` | task.c:97-130 | whatever blanks stand around a key line and its value, and whatever else stands before the "=", it does what the canonical line does |
| `ManifestLaws.CommandSkipsSpaces` | task.c:98-103 | a command begins behind all white space, vertical tabs and form feeds included |
| `ManifestLaws.KeysCommute` | task.c:97-130 | neighbouring lines of different keys may change places |
| `ManifestLaws.LaterKeyCounts` | task.c:97-130 | of two neighbouring lines of one key the later counts |
| `ManifestLaws.EmptyListOptional` | task.c:94-130 | behind a header, a list given as empty can be left out |
| `ManifestLaws.HeaderStartsAfresh` | task.c:85-96 | a line before a header can be left out unless it closes a task: an open task is given up |
| `ManifestLaws.HeaderSpacing` | task.c:85-96 | a task name ends at white space or a brace, and nothing else on the header line matters |
| `Text.TrimInPlace` | util.c:40-52 | the in-place trim on a C string leaves the text without blanks at both ends |
| `Text.TrimMeans` | util.c:40-52 | exactly the spaces, tabs, returns and newlines at both ends are what trimming removes |
| `Text.SplitCsvArray` | util.c:54-85 | the comma loop yields the trimmed non-empty items |
| `Text.CsvRoundTrip` | util.c:54-85 | splitting the comma-join of clean items gives the items back |
| `Text.JoinStrings` | util.c:139-153 | the separator stands between parts only |
| `Sorting.ExchangeSort` | task.c:314-321 | the two loops sort the array in place, as `strcmp` orders |
| `Sorting.SortCanonical` | task.c:314-321 | two lists sort to the same list if and only if they are equal as multisets |
| `Sorting.LeIff` | task.c:314-321 | the order is that of `strcmp`: a prefix comes first, otherwise the first difference decides |
| `Records.KeyTextCanonical` | task.c:305-346 | two key texts are equal if and only if the commands, the input hashes as multisets and max(n_deps, 1) are equal |
| `Records.KeyTextOfTwo` | task.c:305-346 | the text for two input hashes in either order and three dependencies, and for none |
| `Records.ReadRecord` | task.c:390-409 | the reading loop computes the parsed record |
| `Records.RecordRoundTrip` | task.c:390-445 | a written record is read back as the same result hash and the same ordered list |
| `Records.RecordRoundTripIff` | task.c:390-445 | and that holds if and only if every output name is non-empty and free of spaces and newlines |
| `Records.OtherRecordLine` | task.c:390-409 | in any record file, a line that begins neither like a result nor like an output means nothing |
| `Records.FurtherWordsSkipped` | task.c:396-407 | of an output line only name and hash count |
| `Records.LongResult` | task.c:392-395 | of a result hash 255 characters are kept |
| `StoreFacts.HashTaskMeans` | task.c:267-373 | hashing a task succeeds if and only if all inputs exist, yields the key, and only adds objects |
| `KeyFacts.SameKeyIff` | task.c:267-373 | if their key texts and contents do not collide, two turns have one key if and only if their commands, the contents of their inputs as multisets and max(n_deps, 1) are equal |
| `KeyFacts.HashStoresInputs` | task.c:270-284 | hashing stores the inputs before the first missing one, and nothing else |
| `KeyFacts.PermutedOutputs` | task.c:453-470 | outputs with the same contents in any order give one result hash, whatever collides |
| `KeyFacts.SameResultIff` | task.c:453-478 | if joined hashes and contents do not collide, two results have one hash if and only if the output contents, missing ones included, are equal as multisets, or there is nothing to hash in either |
| `KeyFacts.SameResultOfFilesIff` | task.c:453-478 | where all outputs exist, if and only if their contents are equal as multisets |
| `KeyFacts.ResultOfTwo` | task.c:453-478 | two outputs: the hash of the smaller name, a comma and the larger |
| `KeyFacts.NoCommandNeverRuns` | task.c:515-533 | a turn of a task without a command is a hit or fails, and leaves no record |
| `KeyFacts.MissRunsCommand` | task.c:526-546 | on a miss the command runs on the files as they are; what it writes stays in any case, and only success leaves a record, under the key |
| `StoreFacts.RestoreAllIsMap` | task.c:415-425 | the two restore loops lay one map of recorded outputs over the files |
| `Transparency.StoreThenRestore` | cas.c:175-248 | from any reachable state, storing and restoring returns the original bytes if and only if no different content was stored under that hash |
| `Transparency.HitMeans` | task.c:376-428 | a hit on the record a turn left lays that turn's outputs over the files, whatever they are now, and reports its result hash |
| `Transparency.RecordInv` | task.c:430-501 | recording a successful turn leaves its record, keeps every stored content and every earlier record, and the result is the hash of the sorted output hashes |
| `Transparency.ReachableHonest` | cas.c:175-248 | through any sequence of stores, restores, runs and edits, whatever commands do and whatever collides, each object hashes to its name and each record names stored objects and, when it lists all outputs, has the result hash of the listed hashes |
| `Transparency.CacheTransparency` | task.c:267-547 | where the turns that occur are interchangeable, a serial run from any cache they left leaves the files, the failure point and the result hashes of a run that executes every command |
| `Transparency.SecondTurnIff` | task.c:376-428 | a turn that meets the record another has left ends like its own command if and only if the record may replace that command |
| `Transparency.TransparentIff` | task.c:267-547 | every turn after every history of turns through the cache is transparent if and only if all turns that occur are interchangeable |
| `Transparency.LawsSuffice` | task.c:305-346 | commands that write their outputs and act alike on equal key texts, with no two key texts colliding, are interchangeable |
| `Example.CacheAssumptions` | task.c:267-547 | the assumptions about the cache hold together for two tasks, one reading two files in an order that matters, the other writing more than it reads |
| `Example.SwapIsMissed` | task.c:305-346 | swapping the contents of two inputs keeps the key, because the hashes are sorted, but changes what the command writes: the earlier record is met and is wrong |
| `Example.SecondRun` | main.c:75-96 | and those of the warm rerun: the first run builds both files, the second only hits and changes nothing |
| `Example.ScheduleAssumptions` | parallel_executor.c:138-199 | and those of `ColdSchedules` |
| `StaleCache.DependencyChangeIsMissed` | task.c:331-346 | after a source changes, a successful second run restores an output that depends on the old one |
| `StaleCache.StaleIff` | task.c:331-346 | a later turn of the dependent task may use the record of an earlier one if and only if the undeclared input has the same content |
| `StaleCache.NotAlwaysTransparent` | task.c:331-346 | so a cache over the turns of that scenario is not transparent |
| `StaleCache.SettingExists` | task.c:331-346 | a hash and commands as in that scenario exist |
| `WarmRerun.SettledSkips` | task.c:515-520 | a task whose record restores what is already there is a hit that changes nothing |
| `WarmRerun.WarmRerunDoesNoWork` | main.c:75-96 | after a successful run without overwrites and without a collision among the contents in it, a second run hits on every task, runs no command, changes no file and no record, and reports the same keys and results |
| `Workspace.Workspace.StoreBlobFromFile` | cas.c:213-241 | a stored file is named by its hash, and an existing object is left alone |
| `Workspace.Workspace.RestoreBlobToFile` | cas.c:243-248 | short and unknown names change nothing, others put the blob at the destination |
| `Workspace.Workspace.ComputeTaskHash` | task.c:267-373 | the method that stores inputs, sorts and builds the text sets the key that `HashTask` gives, or fails at the first missing input |
| `Workspace.Workspace.BuildKeyText` | task.c:305-346 | the appended text is the key text of the command, the hashes and the number of dependencies |
| `Workspace.Workspace.TryLoadRecord` | task.c:376-428 | a hit sets status and result hash and restores the declared outputs; a miss changes nothing |
| `Workspace.Workspace.ComputeResultHash` | task.c:451-501 | the result hash is that of the sorted output hashes, with "" for a missing output |
| `Workspace.Workspace.WriteRecord` | task.c:430-448 | the record under the key lists exactly the existing outputs with their hashes |
| `Workspace.Workspace.Execute` | task.c:504-547 | the world after is that of `RunTask`, or of `ExecuteTask` when the hash is known already, and the task's fields report its end |
| `Workspace.Workspace.RunAll` | main.c:75-96 | the loop makes the serial run, reports every task it reached and leaves the rest pending |
| `Engine.CollectedSubsetAcyclic` | main.c:51-68 | what the collection returns has no dependency cycle |
| `Engine.CollectedIsSchedulable` | reprovm_parallel.c:79-90 | so the unsorted collection that the parallel entry point passes on is a valid acyclic graph |
| `Engine.SortSucceedsIff` | main.c:51-68 | the sort of a collection succeeds if and only if no collected task depends on a name that two collected tasks bear |
| `Engine.NamedIsUnambiguous` | task.c:189-214 | which is always so when targets are named or names are unique |
| `TwinNames.FalseCycle` | task.c:223-263 | a manifest of two tasks of one name and a third that depends on it: no cycle to reach, a plan in the order given, and ambiguous |
| `TwinNames.SortReportsCycle` | task.c:223-263 | on its task objects the sort returns NULL although the dependency graph has no cycle |
| `Engine.SortedIsPlan` | main.c:51-68 | sorting a collection gives again the closure of the targets, dependencies first |
| `Engine.Build` | main.c:46-112 | from manifest text to exit code: 1 without running anything if the needed tasks are ambiguous; otherwise a plan for the targets is run through the cache, and the code is 0 if and only if every task of it succeeds |
| `Engine.PlanIff` | main.c:46-68 | a plan is exactly an order that serves the targets, in terms of names |
| `ParallelEngine.PlanOfCollection` | reprovm_parallel.c:79-90 | two collections of the same tasks with dependencies first are orderings of one another, topological in the executor's graph |
| `ParallelEngine.ParallelIsSerial` | reprovm_parallel.c:79-100 | for a manifest text and targets, every run of the executor on the unsorted collection that has gone as far as it can leaves the exit code, files, keys and result hashes of the serial plan |
| `ParallelEngine.ParallelIsThrough` | reprovm_parallel.c:79-100 | whatever fails, every such run of the intended executor leaves what a run of the serial plan that went on after failures leaves, and ends each task alike |
| `Sha256.PadRoundTrip` | cas.c:103-127 | the padding determines the message: its last eight bytes give the length |
| `Sha256Constants.PrimesAreFirst` | cas.c:20-29 | the list the constants are drawn from is that of the first 64 primes |
| `Sha256Constants.RoundConstants` | cas.c:20-29 | round constant t is the first 32 bits of the fractional part of the cube root of the t-th prime |
| `Sha256Constants.InitialWords` | cas.c:79-90 | the initial hash value is that of the square roots of the first eight |
| `Sha256Answer.KnownAnswer` | cas.c:31-136 | the hash of the three bytes "abc", byte for byte |
| `Sha256Answer.HashIsChain` | cas.c:35-136 | the hash is the last of the chained hash values over the blocks of the padded message |
| `Sha256Ctx.CounterIsLength` | cas.c:117-126 | the bytes written from the 64-bit counter are the length field, even after wrap-around |
| `Sha256Ctx.Context.Init` | cas.c:79-90 | the state is the initial hash value for the empty message |
| `Sha256Ctx.Context.Expand` | cas.c:36-43 | the array holds the message schedule of the block |
| `Sha256Ctx.Context.Transform` | cas.c:35-77 | the state becomes the compression of the old state with the block |
| `Sha256Ctx.Context.Update` | cas.c:92-101 | the absorbed message grows by the input, with whole blocks compressed and the rest buffered |
| `Sha256Ctx.Context.Final` | cas.c:103-136 | both padding branches give the hash of the absorbed message, of any length |
| `Hex.HashInPieces` | cas.c:79-136 | any way of cutting a message into updates gives its hash |
| `Hex.NameOfMemory` | cas.c:175-181 | the one-shot store names a content by the hash of all of it |
| `Hex.NameOfFile` | cas.c:213-226 | so does the file store, whatever pieces up to 8192 bytes the reads return |
| `Hex.EncodeBytes` | util.c:155-165 | the loop writes two digits per byte, high nibble first |
| `Hex.EncodeRoundTrip` | util.c:155-165 | decoding an encoded digest gives it back |
| `Hex.KnownName` | util.c:155-165 | the name of "abc", as bytes and as text |
| `Hex.SameNameIff` | cas.c:175-181 | two contents share a name if and only if SHA-256 collides on them |
| `RateLimiter.RefillIsTicksIff` | rate_limiter.c:19-31 | a refill equals one capped tick per elapsed second if and only if the 64-bit sum fits or wraps to at least the capacity |
| `RateLimiter.FullBucketEmpties` | rate_limiter.c:23-28 | the wrap-around is real: a full bucket can be empty a second later |
| `RateLimiter.LazyIsEager` | rate_limiter.c:19-44 | the same answers and levels as the eager bucket if and only if every refill of the request sequence fits |
| `RateLimiter.FitsUntil` | rate_limiter.c:19-31 | capacity plus everything that can flow in below 2^64 is enough for all refills to fit |
| `RateLimiter.ExactLevel` | rate_limiter.c:9-44 | the level is the exact minimum, over all earlier window starts, of capacity plus inflow minus grants |
| `RateLimiter.RefusedIffSomeWindowFull` | rate_limiter.c:38-43 | a request is refused if and only if granting it would overfill some window |
| `RateLimiter.WindowBound` | rate_limiter.c:33-44 | no window of any run grants more than capacity plus rate times its length, wrapping refills included |
| `RateLimiter.WaitMeans` | rate_limiter.c:46-61 | if the refills made on the way fit, a wait ends at the first attempt at which an undisturbed bucket holds enough, or refused at the last one, whatever the clock does |
| `RateLimiter.WaitSucceedsIff` | rate_limiter.c:46-61 | so it succeeds if and only if the level suffices at the last attempt |
| `RateLimiter.WaitFits` | rate_limiter.c:46-61 | they fit as soon as capacity plus everything that can flow in until the latest second is below 2^64 |
| `RateLimiter.Limiter.constructor` | rate_limiter.c:9-17 | a new limiter is full and dated now |
| `RateLimiter.Limiter.Refill` | rate_limiter.c:19-31 | the fields become the refilled bucket, and the level stays exact while refills fit |
| `RateLimiter.Limiter.Acquire` | rate_limiter.c:33-44 | 0 and tokens taken when granted, -1 when refused, nothing touched when disabled |
| `RateLimiter.Limiter.Wait` | rate_limiter.c:46-61 | the retry loop makes the attempts above, and `waited` stays below the timeout plus 100 |

## Left out

- ScheduleIndependence.SameAsSerial: says nothing about whether a task was a hit or ran: two tasks with one key may differ in that between schedules; files, keys and result hashes do not.
- Scheduler: outcomes are fixed per task in advance; a stage of a task outside the mutex (hashing, reading the cache, starting and ending the command, recording) is one step each, so two workers never see each other's half-written object or record.
- Failing runs of the executor as written: `ScheduleIndependence.SameAsThrough` covers those that return; about the files of a run that hangs nothing is said.
- Closure.CollectNeeded: requires that no cycle can be reached, because otherwise the recursion never ends (`Closure.DfsEndless`, `Closure.CollectEndsIff`).
- Engine.Build: requires the same, because it collects first.
- Closure.TaskBuffer.Append: models `realloc` as growing the caller's array, although the code updates only a local pointer; past 16 collected tasks its callers go on with the old one, and C does not say what happens then.
- ParallelEngine.ParallelIsSerial: requires unique task names, inside `WellLinked`, as does the valid graph of `ParallelExecutor.ParallelCtx.CompleteTask`; with duplicates the executor counts and counts down at the first bearer of a name, whichever bearer depends or finishes.
- Fixed buffers: lines are cut at 4095 characters as the code cuts them; the 4096-byte buffers of the key text and of the joined output hashes are taken to be long enough (64 joined hashes with their commas are 4159 characters, so 63 outputs are the code's real limit), and the 64 output slots of a record are a precondition (`Cache.WellFormed`).
- Characters are bytes in C; texts here are Dafny strings, and `Hex.TextBytes` takes each character modulo 256.
- Paths of objects and records, directory creation, `stat`, temporary files and the file handles around reads and writes: the store is a map from names to contents and writes to it are atomic.
- Errors of opening or writing files that exist, and `system` failing to start: a command either fails or succeeds with its writes.
- Commands never delete files.
- Unlocked accesses: the graph printer reads the status of tasks that other workers may be writing; it is modelled on its own only.
- `malloc` failures and freeing memory.
- RateLimiter.Limiter.Wait: takes the clock readings as a function of the attempt; for timeouts above 2147483600 the C counter can overflow, which is not modelled.
- `rate_limiter.c` from line 67 on, and `metrics.c`, `config.c`, `security.c`, `error_handling.c`: counters and single-branch checks that would only add easy members.
- `compression.c`, `remote_cas.c`, `notifications.c`, `prometheus.c`, `backup.c`, `lockfile.c`, `logger.c`, `audit.c`, `cli.c`, `progress.c`, `signal_handler.c`, `health_check.c`: stubs, shell-outs, sockets and console output.
- The early returns of `execute_tasks_parallel` for an empty subset and its default of four workers: the protocol starts with any positive number of workers.
- Messages on standard output other than the task graph, and on standard error.
