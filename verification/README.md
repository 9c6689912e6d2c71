# Verified models of the ns-3 scripts and tools

These Dafny modules model the parts of the repository whose behaviour is hardest to see from the
code, and prove what those parts are for.

- **Dependency sorting and cycles** (`bindings/python/topsort.py`, `is_rotated`). A list of
  (parent, child) pairs is a directed graph. `topsort` answers in an order that is sorted by the
  length of the longest chain of predecessors, and fails exactly when the graph has a cycle;
  `topsort_levels` yields the same order cut into levels; `find_cycles` lists one representative of
  every simple cycle. Dictionaries are maps, and the order in which their keys are visited is
  arbitrary. *Graphs, PairMaps, Topsort, TopsortLevels, SorterAgreement, Rotations, FindCycles,
  CycleReport.*
- **The parallel test dispatcher** (`test.py`). The main thread, the workers and the interrupt
  handler take turns in any order; every claim is about all schedules, with any number of jobs and
  workers. *TestDispatch, TestInterrupt, TestReport.*
- **The mini shell** (`waf-tools/shellcmd.py`). `parse` is a state machine over tokens that fills a
  flat node list, `run` is a loop over that list; between them stands a tree of pipelines whose
  meaning is defined by recursion, and beside it the AND-OR list of POSIX. *ShellNodes, ShellParse,
  ShellUnparse, ShellRedirects, ShellRun, ShellMeaning, ShellTrace, ShellSafety, ShellAndOr, ShellStarts,
  ShellLines, ShellExamples, ShellPipeline.*
- **Configuration paths** (`utils/print-introspected-doxygen.cc`). `DoGather` walks a type graph,
  cycles included, with two stacks that it must leave as it found them. *TypeGraph, TypeLinks, Routes,
  StaticInformation.*
- **Patches** (`utils/check-style.py`). Printing patches, parsing them, and when one undoes the
  other. *PatchText, PatchParse, PatchExamples, PatchObjects.*
- **Small algorithms of `rad_util.py`.** Permutations, the binary odometer, Gray code.
  *Permutations, BinaryNumbers.*
- **Video frames** (`scratch/v2x_3gpp_small.cc`). Which frames count as received over any number of
  reports. *VideoFrames, VideoMetrics.*
- **Pending events** (`src/core/model/heap-scheduler.cc`, `src/core/model/calendar-scheduler.cc`). A
  binary heap over an array, and which calls keep it in order; a calendar queue that files events
  into a ring of buckets and resizes itself; and that the two agree over whole runs.
  *SchedulerEvents, HeapOrder, HeapScheduler, CalendarOrder, CalendarResize, CalendarRuns,
  CalendarPace, CalendarFailure, CalendarScheduler.*

*Options*, *Sequences* and *Numbers* hold what several of these modules share.

Where the code keeps state, a method or a class with the code's own variables is proved equal to a
specification function or predicate, and the properties are lemmas about that specification. In
`test.py` the state is shared by threads, so it is a step relation.

Results that a reader may not expect:

- The comment at `bindings/python/topsort.py:109` says that every leftover element has a child. The
  right statement, which the proof uses, is that each has a leftover *parent*: an element that a
  cycle merely leads to is left over too, and may have no child.
- `run` nests connectives to the right, `P1 op (P2 op ...)`, takes a `cd d &&` as part of the command
  after it, ignores a `<` after a pipe, and opens redirect files relative to its own directory.
  Sections 2.9.2 and 2.9.3 of the POSIX.1-2017 Shell Command Language read an AND-OR list from left to
  right, with `cd` as a command of its own, assign the pipe before a command's own redirections, and
  section 2.7 opens the files from the directory that the shell is in. The two agree for all exit
  statuses exactly when the line does not mix `&&` and `||` after commands, no `cd` comes right after
  `||`, what comes right after `|` is neither a `cd` nor a command with a `<` of its own, all redirect
  files after a `cd` have absolute names, and nothing is written to `NUL:`, which only `run` takes for
  the null device (`ParsedAgreesIffPlain`). Five lines where they differ: `a || cd d && b`
  (`OrCdDiffers`), `a | cd d && b` (`PipeCdDiffers`), `a | b < f` (`PipeStdinDiffers`),
  `cd d && a < f` (`CdFileDiffers`) and `a > NUL:` (`NulDiffers`).
- A line can be parsed and still make `run` fail: exactly when it ends in a `cd` or has a `cd`
  without a directory (`ParsedReturnsIffComplete`; `CdAlone`, `CdLast` and `CdNowhere` are such lines).
- parse lets some odd lines through: a redirection at the end of a line without a file goes unnoticed
  (`TrailingRedirection`), and where a command is expected an operator is the name of a command
  (`OperatorAsName`). Otherwise redirections may stand in any order, and a command is rejected exactly when a
  stream is redirected twice (`PiecesParsed`).
- An interrupt makes exactly the jobs that have not been started by then come back as interrupted
  (`InterruptedIffNotStarted`), and one such job is enough for exit code 1 (`SummarizeRun`).
- The numbers of lines in a patch header are not looked at when it is read (`PatchRead`).
- Printing a patch and parsing it gives the patch back exactly when no position is negative, no
  removed line starts with `-- ` and no added line starts with `++ ` (`RoundTripIffReadable`;
  `LookalikesLost` shows what comes back otherwise).
- `HeapScheduler::Remove` moves the last event into the gap and then only down. The heap stays in
  order exactly when that event is not less than its new parent (`RemovedOrderedIff`); otherwise a
  later call can return an event while an earlier one is still waiting (`LateEvent`, for a heap that
  seven insertions build, `SevenBuilt`). Over any run in which every removal fits, RemoveNext returns a
  least event (`RunOrdered`).
- The calendar queue returns a least event whatever widths it chooses (`RemoveNextLeast`, `TimeRises`),
  but the width is cut to 32 bits before it is used as a divisor. It comes out as zero exactly when the
  gaps between the sampled events that are at most twice the average add up to a positive multiple of
  2^32 (`FailsIff`). Five events, each 2^30 after the one before, are enough: the fifth insertion
  divides by zero (`FifthFails`).
- A received frame can be missed in a report: when the last packet in the file belongs to an earlier
  frame (`OutOfOrderMissed`). When packets arrive in order it cannot (`MarkedIffSeen`).
- With no processor at all, the dispatcher waits for ever unless there is no job
  (`DeadlockFreeIff`).

## Model

| member | source | states |
|---|---|---|
| Topsort.Topsort | bindings/python/topsort.py:77-112 | an error is raised exactly when the pairs contain a cycle; the answer holds every item that no cycle reaches, once, sorted by longest chain of predecessors, parents before children, that is, for each pair its first item before its second; the error shows exactly the items that a cycle reaches, and their edges |
| Topsort.DepthOrderPutsParentsFirst | bindings/python/topsort.py:61-64 | an order by depth is a dependency order |
| Topsort.LeftoverIsAfterCycle | bindings/python/topsort.py:108-111 | what still has a parent count is what lies on or below a cycle, and something is left exactly when there is a cycle |
| Topsort.LeftoverKeepsCycles | bindings/python/topsort.py:104-111 | deleting the sorted part from the children dictionary removes no cycle and adds none |
| Topsort.AppendKeepsDepthQueue | bindings/python/topsort.py:97-103 | a child that loses its last parent goes to the end of the answer without breaking the order by depth |
| PairMaps.BuildMaps | bindings/python/topsort.py:77-90 | the two dictionaries count each item's parents and list each parent's children with multiplicity |
| PairMaps.Decrement | bindings/python/topsort.py:100-103 | no decrement meets a missing or a zero count, and a count reaches zero only when the last parent has been removed |
| Graphs.ChainIffWalk | bindings/python/topsort.py:118-122 | an item has a chain of k predecessors exactly when a walk of k edges ends in it |
| Graphs.BoundedIffNotAfterCycle | bindings/python/topsort.py:108-111 | an item has a longest chain exactly when no cycle reaches it |
| TopsortLevels.TopsortLevelsCore | bindings/python/topsort.py:203-232 | level k holds exactly the items whose longest chain has k edges; the error comes exactly when there is a cycle, and the levels yielded before it miss exactly the items that a cycle reaches |
| TopsortLevels.TopsortLevels | bindings/python/topsort.py:157-172 | the same for a list of pairs |
| TopsortLevels.ZeroCountIsDepth | bindings/python/topsort.py:205-212 | among the items left after k levels, a zero count means depth k |
| SorterAgreement.SortersAgree | bindings/python/topsort.py:93-106 | cutting the answer of topsort at the level sizes gives each level, whatever the order of the dictionaries |
| SorterAgreement.SortersCoverTheSame | bindings/python/topsort.py:203-224 | no item of the answer lies beyond the last level |
| Rotations.IsRotated | bindings/python/rad_util.py:761-775 | true exactly when one sequence is a rotation of the other |
| Rotations.RotationTransitive | bindings/python/rad_util.py:735-736 | rotations of rotations are rotations, so rotation classes make sense |
| FindCycles.FindCycles | bindings/python/topsort.py:343-385 | it ends; each yield is a simple cycle, no two are rotations of each other, and every simple cycle is a rotation of a yield |
| FindCycles.CyclesGoAround | bindings/python/topsort.py:362-378 | a simple cycle is a list without repetition in which each item lists the next as a child, and the last one the first |
| FindCycles.SearchFrom | bindings/python/topsort.py:351-385 | the stack search from one root finds every cycle that a path from this root closes, and its weight falls with every pop |
| FindCycles.AllCyclesFound | bindings/python/topsort.py:346-349 | skipping visited start nodes loses no cycle: some searched root reaches each of them |
| FindCycles.ReachedCycleFound | bindings/python/topsort.py:362-385 | a cycle that a searched root can walk to has been found |
| FindCycles.PopKeepsSearching | bindings/python/topsort.py:352-385 | replacing a path on the stack by its extensions loses no path |
| FindCycles.ChildrenWeighLess | bindings/python/topsort.py:351-385 | all extensions of a path together weigh less than the path |
| FindCycles.IsDuplicate | bindings/python/topsort.py:371-375 | a cycle is a duplicate exactly when a rotation of it was yielded |
| CycleReport.OneRepresentative | bindings/python/topsort.py:370-378 | no rotation class is yielded twice |
| CycleReport.SortOrNameCycles | bindings/python/topsort.py:77-112 | topsort and then find_cycles on the children in its error: either the sorted answer, or a listing of exactly the simple cycles of the pairs, one of each rotation class and at least one |
| CycleReport.ErrorNamesEveryCycle | bindings/python/topsort.py:108-111 | find_cycles on the children in an error of topsort names every cycle of the pairs, no other, and at least one |
| TestDispatch.ReachableInv | test.py:929-997 | the invariant of queues, workers and main thread holds in every reachable state |
| TestDispatch.JobsConserved | test.py:929-997 | in every reachable state each dispatched job is in exactly one place: queued, with one worker, finished or collected |
| TestDispatch.StopsOnlyWhenDrained | test.py:936-937 | a worker stops only when all jobs are dispatched and none is left in the queue, and every stop uses up one break job |
| TestDispatch.NoDeadlock | test.py:1648-1651 | unless everything is done, some step other than an interrupt is possible |
| TestDispatch.DeadlockFreeIff | test.py:1346-1366 | no schedule gets stuck exactly when there is a worker, or nothing to do |
| TestDispatch.RunsAreBounded | test.py:1626-1651 | no schedule is longer than five steps per job, four per worker and one interrupt |
| TestDispatch.EveryRunCanFinish | test.py:929-997 | with a worker, or nothing to do, every schedule can be completed without another interrupt |
| TestDispatch.EndsOnlyWhenFinal | test.py:1626-1651 | then a schedule stops, with nothing left but an interrupt, exactly when all results are in and all workers joined |
| TestDispatch.FinalState | test.py:1786-1787 | at the end both queues are empty, each worker ate one break job, and each job was collected exactly once |
| TestInterrupt.NoneStarts | test.py:943-946 | once there has been an interrupt no worker starts a job, over any continuation of the schedule |
| TestInterrupt.InterruptedIffNotStarted | test.py:943-946 | in the end exactly the jobs that had not been started when there had been an interrupt come back as interrupted, and exactly the others as done |
| TestInterrupt.SkippedNeverRun | test.py:952-956 | no worker ever runs a job that is to be skipped |
| TestInterrupt.ResultsWereRun | test.py:948-991 | a result that is not an interruption is that of a job that some worker was running earlier, or that is to be skipped |
| TestInterrupt.UninterruptedAllRun | test.py:929-991 | without an interrupt every job is done, and every one that is not to be skipped was run |
| TestInterrupt.HandedInOrder | test.py:1648-1649 | results are collected in the order in which the workers hand them in |
| TestReport.Summarize | test.py:1641-1677 | passed, failed, valgrind and crashed count the results that are not interruptions, of jobs not to be skipped, with exit status 0, 1, 2 and any other; skipped counts those to be skipped; the lists hold their names in order; the exit code is 0 exactly when each result is of a job to be skipped or with status 0 |
| TestReport.ResultsAreAllJobs | test.py:943-956 | without an interrupt the results are those of all jobs, in some order |
| TestReport.TallyPermute | test.py:1658-1677 | counters and name lists do not depend on the order of the results |
| TestReport.ReportIsScheduleIndependent | test.py:1648-1677 | without an interrupt every schedule reports the same jobs under the same status |
| TestReport.CountersSumToTotal | test.py:1658-1677 | without an interrupt the five counters add up to the number of tests |
| TestReport.ExitCodeMeaning | test.py:1648-1677 | interrupted or not: at the end all collected results pass or are skipped exactly when every dispatched job was reported as passed or skipped |
| TestReport.SummarizeRun | test.py:1641-1868 | at the end of every schedule, interrupted or not, the counters and lists are those, the exit code is 0 exactly when every job was reported and is to be skipped or came back with status 0, and it is 1 if a job had not been started when there had been an interrupt |
| ShellPipeline.Pipeline.CommitCommand | waf-tools/shellcmd.py:101-104 | the current node moves to the end of the list; without one the assertion fails and the list stays |
| ShellPipeline.Pipeline.Parse | waf-tools/shellcmd.py:121-201 | the fields end as the token machine says, it fails exactly when the machine does, and a list that is returned fits the grammar |
| ShellPipeline.Pipeline.Feed | waf-tools/shellcmd.py:137-199 | one turn of the loop does what one step of the token machine does |
| ShellPipeline.Pipeline.Run | waf-tools/shellcmd.py:214-346 | the loop over the copied list ends with the trace and outcome of the recursive specification, and on a complete line starts the commands as they are written |
| ShellParse.ParsedIsGrammatical | waf-tools/shellcmd.py:131-201 | nodes and operators alternate, a command is piped exactly when a pipe follows, and only `&&` may follow a `cd` |
| ShellParse.ParsedIsTree | waf-tools/shellcmd.py:131-201 | a complete parsed line is the flat form of a tree of pipelines, each piped through to its end |
| ShellParse.KeyLength | waf-tools/shellcmd.py:24 | the key of an environment setting takes all leading word characters and no more |
| ShellUnparse.ParseUnparse | waf-tools/shellcmd.py:136-201 | parsing the tokens that spell a tree gives back the tree's nodes |
| ShellUnparse.EnvSettingOf | waf-tools/shellcmd.py:139-141 | a written setting is read as the same key and value |
| ShellRedirects.PiecesParsed | waf-tools/shellcmd.py:155-199 | after a name, words and redirections in any order: parse fails exactly when a stream is redirected twice, and otherwise gives one command with the words in their order and exactly those redirections |
| ShellRedirects.AnyOrder | waf-tools/shellcmd.py:155-199 | errors, a word, output and input in this order give the command with all four |
| ShellRedirects.TrailingRedirection | waf-tools/shellcmd.py:186-201 | a redirection operator at the end of the line has no effect |
| ShellExamples.ASetting | waf-tools/shellcmd.py:24 | a setting with letters of both cases, a digit, an underscore and a dot in its value |
| ShellExamples.NoSettings | waf-tools/shellcmd.py:24 | a dash in the key, an empty key or value, and a space in the value make it no setting |
| ShellExamples.NothingToCommit | waf-tools/shellcmd.py:101-102 | an empty line, a setting alone and a line that ends in an operator are rejected |
| ShellExamples.BadCd | waf-tools/shellcmd.py:144-182 | a `cd` after a setting and a `cd` with two directories are rejected |
| ShellExamples.FileAndPipe | waf-tools/shellcmd.py:166-168 | a command with an output file is not piped |
| ShellExamples.OperatorAsName | waf-tools/shellcmd.py:137-154 | an operator where a command is expected becomes the name of a command |
| ShellRun.ExecPipedCommands | waf-tools/shellcmd.py:203-212 | every process of the pipeline is waited for in order, and the status is that of the last command (section 2.9.2 of the POSIX.1-2017 Shell Command Language) |
| ShellMeaning.RunIsMeaning | waf-tools/shellcmd.py:222-346 | run on a tree's nodes has the right-nested short-circuit meaning of the tree, `cd` included |
| ShellMeaning.StagesConnected | waf-tools/shellcmd.py:242-243 | every stage after the first reads from the pipe of the stage before it |
| ShellStarts.RunsAsWritten | waf-tools/shellcmd.py:222-346 | on a complete line the commands are started in the order of the line, each with its words, settings and streams and in the directory that the cds before it lead to, up to the first whose status stops the line; that status comes back |
| ShellStarts.BaseMeans | waf-tools/shellcmd.py:228 | the directory starts at the last absolute one named, or at the dot, and goes through all later ones |
| ShellStarts.PathMoves | waf-tools/shellcmd.py:282-285 | the directory is the caller's own exactly when there was no `cd` |
| ShellExamples.AndLine | waf-tools/shellcmd.py:328-341 | after an and the second command is started exactly when the first returns 0, and the status is that of the last one started |
| ShellExamples.OrLine | waf-tools/shellcmd.py:312-327 | after an or the second command is started exactly when the first does not return 0, and the status is that of the last one started |
| ShellExamples.PipeLine | waf-tools/shellcmd.py:203-212 | the whole trace of two piped commands, and the status of the second |
| ShellExamples.CdRelative | waf-tools/shellcmd.py:225-231 | `cd d && a` starts a in `./d` |
| ShellExamples.CdAbsolute | waf-tools/shellcmd.py:225-231 | `cd /d && a` starts a in `/d` |
| ShellExamples.CdTwice | waf-tools/shellcmd.py:225-231 | `cd d && cd e && a` starts a in `./d/e` |
| ShellExamples.NulDiffers | waf-tools/shellcmd.py:252-260 | the whole traces of a command that writes to `NUL:`: run gives it the null device, the list a file |
| ShellTrace.EverythingSettled | waf-tools/shellcmd.py:203-206 | on every normal return each started process was waited for exactly once and each opened file closed exactly once |
| ShellTrace.FinishKeepsLedger | waf-tools/shellcmd.py:296-305 | finishing a pipeline waits for all processes that were still to be waited for and closes all files that were still open |
| ShellTrace.DevNullNeverClosed | waf-tools/shellcmd.py:301-303 | whatever the nodes and the statuses, and however run ends, the shared dev_null is never closed |
| ShellSafety.GrammaticalOutcome | waf-tools/shellcmd.py:222-250 | on a parsed line run fails no node-type assertion and never falls out of its loop |
| ShellSafety.AlwaysReturnsIffComplete | waf-tools/shellcmd.py:225-232 | run returns a status whatever its processes do exactly when no `cd` lacks a directory and none is last |
| ShellAndOr.AgreesIffPlain | waf-tools/shellcmd.py:222-346 | on a complete line run does what the left-to-right AND-OR list says, for all outcomes, exactly when the connectives after commands are not mixed, no `cd` comes right after an or, what comes right after a pipe is neither a `cd` nor a command with its own stdin file, all redirect files after a `cd` have absolute names, and nothing is written to `NUL:` |
| ShellAndOr.PlainAgrees | waf-tools/shellcmd.py:306-346 | on such a line the two agree from every head of the loop, events and status included |
| ShellAndOr.PipedCdDiffers | waf-tools/shellcmd.py:225-231 | at a `cd` in a pipe the list waits for the commands before it, while run starts the next command |
| ShellAndOr.CommandDiffers | waf-tools/shellcmd.py:242-274 | at a command in a pipe with its own stdin file, or with a redirect file that a shell would open elsewhere, the traces of run and of the list differ for good |
| ShellAndOr.StopDiffers | waf-tools/shellcmd.py:312-341 | where a connective stops run and a different one follows later, the list starts more processes |
| ShellLines.ParsedRunIsMeaning | waf-tools/shellcmd.py:121-346 | for tokens that parse to a complete line, run computes the meaning of a tree whose flat form was parsed |
| ShellLines.ParsedReturnsIffComplete | waf-tools/shellcmd.py:121-346 | for tokens that parse, run returns a status whatever its processes do exactly when the line is complete |
| ShellLines.ParsedAgreesIffPlain | waf-tools/shellcmd.py:121-346 | for tokens that parse to a complete line, run agrees with the AND-OR list exactly when the line is plain |
| ShellLines.CdAlone | waf-tools/shellcmd.py:225-226 | `cd` is parsed, and run raises an IndexError |
| ShellLines.CdLast | waf-tools/shellcmd.py:225-226 | `cd d` is parsed, and run raises an IndexError |
| ShellLines.CdNowhere | waf-tools/shellcmd.py:225-228 | `cd && a` is parsed, and run raises a TypeError |
| ShellLines.OrCdParsed | waf-tools/shellcmd.py:136-201 | the first of the lines that differ is parsed as a command, an or, a `cd`, an and, a command |
| ShellLines.OrCdNotPlain | waf-tools/shellcmd.py:136-201 | that line is complete and does not mix connectives after commands, and is still not plain |
| ShellLines.OrCdDiffers | waf-tools/shellcmd.py:320-323 | when a succeeds, run starts one process and the list starts two |
| ShellLines.PipeCdParsed | waf-tools/shellcmd.py:136-201 | the second of the lines that differ is parsed as a piped command, a pipe, a `cd`, an and, a command |
| ShellLines.PipeCdNotPlain | waf-tools/shellcmd.py:136-201 | that line is complete and does not mix connectives after commands, and is still not plain |
| ShellLines.PipeCdDiffers | waf-tools/shellcmd.py:225-243 | the whole traces: run starts b in d reading from a, the list waits for a and starts b where it was |
| ShellLines.PipeStdinParsed | waf-tools/shellcmd.py:136-201 | the third of the lines that differ is parsed as a piped command, a pipe, and a command with a stdin file |
| ShellLines.PipeStdinNotPlain | waf-tools/shellcmd.py:136-201 | that line is complete and does not mix connectives after commands, and is still not plain |
| ShellLines.PipeStdinDiffers | waf-tools/shellcmd.py:242-249 | the whole traces: run never opens the file and b reads from a, in the list b reads the file |
| ShellLines.CdFileParsed | waf-tools/shellcmd.py:136-201 | the fourth of the lines that differ is parsed as a `cd`, an and, a command with a stdin file |
| ShellLines.CdFileNotPlain | waf-tools/shellcmd.py:136-201 | for a relative file name the line is complete, mixes no connectives and has no pipe, and is still not plain |
| ShellLines.CdFileDiffers | waf-tools/shellcmd.py:225-249 | the whole traces: run opens the file in its own directory, the list in d; both start the command in d |
| StaticInformation.StaticInformation.DoGather | utils/print-introspected-doxygen.cc:1185-1269 | it ends on every graph, restores both stacks, and appends the entries gathered for the type under the current path, none if the type is on the stack |
| StaticInformation.GatheredIsRoutes | utils/print-introspected-doxygen.cc:1189-1269 | those entries are one for each edge path that repeats no type and avoids the stack, in depth-first order |
| StaticInformation.StaticInformation.Gather | utils/print-introspected-doxygen.cc:1176-1182 | starting with empty stacks it leaves them empty and appends one entry for each edge path from the type that repeats no type |
| StaticInformation.StaticInformation.RecordAggregationInfo | utils/print-introspected-doxygen.cc:1056-1076 | the pair is recorded, or the first unknown name is |
| StaticInformation.StaticInformation.RecordOutput | utils/print-introspected-doxygen.cc:1105-1110 | the type is recorded under the rendered current path |
| StaticInformation.StaticInformation.GetCurrentPath | utils/print-introspected-doxygen.cc:1091-1102 | a slash before every step |
| StaticInformation.StaticInformation.HasAlreadyBeenProcessed | utils/print-introspected-doxygen.cc:1113-1125 | true exactly when the type is on the stack |
| StaticInformation.StaticInformation.Get | utils/print-introspected-doxygen.cc:1128-1142 | the recorded paths of the type, in order |
| StaticInformation.FoundIffNamed | utils/print-introspected-doxygen.cc:1128-1142 | after gathering, a path is found for a type exactly when it names a path along edges to it that repeats no type |
| StaticInformation.PathsInOrder | utils/print-introspected-doxygen.cc:1128-1142 | what is found for a type is every path recorded for it, in the order in which they were recorded |
| TypeLinks.EdgeIff | utils/print-introspected-doxygen.cc:1193-1267 | an edge leaves a type exactly for a pointer attribute, unless it points to Object, for a container attribute, for a registered child, and for either side of an aggregation, each with its step |
| TypeLinks.EdgesAreLinks | utils/print-introspected-doxygen.cc:1193-1267 | the edges come one from each attribute, registered type and aggregation that gives one, in this order |
| TypeLinks.AggregatedBothWays | utils/print-introspected-doxygen.cc:1250-1266 | an aggregation of two types is followed from each of them to the other |
| TypeLinks.RenderThree | utils/print-introspected-doxygen.cc:1091-1102 | a path of three steps is written with a slash before each |
| Routes.ListedIffSimple | utils/print-introspected-doxygen.cc:1189-1269 | a route is gathered exactly when it follows edges and visits no type twice |
| Routes.ListedOnce | utils/print-introspected-doxygen.cc:1185-1269 | no route is gathered twice |
| Routes.RoutesInOrder | utils/print-introspected-doxygen.cc:1193-1269 | depth first: a route before its continuations, earlier edges before later ones |
| PatchText.HeaderCountsTrue | utils/check-style.py:286-295 | every written header, negative positions included, carries the true numbers of source and destination lines written below it, and is read back unless a position is negative |
| PatchText.NumberOfDigits | utils/check-style.py:292-293 | a decimal number reads back as itself |
| PatchText.HeaderRead | utils/check-style.py:362 | the header pattern finds the four numbers that were written |
| PatchText.ItemRead | utils/check-style.py:360-402 | a written line is recognised as what it is exactly when it does not look like a file line and has no negative position |
| PatchParse.PatchesRead | utils/check-style.py:366-403 | the sequence of file, header and body lines of any patches builds the same patches |
| PatchParse.RoundTripIffReadable | utils/check-style.py:348-403 | parsing what was written gives the patches back exactly when every written line is readable |
| PatchParse.LookalikesLost | utils/check-style.py:369-383 | a removed line `-- name` comes back as the start of another patch, an added line `++ name` as the destination of its own patch |
| PatchExamples.HeaderWritten | utils/check-style.py:292-293 | the text of a header: at signs, a minus, the source position and count, a plus, the destination position and count, at signs |
| PatchExamples.HeaderLineRead | utils/check-style.py:362 | a line of that form is read as a header with its two positions, whatever the counts and whatever follows |
| PatchExamples.PatchRead | utils/check-style.py:359-403 | a whole patch written out, with any names, numbers and texts, and what it is read as |
| PatchExamples.SourceLineFirst | utils/check-style.py:366-402 | a first line that is not a source file line raises an exception |
| PatchExamples.LastLineRead | utils/check-style.py:363-365 | a last line without a newline is read like the others |
| PatchExamples.OneHundredTwo | utils/check-style.py:292-293 | numbers are written in decimal, negative ones with a minus |
| PatchObjects.PatchChunk.Write | utils/check-style.py:286-295 | a chunk's header, of that text, and then its lines, with their marks, are appended to the file |
| PatchObjects.PatchChunk.Src | utils/check-style.py:254-263 | the lines that are in the source, in order |
| PatchObjects.PatchChunk.Dst | utils/check-style.py:264-273 | the lines that are in the destination, in order |
| PatchObjects.Patch.Write | utils/check-style.py:348-357 | the two file lines and then all chunks are appended to the file |
| PatchObjects.Patch.AddChunk | utils/check-style.py:313-319 | the chunk is appended and nothing else changes |
| PatchObjects.OnLine | utils/check-style.py:368-402 | one line changes the patch and chunk objects as one step of the specification does, and fails exactly when that step does |
| PatchObjects.ParseLines | utils/check-style.py:359-403 | the loop fails exactly when the specification does, and otherwise builds fresh objects that stand for its patches |
| Permutations.Permute | bindings/python/rad_util.py:310-326 | the loops build the specified list |
| Permutations.Perms | bindings/python/rad_util.py:310-326 | n! lists, all as long as the input |
| Permutations.ListedIffRearrangement | bindings/python/rad_util.py:310-326 | a list is among them exactly when it is a rearrangement of the input |
| Permutations.PermsDistinct | bindings/python/rad_util.py:310-326 | for distinct items no list occurs twice |
| BinaryNumbers.Int2BinExact | bindings/python/rad_util.py:91-105 | the result is the n-digit form of the number, and the error comes exactly when the number is 2^n or more |
| BinaryNumbers.BinaryDecodes | bindings/python/rad_util.py:130 | reading the n-digit form gives the number back |
| BinaryNumbers.BinaryOfValue | bindings/python/rad_util.py:130 | a binary string is the form of the number it reads as |
| BinaryNumbers.BinaryRange | bindings/python/rad_util.py:639-660 | 2^bits entries, the k-th of them the form of k; none for zero bits |
| BinaryNumbers.Ripple | bindings/python/rad_util.py:649-659 | the carry loop adds one, overflows exactly at the highest number, and changes exactly the positions up to the last it visits |
| BinaryNumbers.RangeIsInt2Bin | bindings/python/rad_util.py:632-660 | each entry is what int2bin gives and decodes to its index |
| BinaryNumbers.GrayNeighbours | bindings/python/rad_util.py:612-615 | the Gray codes of k and k + 1 differ in exactly one bit, the highest that the carry loop changes |
| BinaryNumbers.GrayDigits | bindings/python/rad_util.py:612-660 | written in n digits the two codes differ in exactly one digit, the last that the carry loop visits |
| BinaryNumbers.GrayBits | bindings/python/rad_util.py:612-615 | bit j of a Gray code is set exactly when bits j and j + 1 of the number differ |
| BinaryNumbers.DocumentedExamples | bindings/python/rad_util.py:78-86 | the examples of the documentation |
| VideoMetrics.Receiver.VideoTraceParse | scratch/v2x_3gpp_small.cc:338-344 | both arrays hold, for each frame, the first packet and the type of its last line in the trace |
| VideoMetrics.Receiver.WriteMetrics | scratch/v2x_3gpp_small.cc:380-480 | one report turns the receiver's state into the specified one; before there are 20 frames it gives no losses, and then for each kind the share not received among the first 19 frames of the last whole group of 20, told by the letters of the frame types |
| VideoMetrics.Receiver.MarkFrames | scratch/v2x_3gpp_small.cc:425-442 | the frames marked and the last of them are as specified |
| VideoMetrics.Receiver.CountFrames | scratch/v2x_3gpp_small.cc:460-477 | all frames of a kind in the window, and those of them that are marked |
| VideoFrames.TraceTiles | scratch/v2x_3gpp_small.cc:338-344 | a trace of all frames in order tiles the packets from 1 to their number, and gives each frame as many as its line says |
| VideoFrames.TilesWithinArray | scratch/v2x_3gpp_small.cc:426-436 | then a scan stays within the array, whatever the packet file says |
| VideoFrames.OneFrameEach | scratch/v2x_3gpp_small.cc:425-427 | then every packet belongs to exactly one frame |
| VideoFrames.FramesMarked | scratch/v2x_3gpp_small.cc:426-442 | over any sequence of reports, and any frame starts, a frame is marked exactly when at some report all its packets had been seen and the file did not end before it; so marks are never wrong and never revert |
| VideoFrames.MarkedIffSeen | scratch/v2x_3gpp_small.cc:429-441 | when the last file ends with the highest packet seen, a frame with packets is marked exactly when all of them were seen |
| VideoFrames.OutOfOrderMissed | scratch/v2x_3gpp_small.cc:429-431 | out of order, a complete frame can stay unmarked |
| VideoFrames.LastFrameMarked | scratch/v2x_3gpp_small.cc:438-441 | the last received frame is the highest that this scan marks, or the old one if it marks none |
| VideoFrames.LossMeans | scratch/v2x_3gpp_small.cc:478-480 | a loss lies between 0 and 100, and is 0 exactly when every frame of its kind in the window is marked |
| VideoFrames.PercentageMeans | scratch/v2x_3gpp_small.cc:478-480 | the loss times the total is a hundred times the number not received, and it is 100 exactly when none was |
| VideoFrames.LossOfLetters | scratch/v2x_3gpp_small.cc:460-480 | the loss of a kind by letters: intra frames carry I or H, predicted ones P and neither of these, bidirectional ones B and none of the three |
| VideoFrames.LossNeverRises | scratch/v2x_3gpp_small.cc:478-480 | a later report gives no higher loss for the same window |
| HeapScheduler.HeapScheduler.Insert | src/core/model/heap-scheduler.cc:201-207 | the event is added, nothing is lost, and a heap in order stays in order |
| HeapScheduler.HeapScheduler.PeekNext | src/core/model/heap-scheduler.cc:209-214 | an event of the heap, and no event is less than it if the heap is in order |
| HeapScheduler.HeapScheduler.RemoveNext | src/core/model/heap-scheduler.cc:215-224 | one event is taken out; if the heap is in order it is a least one and the heap stays in order |
| HeapScheduler.HeapScheduler.Remove | src/core/model/heap-scheduler.cc:227-244 | it succeeds exactly when an event has the number; the first event with the number goes and no other, and a heap in order stays so exactly when the last event fits in its place |
| HeapScheduler.HeapScheduler.IsEmpty | src/core/model/heap-scheduler.cc:145-150 | true exactly when there is no event |
| HeapOrder.SiftUpOrders | src/core/model/heap-scheduler.cc:152-163 | moving the new event up restores the order |
| HeapOrder.SiftDownOrders | src/core/model/heap-scheduler.cc:165-198 | moving an event down restores the order if only the edges below it can be wrong |
| HeapOrder.RemovedOrderedIff | src/core/model/heap-scheduler.cc:232-241 | removing the event at i from a heap in order leaves a heap in order exactly when the last event is not less than the parent of i, or i has no parent, or is last |
| HeapOrder.NextRemoved | src/core/model/heap-scheduler.cc:219-223 | taking out the root of a heap in order takes a least event and keeps the order |
| HeapOrder.DrainedInOrder | src/core/model/heap-scheduler.cc:215-224 | from a heap in order the events come out in order of time, each once |
| HeapOrder.CallOrdered | src/core/model/heap-scheduler.cc:201-244 | a call leaves a heap in order exactly when it is not a removal by number after which the last event does not fit |
| HeapOrder.RunOrdered | src/core/model/heap-scheduler.cc:201-244 | after any sequence of calls of Insert, RemoveNext and Remove in which every removal fits, the heap is in order and its next event is a least one |
| HeapOrder.SevenBuilt | src/core/model/heap-scheduler.cc:201-207 | an empty heap becomes that heap by seven insertions |
| HeapOrder.SevenBreaks | src/core/model/heap-scheduler.cc:237-239 | a heap of seven events in order, and a removal that breaks it |
| HeapOrder.LateEvent | src/core/model/heap-scheduler.cc:237-239 | after that removal the third event to come out is later than one that is still waiting |
| SchedulerEvents.LeastMeans | src/core/model/scheduler.h:153-169 | a least event has the earliest time, and the lowest number among those of that time |
| SchedulerEvents.SortedMeans | src/core/model/scheduler.h:153-169 | in order, times rise, and events of the same time come by rising number |
| SchedulerEvents.TakenInOrder | src/core/model/scheduler.h:123-129 | any queue whose removal takes out a least event gives its events in order, as many as are asked for, and keeps the rest |
| CalendarOrder.RemoveNextLeast | src/core/model/calendar-scheduler.cc:169-214 | with events filed by day and none before the last one removed, the event that comes out is a least one, exactly that event goes, and the next search starts in the right bucket on the right day |
| CalendarOrder.SearchFinds | src/core/model/calendar-scheduler.cc:182-211 | once around the ring: the first event of a bucket that falls on the day whose turn it is, or else the least of all first events, is a least event |
| CalendarOrder.DoInsertFiles | src/core/model/calendar-scheduler.cc:99-118 | the event is filed in its bucket, which stays sorted, and nothing is lost |
| CalendarResize.FiledUnique | src/core/model/calendar-scheduler.cc:99-118 | the events, the width and the number of buckets determine every bucket |
| CalendarResize.SamplingRestores | src/core/model/calendar-scheduler.cc:300-322 | taking the samples out, putting them back and restoring the position leaves the calendar as it was |
| CalendarResize.WidthZeroIff | src/core/model/calendar-scheduler.cc:324-354 | the width is zero exactly when the gaps that count add up to a positive multiple of 2^32 |
| CalendarResize.DoResizeKeeps | src/core/model/calendar-scheduler.cc:356-374 | with any number of buckets and any positive width, moving keeps all events and everything the search relies on |
| CalendarRuns.Unsettled | src/core/model/calendar-scheduler.cc:99-253 | before any resize: an insertion adds its event, RemoveNext takes out a least one, Remove an event of that bucket with that number, and everything the search relies on still holds |
| CalendarRuns.Called | src/core/model/calendar-scheduler.cc:120-275 | whatever rule chooses the widths, resizing changes neither the events nor the time, and the call fails exactly when it resizes and the new width is zero |
| CalendarRuns.TimeRises | src/core/model/calendar-scheduler.cc:216-229 | over any run the times of the events that RemoveNext returns never fall |
| CalendarRuns.EventsConserved | src/core/model/calendar-scheduler.cc:120-275 | over any run every event that was inserted is waiting or was taken out, and not both |
| CalendarRuns.SchedulersAgree | src/core/model/calendar-scheduler.cc:120-275 | on any run that both schedulers get through, with removals whose number one event has and that fit the heap, the calendar and the heap hold the same events and have the same next event |
| CalendarPace.BucketsKeepPace | src/core/model/calendar-scheduler.cc:255-275 | over any run the number of buckets is a power of two up to 32768, with at most two events for each bucket unless there are that many, and at least one for every two but at the very beginning |
| CalendarPace.EvenWidth | src/core/model/calendar-scheduler.cc:324-354 | for samples at even distances the width is three times the time from the first to the last, cut to 32 bits |
| CalendarPace.FarEventIgnored | src/core/model/calendar-scheduler.cc:336-349 | a gap of more than twice the average does not count |
| CalendarFailure.FailsIff | src/core/model/calendar-scheduler.cc:255-283 | a call divides by zero exactly when it has to resize and the sampled gaps add up to a positive multiple of 2^32 |
| CalendarFailure.FifthFails | src/core/model/calendar-scheduler.cc:352-375 | five insertions, each 2^30 after the one before, into an empty calendar end in a division by zero |
| CalendarScheduler.CalendarScheduler.DoInsert | src/core/model/calendar-scheduler.cc:99-118 | the loop puts the event before the first greater one of its bucket |
| CalendarScheduler.CalendarScheduler.PeekNext | src/core/model/calendar-scheduler.cc:134-167 | the event that RemoveNext would return |
| CalendarScheduler.CalendarScheduler.DoRemoveNext | src/core/model/calendar-scheduler.cc:169-214 | the loop and the updates of the position do what the specification says |
| CalendarScheduler.CalendarScheduler.CalculateNewWidth | src/core/model/calendar-scheduler.cc:277-355 | the specified width, and the calendar is the same afterwards |
| CalendarScheduler.CalendarScheduler.DoResize | src/core/model/calendar-scheduler.cc:356-374 | the events of the old buckets are filed into fresh ones |
| CalendarScheduler.CalendarScheduler.Insert | src/core/model/calendar-scheduler.cc:120-127 | for an event that is not in the past: it is added and nothing else changes, unless the resize divides by zero |
| CalendarScheduler.CalendarScheduler.RemoveNext | src/core/model/calendar-scheduler.cc:216-229 | a least event is returned, and only that event goes, unless the resize divides by zero |
| CalendarScheduler.CalendarScheduler.Remove | src/core/model/calendar-scheduler.cc:231-253 | it succeeds exactly when the event's bucket holds its number, and takes out the first event there that has it |
| CalendarScheduler.CalendarScheduler.IsEmpty | src/core/model/calendar-scheduler.cc:128-133 | true exactly when there is no event |

## Left out

- Generators (`topsort_levels_core`, `find_cycles`): modelled as the full list of yields and the error that ends it, not as something a caller may abandon half way.
- TopsortLevels.TopsortLevelsCore: the two dictionaries must belong to one list of pairs, as the documentation of the arguments says; nothing is claimed for dictionaries that contradict each other.
- Rotations.IsRotated: two empty sequences are excluded, because the code then looks up the first item of an empty sequence.
- Threads, queues and `Job` objects of `test.py` as objects: they are values in a step relation, so a job that is changed through two references is not captured; the relation has the effect of each atomic step. A second interrupt changes nothing and is not a step.
- Exit statuses of commands are parameters, in `test.py` and in `shellcmd.py`. Commands are assumed to return, and an exception raised inside a worker or by `open` or `Popen` is not modelled.
- `test.py` otherwise: building and choosing tests, valgrind, XML and HTML output, printing.
- `shlex.split`: the command line is given as a list of tokens. White space in an environment value is that of Python 3 strings.
- ShellUnparse.ParseUnparse: only lines that tokens can spell at all, that is, no command name that reads as a setting or as `cd`, and no operator among the arguments.
- `run` is modelled with verbose off: with it on, a line with `&&` or `||` reads `retval` before it is set (waf-tools/shellcmd.py:322). `get_abbreviated_command` never shows `||` (line 117) and is left out too. `os.path.join` is the POSIX one.
- The `TypeId` system of ns-3: an arbitrary finite closed graph with an arbitrary child-of relation.
- StaticInformation.StaticInformation.Gather: nothing is claimed about duplicates in the output, because `Uniquefy` takes its container by value and has no effect; for the same reason `GetNoTypeIds` and `Print` are left out.
- `PatchChunkLine` is a value with one of its three types; the exception for a line without a type and `append_to_line` are not modelled.
- PatchParse.RoundTripIffReadable: for texts without newlines, each of which is one written line.
- HeapScheduler.HeapScheduler.PeekNext: an empty heap is excluded, as the documentation of the scheduler says; so it is for RemoveNext.
- The AND-OR list: the order of redirections is lost by parse (`a 2>&1 > f` and `a > f 2>&1` give the same nodes, which section 2.7 tells apart), so the list takes them as parsed; its `cd` is assumed to succeed and is its only built-in; the words are those that parse sees, so other operators and quoting mean nothing special; file names are compared as written.
- CalendarScheduler.CalendarScheduler.Insert: events before the last one removed are excluded, as the simulator asserts (src/core/model/default-simulator-impl.cc:236); time stamps are unbounded, so a bucket top beyond 2^64, and the time stamp 2^64 - 1, which the search takes for no event, are not modelled.
- CalendarScheduler.CalendarScheduler.RemoveNext: an empty calendar is excluded, as the assertion says; so it is for PeekNext. Remove reports a missing event instead of failing the assertion.
- The schedulers over `std::map` and `std::list`, the implementation pointer and the context of an event, and array positions beyond 32 bits.
- `remove_trailing_whitespace_changes` and the rest of `check-style.py`: the former may change a shared context line.
- BinaryNumbers.Int2BinExact: natural numbers and at least one digit; negative numbers and n = 0 are left out, as are strings that are not binary for `bin2int`.
- The other helpers of `rad_util.py`: floats, rounding, statistics, greatest common factors.
- VideoMetrics.Receiver.WriteMetrics: frame starts for which the scan would read outside the array of packets are excluded; one receiver instead of the loop over cells and users; the file of received packets is a list of packet numbers, all within the array; the 61-packet quality window, the averages kept in files and the external classifier are left out. Losses are exact numbers instead of doubles.
- VideoMetrics.Receiver.VideoTraceParse: the packet numbers are assumed to stay below 2^31, as they do for every configured trace; opening the file is left out.
- The rest of the simulation script, which drives the LTE and mobility models under `src/`.
- `utils/grid.py`: drawing with GTK and cairo around binary searches. The plotting scripts: calls of plotting libraries.
- The waf compiler and boost tools: calls into waf. The binding glue: declarations of types. The example programs of ns-3: scenarios for the models under `src/`.
- The network models under `src/`.
