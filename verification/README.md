# Dafny models of the ns-3 tooling algorithms

The ns-3 repository keeps, next to the simulator, a layer of tools with algorithms of their own.
This project models them in Dafny and proves what they are for. Code that changes state step by
step is modelled that way (classes, arrays, loops over mutable variables); each such method is
proved against a specification, and the lemmas prove what the specification means.

| area | files |
|---|---|
| dependency sorting and cycle finding (`bindings/python/topsort.py`) | `Graphs`, `DependencyTables`, `TopSort`, `TopSortLevels`, `TopSortAgreement`, `Rotations`, `FindCycles`, `CycleDebugging` |
| the concurrent test runner (`test.py`) | `Sums`, `JobRunner`, `JobQueues`, `JobInterrupts`, `JobTallies`, `JobReports` |
| the shell pipeline parser and executor (`waf-tools/shellcmd.py`) | `ShellParser`, `ShellGrammar`, `ShellSentences`, `ShellRun`, `ShellPaths`, `ShellOperators`, `ShellLists`, `ShellFailures` |
| unified diffs: reading, writing, rewriting (`utils/check-style.py`) | `PatchText`, `PatchHeaders`, `PatchRoundTrip`, `PatchReadable`, `PatchRewrite`, `PatchRestored`, `PatchObjects` |
| gathering configuration paths (`utils/print-introspected-doxygen.cc`) | `Gathering`, `GatheringGraph` |
| permutations and binary numerals (`bindings/python/rad_util.py`) | `Permutations`, `BinaryStrings` |
| the resumable sender and the fairness index (`examples/tcp`) | `LargeTransfer`, `Fairness` |
| shared | `Wrappers`, `Paths` (text between slashes) |

## How the systems are modelled

**Dependency sorting.** Elements are of an abstract type with equality. The two dictionaries are
maps that the methods reassign; `answer` grows while a loop walks it. Dictionary order is left open:
a set of keys is walked in an arbitrary order, so every result holds for all orders. The ghost result
`q` of a sort is the problem it solved (the pairs, their endpoints, the child lists as built). Depth
is the length of the longest incoming walk. Generators are the sequence of values they yield, with
how they end.

**Cycle finding.** The stack of paths, `visited_nodes` and `cycles` are the loop's variables. The
loop ends because the sum of `(d + 1)^(N - |path|)` over the stack falls, where `d` bounds the number of
children and `N` is the number of nodes (`FindCycles.WeightDrops`).

**Test runner.** A state holds both queues, every worker's phase, the dispatcher's position and the
interrupt flag; an action is one atomic step of one thread, or the interrupt. A run is any sequence of
possible actions, so theorems over runs hold for every interleaving. A test's exit code is given with
the test.

**Shell.** The token machine is a step function and, independently, a method on a mutable
`Pipeline` object; the executor is a loop over nodes. A process's exit status is an arbitrary function
of everything started up to it. What is observed of a run is each process's command line, stream wiring,
environment assignments and directory, in order, and the status that comes back.

**Diffs.** Lines are strings without newlines. The rewrite works on line objects that the source and
destination views of a chunk share.

**Gathering.** The type library is abstract: attributes, names, registration and the child relation are
arbitrary functions; the types that can be met form a finite set.

**Sender.** The socket's free space and its willingness to take bytes are arbitrary functions of time.
Time passes with every write and, by any amount, before every callback, so a full buffer may have room
again when the next callback comes. A write is refused or takes at least one byte.

## Where the code departs from what one would expect

- `run` nests `&&` and `||` to the right: `a && b || c` stops after a failing `a`. In the AND-OR lists of
  section 2.9.3 of the POSIX.1-2017 Shell Command Language every `cd` is an element of its own and the
  operators count from left to right. On chains of pipes `run` agrees with them, whatever the commands
  return, exactly if one operator joins all the pipes (the `&&` that follows a `cd` not counted) and, where
  that is `||`, no pipe after the first is led by a `cd` (`ShellLists.AgreesIffPlain`). So `cd d && a || b`
  agrees; `a || cd d && b` does not: the list starts `b` after a successful `a`, `run` does not
  (`ShellLists.ChdirAfterOr`).
- A `cd` behind a pipe is no command. A pipeline in which one stands there is no and/or chain at all
  (`ShellRun.ChainIffLead`). The `&&` after it is ignored: in `a | cd d && b`, wherever it occurs, `b` is
  started whenever `a` is, whatever statuses come back, and reads from it (`ShellFailures.ChdirInsidePipe`).
- A parsed pipeline may make `run` raise: iff some `cd` names no directory or has no command after it
  (`ShellFailures.StatusIffComplete`).
- A redirection sign that ends the command line, with no file name after it, is accepted and ignored
  (`ShellSentences.DanglingIgnored`).
- `is_rotated` raises an IndexError on two empty lists; `find_cycles` never passes it any.
- A removed line that starts with `-- `, or an added one that starts with `++ `, is read back as a file
  name; all other patchsets survive writing and reading (`PatchRoundTrip.RoundTripIff`).
- `remove_trailing_whitespace_changes` compares the i-th source line with the i-th destination line.
  When the views are out of step it can change a line that the source shares
  (`PatchRewrite.SourceCanChange`); exactly when is `PatchRewrite.SourceKeptIff`. A pair may then miss
  its purpose: exactly when is `PatchRestored.WhitespaceRestored`, a case is in `PatchRestored.HeaderCascades`. An added `++` becomes `++ `, which reads as a file
  name, exactly when its source partner reads `++ ` at its turn (`PatchRestored.RewrittenReadsBackIff`);
  `PatchRestored.HeaderAppears` and `PatchRestored.HeaderCascades` are chunks where that happens. The first
  chunk that runs out of destination lines ends the whole rewrite.
- `binary_range(0)` is empty rather than the one numeral of width zero.
- The fairness products stay inside 64 bits while every counter is at most `(2^32 - 1) / n`; for equal
  flows no larger bound would do (`Fairness.EqualFlowsFitIff`).

## Model

| member | source | states |
|---|---|---|
| `Graphs.AcyclicIffNoSimpleCycle` | bindings/python/topsort.py:108-112 | a graph has no cycle iff it has none without repeated nodes |
| `Graphs.LevelIffDepth` | bindings/python/topsort.py:203-224 | the nodes peeled off in round k are those whose longest incoming walk has k edges |
| `Graphs.LongWalkHasCycle` | bindings/python/topsort.py:108-112 | pigeonhole: a walk longer than the number of nodes goes round a cycle |
| `Graphs.BelowCycleIffNeverPeeled` | bindings/python/topsort.py:108-112 | removing parentless nodes for ever spares exactly the nodes on or below a cycle |
| `DependencyTables.CountAfterRemoving` | bindings/python/topsort.py:97-104 | removing a parent takes one off a child's count per occurrence in its child list, so duplicate pairs balance |
| `DependencyTables.BuildTables` | bindings/python/topsort.py:75-89 | from any pair list: one count per endpoint, the number of pairs making it a child; child lists in pair order and for no one else |
| `DependencyTables.ParentlessKeys` | bindings/python/topsort.py:92-92 | every key with count zero, once, and nothing else |
| `DependencyTables.StuckIsResidue` | bindings/python/topsort.py:108-111 | when no parentless key is left, the keys left are exactly the elements on or below a cycle, each counting its edges from keys that are left |
| `TopSort.TakeOut` | bindings/python/topsort.py:97-106 | one round of the loop over the growing list keeps the list distinct, parents first and layered by depth, and equal to the elements whose parents are all gone |
| `TopSort.Topsort` | bindings/python/topsort.py:61-112 | succeeds iff the pairs have no cycle; then every element appears once, parents before children, depths never falling; otherwise the error carries a sorted part and the exact residue |
| `TopSort.LeftoverHasCycle` | bindings/python/topsort.py:108-111 | the keys left by a failed sort contain a concrete cycle |
| `TopSortLevels.ZeroIsLevel` | bindings/python/topsort.py:203-206 | after k rounds the parentless keys are exactly the elements of depth k |
| `TopSortLevels.Strip` | bindings/python/topsort.py:210-224 | taking one parent of a level out of the dictionaries |
| `TopSortLevels.TopsortLevelsCore` | bindings/python/topsort.py:174-232 | the k-th yield is exactly the elements of depth k, once each; the end is normal or an error with the exact residue |
| `TopSortLevels.TopsortLevels` | bindings/python/topsort.py:114-172 | the pair-list form ends normally iff the pairs have no cycle |
| `TopSortAgreement.ResidueIsUnique` | bindings/python/topsort.py:108-111 | what a failed sort leaves behind does not depend on the processing order |
| `TopSortAgreement.OrderIsLevelwise` | bindings/python/topsort.py:97-106 | a sorted list is the concatenation of the levels, each permuted |
| `TopSortAgreement.FormsAgree` | bindings/python/topsort.py:97-111 | both forms succeed together, list the same levels, and on failure leave the same dictionaries |
| `TopSortAgreement.SortsOfPairsAgree` | bindings/python/topsort.py:61-172 | whatever the two sorts return for the same pair list, they agree in the same way |
| `Rotations.IsRotated` | bindings/python/rad_util.py:735-775 | true iff one list is a rotation of the other; IndexError iff both are empty |
| `Rotations.RotationTransitive` | bindings/python/rad_util.py:735-775 | rotations of rotations are rotations |
| `FindCycles.BackEdgeCycle` | bindings/python/topsort.py:362-368 | a child found on the path closes a simple cycle from its first occurrence on |
| `FindCycles.Record` | bindings/python/topsort.py:369-377 | a cycle is added iff none of its rotations was yielded before |
| `FindCycles.WeightDrops` | bindings/python/topsort.py:351-385 | popping a path and pushing its extensions lowers the weight of the stack |
| `FindCycles.Expand` | bindings/python/topsort.py:356-385 | each child of a popped path is either closed into a recorded cycle or pushed as a longer simple path |
| `FindCycles.SimpleApproach` | bindings/python/topsort.py:343-349 | every reachable cycle is reached by a simple path that meets it only at its last node |
| `FindCycles.ReachableCycleRecorded` | bindings/python/topsort.py:343-349 | once the stack is empty every cycle through a node marked visited has been yielded, so skipping such start nodes loses nothing |
| `FindCycles.SearchFrom` | bindings/python/topsort.py:346-385 | one start node: sound, irredundant, complete for every node it marks, and terminating |
| `FindCycles.FindCycles` | bindings/python/topsort.py:235-385 | the yields are the simple cycles of the graph, each exactly once up to rotation; there are none iff the graph is acyclic |
| `CycleDebugging.LeftoverTellsCycles` | bindings/python/topsort.py:105-111 | looking for cycles among the child lists of a CycleError finds exactly the cycles of the sorted pairs, and at least one |
| `CycleDebugging.SortedIffNothingFound` | bindings/python/topsort.py:26-26 | a sort gets through iff cycle finding on the same edges yields nothing |
| `JobRunner.NextKeepsInv` | test.py:978-1046 | every step of every thread keeps the protocol's invariant |
| `JobRunner.AfterInv` | test.py:1423-1484 | in every interleaving each dispatched job exists in exactly one place, and break jobs are queued or taken |
| `JobRunner.BreaksComeLast` | test.py:1696-1699 | a worker takes a break job only when every real job has been put in and taken out |
| `JobQueues.QueuesKeepOrder` | test.py:1389-1390 | over whole runs: what is taken from a queue is what was put into it, first in first out |
| `JobQueues.SentInOrder` | test.py:1423-1484 | what is put into the input queue is every job once, in the order of the tests, and then the breaks |
| `JobInterrupts.InterruptFreezes` | test.py:585-589 | over whole runs: however a run goes on after an interrupt, the jobs running, finished or collected, by what they come back with, are those let through before it |
| `JobInterrupts.OnlyStartedJobsRun` | test.py:992-995 | a job that is collected as run after an interrupt had passed a worker's decision before it |
| `JobInterrupts.AtMostOnePerWorkerFinishes` | test.py:992-1046 | at most one further job per worker, one it was running then, gets an exit code after an interrupt |
| `JobInterrupts.MarkedIffUndecided` | test.py:992-995 | at a finished end a job is marked as interrupted iff no worker had decided to start or skip it before the interrupt |
| `JobInterrupts.FlagIffInterrupt` | test.py:585-589 | the flag is up iff an interrupt came |
| `JobRunner.NoDeadlock` | test.py:1718-1720 | with at least one worker no unfinished run is stuck |
| `JobRunner.RunsEnd` | test.py:978-1046 | no run has more than 6 steps a job, 4 a worker and 5 more |
| `JobRunner.RunsCanFinish` | test.py:1718-1720 | with at least one worker every run, wherever it has got to, extends to a finished one |
| `JobRunner.TakenIsStopping` | test.py:985-986 | in every run a worker has taken one break job if it is stopping, and otherwise none |
| `JobRunner.OneBreakEach` | test.py:1696-1699 | in every finished run each worker has taken exactly one break job |
| `JobRunner.RunsEndCleanly` | test.py:1863-1864 | every finished run: queues empty, all workers returned, each job collected exactly once, marked, skipped or with its own exit code |
| `JobTallies.CollectResults` | test.py:1711-1752 | each counter counts the collected jobs of its kind and each list names them in arrival order |
| `JobTallies.TallyAddsUp` | test.py:1718-1752 | passed, failed, skipped, crashed, valgrind and interrupted add up to the jobs collected |
| `JobReports.TallyMeans` | test.py:1718-1752 | of the collected jobs that are neither marked nor skipped, exit code 0 counts as passed, 1 as failed, 2 as a valgrind error and any other as a crash; each list has those jobs' names in arrival order, the skipped ones with the reason in brackets |
| `JobReports.ReportMeans` | test.py:1711-1752 | the same of the tests after any run without an interrupt: each counter is the number of tests with its exit codes, each list a rearrangement of their names |
| `JobTallies.SuccessIff` | test.py:1948-1951 | the result is 0 iff nothing was interrupted and every test was skipped or exited with 0 |
| `JobTallies.SameJobsCollected` | test.py:1718-1720 | without an interrupt two finished runs collected the same jobs in some order |
| `JobTallies.SortUnique` | test.py:1884-1895 | a list of names has one sorted form |
| `JobTallies.LexMeans` | test.py:1884-1895 | one name comes before another iff at the first place where they differ its character is smaller or it has ended |
| `JobTallies.ScheduleIndependent` | test.py:1879-1895 | without an interrupt any two interleavings, even with different numbers of workers, report the same counts and sorted name lists |
| `ShellParser.EnvVarRoundTrip` | waf-tools/shellcmd.py:24-24 | a written assignment is matched with its key and value |
| `ShellParser.MatchEnvVarIff` | waf-tools/shellcmd.py:24-24 | a token is an assignment iff it is a word, an equals sign and a value without blanks, or that with one newline behind it |
| `ShellParser.WordChars` | waf-tools/shellcmd.py:24-24 | the characters of a word, listed |
| `ShellParser.Step` | waf-tools/shellcmd.py:136-199 | in every state but the first a command of the right kind is under construction |
| `ShellParser.Pipeline.CommitCommand` | waf-tools/shellcmd.py:101-104 | moves the current command to the end of the pipeline; AssertionError iff there is none |
| `ShellParser.Pipeline.Parse` | waf-tools/shellcmd.py:121-201 | the mutable parser ends with the nodes of the step function, and on an AssertionError with what had been built |
| `ShellGrammar.ParsedIsWellFormed` | waf-tools/shellcmd.py:121-201 | commands and operators alternate strictly, stdout is a pipe iff the next node is one, a directory change is followed by && or nothing |
| `ShellGrammar.RenderParsed` | waf-tools/shellcmd.py:121-201 | parsing inverts the canonical rendering of any well-formed pipeline, with its assignments and redirections |
| `ShellGrammar.ParserImage` | waf-tools/shellcmd.py:121-201 | a pipeline comes out of the parser for some tokens iff it is well-formed |
| `ShellSentences.ReadDescribed` | waf-tools/shellcmd.py:136-199 | wherever the token machine gets to, it has read the beginning of some sentence of the grammar |
| `ShellSentences.BeginningRead` | waf-tools/shellcmd.py:136-199 | reading the beginning of any sentence leads to the state it describes |
| `ShellSentences.AcceptedIff` | waf-tools/shellcmd.py:121-201 | the parser accepts exactly the sentences of the grammar (arguments and redirections in any order, each stream directed once, no redirected output before a pipe) and returns what they mean |
| `ShellSentences.DanglingIgnored` | waf-tools/shellcmd.py:188-201 | a redirection sign at the very end is ignored |
| `ShellRun.ExecPipedCommands` | waf-tools/shellcmd.py:203-212 | the status of a pipe is its last command's |
| `ShellRun.Run` | waf-tools/shellcmd.py:214-346 | the loop computes the outcome of the recursive executor, exceptions included |
| `ShellRun.RunRefinesEval` | waf-tools/shellcmd.py:214-346 | running a chain is right-nested short-circuit evaluation: same status and same processes in the same order, streams and directories |
| `ShellRun.ChainExists` | waf-tools/shellcmd.py:223-231 | every well-formed pipeline whose directory changes lead is a chain of pipes joined by && and \|\| |
| `ShellRun.ChainIffLead` | waf-tools/shellcmd.py:223-231 | a well-formed pipeline is such a chain iff its directory changes lead |
| `ShellRun.ParsedRunsRightNested` | waf-tools/shellcmd.py:214-346 | anything parsed is a chain whose right-nested evaluation from the current directory is what run does, iff its directory changes lead |
| `ShellRun.LaunchAt` | waf-tools/shellcmd.py:242-290 | the i-th process of a pipe runs the i-th command in the pipe's directory; only the first reads its own input |
| `ShellRun.PipesConnect` | waf-tools/shellcmd.py:242-259 | in a parsed chain a process writes to a pipe iff the next one reads from it |
| `ShellRun.EnterTwo` | waf-tools/shellcmd.py:226-226 | two directory changes in a row act as one into their joint path |
| `ShellPaths.JoinedPieces` | waf-tools/shellcmd.py:228-228 | an absolute path replaces the directory; the pieces of a relative one between slashes come behind those of the directory |
| `ShellPaths.EnteredPieces` | waf-tools/shellcmd.py:223-231 | relative directories entered in a row go down by all their pieces |
| `ShellPaths.ChdirThenCommand` | waf-tools/shellcmd.py:223-290 | `cd d && command`, from its tokens to its one process: it runs in `./d`, or in `d` itself if that is absolute |
| `ShellOperators.EvalStops` | waf-tools/shellcmd.py:293-344 | a chain starts its pipes one by one up to the first whose status the operator behind it does not go on after: 0 for &&, anything else for \|\| |
| `ShellOperators.RunStops` | waf-tools/shellcmd.py:214-346 | and so does run, which brings back that pipe's status |
| `ShellOperators.TwoCommands` | waf-tools/shellcmd.py:214-346 | `a \| b`, `a && b` and `a \|\| b`, from their tokens to their processes and status |
| `ShellLists.PlainAgrees` | waf-tools/shellcmd.py:307-344 | where one operator joins all pipes and, if it is \|\|, no later pipe is led by a directory change, right-nested evaluation does what a left-to-right list does after its first segment |
| `ShellLists.RestartDisagrees` | waf-tools/shellcmd.py:307-344 | where a later segment can start after the first has stopped the chain, a constant status makes the list start more processes |
| `ShellLists.OtherDisagrees` | waf-tools/shellcmd.py:307-344 | on every other chain some exit statuses tell the two apart |
| `ShellLists.AgreesIffPlain` | waf-tools/shellcmd.py:307-344 | they agree for all statuses, directories and launches iff the chain is of that kind |
| `ShellLists.ParsedAgreesIffPlain` | waf-tools/shellcmd.py:214-346 | the same for running anything parsed whose directory changes lead |
| `ShellLists.ChdirAfterOr` | waf-tools/shellcmd.py:223-231 | a pipeline with a single \|\| where the list starts a command that run does not |
| `ShellFailures.CompleteRuns` | waf-tools/shellcmd.py:223-233 | a pipeline whose directory changes are complete brings back a status from any point of the run |
| `ShellFailures.StatusIffComplete` | waf-tools/shellcmd.py:223-233 | a parsed pipeline brings back a status whatever its commands return iff every directory change names a directory and is followed by a command |
| `ShellFailures.RaisedAt` | waf-tools/shellcmd.py:223-233 | run of a well-formed pipeline never fails an assertion: it raises only at a directory change, an IndexError at the end, a TypeError where something follows it and it names no directory |
| `ShellFailures.StartsAreLaunched` | waf-tools/shellcmd.py:220-346 | the commands said to be started are the processes run launches, in order |
| `ShellFailures.ChdirInsidePipe` | waf-tools/shellcmd.py:223-231 | for every directory change behind a pipe in anything parsed: when the command before the pipe starts, the next command starts too whatever statuses come back, reads from it and runs in the directories entered; nothing starts iff a directory change on the way is incomplete |
| `ShellFailures.ShortestPipedChdir` | waf-tools/shellcmd.py:223-231 | the shortest such pipeline, whose status is its second command's |
| `PatchText.DecimalRoundTrip` | utils/check-style.py:252-253 | positions written in decimal read back as themselves |
| `PatchText.WritePatchset` | utils/check-style.py:362-371 | file names, then each chunk's header and body, for each patch in order |
| `PatchText.ParsePatchset` | utils/check-style.py:373-417 | the loop computes the line-by-line reader; exceptions for unknown lines and lines outside a patch or chunk |
| `PatchHeaders.MatchChunkStartIff` | utils/check-style.py:376-376 | a line is a chunk header with four given numbers iff it is written that way, with any text behind the second @@ |
| `PatchHeaders.DigitsListed` | utils/check-style.py:376-376 | the digits and their values, listed |
| `PatchRoundTrip.HeaderMatches` | utils/check-style.py:300-309 | a written header is recognised with its positions and counts |
| `PatchRoundTrip.HeaderCountsBody` | utils/check-style.py:267-309 | the counts in a written header are the source and destination lines of the body that follows |
| `PatchRoundTrip.ReadLineTotal` | utils/check-style.py:382-416 | exactly the body lines add a line to the patchset |
| `PatchRoundTrip.RoundTripIff` | utils/check-style.py:373-417 | writing and reading back is the identity iff no removed line starts with `-- ` and no added line with `++ ` |
| `PatchRoundTrip.ParseImage` | utils/check-style.py:373-417 | these are also exactly the patchsets that can be read at all |
| `PatchReadable.ReadLineSome` | utils/check-style.py:382-416 | one line is read iff it has a known form and the patch or chunk it belongs to has begun |
| `PatchReadable.ReadableIff` | utils/check-style.py:373-417 | a text is read iff every line has a known form, second file names and chunk headers follow a first file name, and body lines follow a chunk header; otherwise some line raises |
| `PatchReadable.ReadsBlocks` | utils/check-style.py:373-417 | the chunks read are the blocks of body lines behind each header, whatever file names come between, and the patches bear the file names of the text |
| `PatchRewrite.RewriteKeepsLines` | utils/check-style.py:419-435 | on every path, the early return included, a chunk keeps its line kinds and counts; source-only lines are untouched and each other line gains at most one blank |
| `PatchRewrite.SourceKeptIff` | utils/check-style.py:425-432 | the source side is unchanged iff no compared shared line lacks just the blank its source partner ends in |
| `PatchRewrite.AlignedSourceKept` | utils/check-style.py:425-432 | in particular when shared lines have the same index in both views |
| `PatchRewrite.SourceCanChange` | utils/check-style.py:425-432 | a two-line chunk whose source side changes |
| `PatchRestored.RewriteExact` | utils/check-style.py:419-435 | every line of the rewritten chunk, told from the original one: a compared destination line grows by the blank it lacks of what its source partner reads at that turn, all others stay |
| `PatchRestored.WhitespaceRestored` | utils/check-style.py:427-432 | a pair is treated as the original lines ask for iff its source partner still had its text at its turn, or the destination line is neither that text nor lacks its last blank |
| `PatchRestored.BlankRestored` | utils/check-style.py:427-432 | a compared destination line whose source partner reads the same and a space or a tab at its turn ends up equal to it |
| `PatchRestored.UnspoiltRestored` | utils/check-style.py:427-432 | where no shared line grows every pair is treated so |
| `PatchRestored.RewrittenReadsBackIff` | utils/check-style.py:419-435 | a rewritten chunk can still be read back iff no added `++` has a source partner that reads `++ ` at its turn |
| `PatchRestored.UnspoiltReadsBackIff` | utils/check-style.py:419-435 | where no shared line grows, iff no added `++` is compared with a source line `++ ` |
| `PatchRestored.RewrittenRoundTripIff` | utils/check-style.py:362-435 | the rewritten chunk, written out and read, comes back under the same condition |
| `PatchRestored.HeaderAppears` | utils/check-style.py:427-432 | a two-line chunk where an added line turns into a file name line |
| `PatchRestored.HeaderCascades` | utils/check-style.py:427-432 | a chunk where that happens through a shared line that has just grown, so that two equal lines end up different |
| `PatchRewrite.PatchChunkLine.AppendToLine` | utils/check-style.py:193-199 | a line object grows in place and keeps its kind |
| `PatchRewrite.SrcLines` | utils/check-style.py:267-276 | the source view shares the chunk's own line objects, in order |
| `PatchRewrite.DstLines` | utils/check-style.py:277-286 | and so does the destination view |
| `PatchRewrite.ComparePair` | utils/check-style.py:427-432 | one comparison changes the shared object as the rewrite on values does |
| `PatchRewrite.RewriteChunk` | utils/check-style.py:424-434 | rewriting shared objects in place equals the rewrite on values; it stops early iff the source view is the longer one |
| `PatchRewrite.RemoveTrailingWhitespaceChanges` | utils/check-style.py:419-435 | all chunks up to and including the first that stops early are rewritten, the later ones untouched |
| `PatchObjects.MakeLines` | utils/check-style.py:398-415 | one new line object per line read, holding its kind and text |
| `PatchObjects.MakeChunks` | utils/check-style.py:390-415 | the objects of all chunks, none in two places |
| `PatchObjects.RewriteText` | utils/check-style.py:419-435 | reading a text, building its objects and rewriting them in place: the parsed chunks, rewritten up to the first that stops early |
| `Gathering.StaticInformation.GetCurrentPath` | utils/print-introspected-doxygen.cc:328-339 | the text of the current path |
| `Gathering.StaticInformation.RecordOutput` | utils/print-introspected-doxygen.cc:341-346 | appends one entry for the type with the current path |
| `Gathering.StaticInformation.HasAlreadyBeenProcessed` | utils/print-introspected-doxygen.cc:349-361 | true iff the type is on the processed stack |
| `Gathering.StaticInformation.Follow` | utils/print-introspected-doxygen.cc:447-453 | following one edge records the walks that begin with it and pops both stacks |
| `Gathering.StaticInformation.DoGather` | utils/print-introspected-doxygen.cc:420-503 | restores both stacks, terminates, and appends the entries of the simple walks from the type, one each, in order |
| `GatheringGraph.OutEdgesIff` | utils/print-introspected-doxygen.cc:431-502 | the steps out of a type: pointer attributes to anything but Object by their name, containers by their name and `/[i]`, registered children and aggregated types by `$` and their name; no others |
| `GatheringGraph.OutEdgesInOrder` | utils/print-introspected-doxygen.cc:431-502 | they come in the order of the attributes, then of the registered types, then of the aggregations, each once for each time it is listed |
| `GatheringGraph.PathPieces` | utils/print-introspected-doxygen.cc:328-339 | a recorded path starts with a slash, and its pieces between slashes are those of its labels in order |
| `GatheringGraph.PathTells` | utils/print-introspected-doxygen.cc:328-339 | where no label holds a slash the pieces are the labels |
| `Gathering.WalkListExact` | utils/print-introspected-doxygen.cc:420-503 | the walks recorded are exactly the simple ones that avoid the processed types |
| `Gathering.OneEntryPerSimpleWalk` | utils/print-introspected-doxygen.cc:420-503 | no walk is recorded twice, none is missing |
| `Permutations.Permutations` | bindings/python/rad_util.py:293-326 | the recursive method builds the specified list of lists |
| `Permutations.PermListExact` | bindings/python/rad_util.py:293-326 | a list is returned iff it is a rearrangement of the input |
| `Permutations.PermListCount` | bindings/python/rad_util.py:293-326 | n! lists are returned |
| `Permutations.PermListDistinct` | bindings/python/rad_util.py:293-326 | none of them twice if the items are distinct |
| `BinaryStrings.Int2BinExact` | bindings/python/rad_util.py:74-130 | int2bin fails iff the number needs more digits; otherwise it gives the numeral of that width and bin2int inverts it |
| `BinaryStrings.DigitsOfValue` | bindings/python/rad_util.py:108-130 | every numeral is the one of its value and width |
| `BinaryStrings.Ripple` | bindings/python/rad_util.py:649-659 | one pass over the counter in place adds one, with carry out iff it was all ones |
| `BinaryStrings.BinaryRange` | bindings/python/rad_util.py:632-660 | terminates with 2^bits numerals, the k-th being int2bin(k, bits); none for zero bits |
| `BinaryStrings.GrayPermutes` | bindings/python/rad_util.py:612-615 | gray_encode permutes the numbers of any width |
| `BinaryStrings.GrayOneBit` | bindings/python/rad_util.py:612-615 | successive codes differ in exactly one bit |
| `BinaryStrings.XorBits` | bindings/python/rad_util.py:612-615 | a bit of the exclusive or is set iff the operands differ there |
| `LargeTransfer.PatternRepeats` | examples/tcp/tcp-large-transfer.cc:50-53 | the buffer is a whole number of patterns, so a position's remainder serves it |
| `LargeTransfer.Letters` | examples/tcp/tcp-large-transfer.cc:82-86 | the stream is the letters a to z over and over |
| `LargeTransfer.SliceFits` | examples/tcp/tcp-large-transfer.cc:202-208 | the part of the buffer offered continues the stream where it stands |
| `LargeTransfer.OfferedIsMost` | examples/tcp/tcp-large-transfer.cc:202-207 | a write offers as much as the room, the rest of the buffer and the rest of the stream allow |
| `LargeTransfer.CallbackProgress` | examples/tcp/tcp-large-transfer.cc:200-214 | a callback gets bytes through iff something is left and the socket has room and does not refuse when it comes |
| `LargeTransfer.StopsShort` | examples/tcp/tcp-large-transfer.cc:200-214 | a callback that stops short found the buffer full or had its last write refused |
| `LargeTransfer.ReadyCallbacksSend` | examples/tcp/tcp-large-transfer.cc:192-194 | each callback that finds the socket ready gets at least one more byte through |
| `LargeTransfer.EnoughCallbacks` | examples/tcp/tcp-large-transfer.cc:192-194 | so enough of them send everything |
| `LargeTransfer.CompletesFrom` | examples/tcp/tcp-large-transfer.cc:192-194 | from wherever it stands, a full buffer included, the exchange completes if the socket is always ready again some time |
| `LargeTransfer.Sender.WriteUntilBufferFull` | examples/tcp/tcp-large-transfer.cc:198-219 | one callback, whatever the socket refuses or takes: it has a prefix of the stream, exactly as long as it let through, and is closed once more iff it has all of it |
| `LargeTransfer.Transfer` | examples/tcp/tcp-large-transfer.cc:185-219 | after any number of callbacks, each after any wait in which space may return, the socket has been closed iff it has the whole stream |
| `Fairness.CauchySchwarz` | examples/tcp/dctcp-example.cc:185-191 | sum^2 <= n * sumSquares, with equality iff all flows are equal |
| `Fairness.SquaresBelow` | examples/tcp/dctcp-example.cc:185-191 | sumSquares <= sum^2, with equality iff at most one flow received anything |
| `Fairness.JainBounds` | examples/tcp/dctcp-example.cc:177-191 | unless all are idle the index is between 1/n and 1; 1 iff all flows are equal, 1/n iff one has everything |
| `Fairness.NothingWraps` | examples/tcp/dctcp-example.cc:182-191 | no 64-bit sum or product wraps while counters are at most (2^32 - 1) / n |
| `Fairness.FitsIff` | examples/tcp/dctcp-example.cc:182-191 | for any flows nothing wraps iff n * sumSquares stays below 2^64 |
| `Fairness.EqualFlowsFitIff` | examples/tcp/dctcp-example.cc:182-191 | for equal flows that bound is exact |
| `Fairness.Counters.InitializeCounters` | examples/tcp/dctcp-example.cc:143-158 | every counter starts again from nothing received |
| `Fairness.Counters.TraceSink` | examples/tcp/dctcp-example.cc:125-141 | each counter is the bytes of its own flow's packets since then, modulo 2^64 |
| `Fairness.BytesAreSums` | examples/tcp/dctcp-example.cc:125-141 | the bytes of a flow are the sum of the sizes of its packets |
| `Fairness.BytesConserved` | examples/tcp/dctcp-example.cc:125-141 | all flows together have received the sizes of all packets of known flows |
| `Fairness.Counters.PrintFairness` | examples/tcp/dctcp-example.cc:178-222 | with nothing wrapped the accumulated ratio is Jain's index, undefined iff all flows were idle |

## Left out

- Topsort: the caller of a generator who changes a yielded list while it runs; the dictionaries handed to the level form are returned as values instead of being emptied in place; Python 3.7 turning the explicit `raise StopIteration` into a RuntimeError.
- FindCycles: children given as unordered collections are taken as lists, in an arbitrary but fixed order.
- JobRunner: jobs are values that move between threads, not shared objects; workers do not die from exceptions; launching processes, XML and text reports and progress lines are not part of this model.
- CollectResults: the branches that only print or write XML; `total_tests` is the number of tests dispatched.
- Run: the verbose mode, which reads `retval` before it is assigned; opening and closing files and their errors; merging assignments into the caller's environment; real processes.
- EvalList: entering a directory is taken to succeed, since `run` only joins the path.
- EnterTwo: states nothing about symbolic links or `..`, which joining paths does not interpret.
- MatchEnvVar: `\S` is modelled for the ASCII blanks and separators only.
- `get_abbreviated_command` (its second test for And keeps `||` from being shown) and `shlex.split`.
- ParsePatchset: builds chunk values, not heap objects; lines contain no newline; sharing of line objects is modelled in the rewrite.
- RemoveTrailingWhitespaceChanges: patches are flattened to the list of their chunks, which are visited in the same order.
- `uncrustify`, `git`, `patch` and the files around the diff code.
- DoGather: `CreateObject` for the root type, and the type library itself; `Uniquefy`, which works on a copy and so changes nothing, and printing.
- Int2BinExact: negative numbers, and `bin2int` of signs, blanks and underscores, which Python's `int` also takes.
- Permutations: the returned lists are values; for fewer than two items the source returns the input list itself.
- WriteUntilBufferFull: a socket that reports space and takes zero bytes for ever, on which the source loops for ever; TCP itself.
- PrintFairness: the average throughput, rounding of the division to a double, and output; the three groups are one class with its number of flows.
- The range queries of `utils/grid.py`, `rad_util.py`'s float, time and random helpers, binding generation and the waf tools: no claim about them, or only easy ones.
