# Verified models of the simulator's tooling

The algorithms in the build, test and binding tooling of the simulator, and in two of its
TCP examples, as a Dafny project with machine-checked properties. `dafny verify dfyconfig.toml`
checks everything.

| files | what they model |
|---|---|
| `Digraph`, `Topsort`, `TopsortLevels`, `Rotation`, `FindCycles` | sorting (parent, child) pairs into dependency order, by level, and enumerating elementary cycles |
| `WorkerPool`, `Interrupts`, `PoolOrder`, `Tally`, `Totals` | the test runner's thread pool under every interleaving, what an interrupt does to it, and what its counts and exit status mean |
| `ShellSyntax`, `ShellRoundTrip`, `ShellAccepted`, `ShellRun`, `ShellStops`, `ShellPosix` | the mini shell: token parser, printing and reading back, which tokens are accepted, running and where a run stops, comparison with POSIX lists |
| `ConfigPaths`, `ConfigEdges`, `PathWalk`, `SimplePaths`, `ConfigGatherer` | the graph of types, the walk that lists its configuration paths, and the object that performs it |
| `PatchText`, `PatchLines`, `PatchRoundTrip`, `DiffInput`, `PatchObjects`, `Whitespace`, `WhitespaceObjects`, `Decimal` | reading and writing unified diffs, which diffs the parser accepts, and the whitespace pass over shared line objects |
| `Template` | template substitution by escaping and formatting |
| `Permutations`, `BinaryStrings` | the list of permutations, fixed-width binary numerals |
| `StreamWriter`, `Fairness` | the resumable bulk sender, Jain's fairness index in 64-bit arithmetic |
| `Sequences`, `Wrappers` | what the others share |

How the program's constructs are rendered:

- Loops that update variables are methods with loops; objects whose fields change are classes. Each
  such method is proved equal to a specification function or to an independent property, and the
  properties of that function are separate lemmas.
- The scripts of the bindings are written for Python 2, and are modelled with its meaning. A
  dictionary lists its keys in an arbitrary order; a generator stands for the whole sequence it yields,
  ending normally or in its exception.
- Exceptions and failed assertions are values of a result type. Nothing is excluded by a precondition
  that the program accepts, except where "Left out" says so.
- The pool is a step relation: the main thread, each worker and the signal handler may take the next
  step in any order, and executing a job returns any integer.
- External commands, the environment, sockets and the registry of types are parameters: an oracle of
  exit statuses, a lookup function, a socket that accepts or refuses at will, a finite labelled graph.

Main results, each over every input or every run:

- `find_cycles` terminates and reports every elementary cycle exactly once up to rotation, although
  roots that were already visited are skipped.
- `topsort` succeeds exactly on acyclic input; otherwise the leftover keys are exactly the elements that
  lie on or downstream of a cycle. The level variant puts an element at the length of its longest chain
  of predecessors and fails on exactly the same inputs.
- The pool, given a worker or no jobs, keeps every job in exactly one place, never deadlocks, ends within a bound
  known at the start, and collects every job exactly once; exit status 0 means that every job that was not to be
  skipped was really executed and returned 0. An interrupt lets no new job begin, and hands back exactly the jobs
  that no worker had looked at.
- The shell parser accepts exactly the token lists that write a well-formed pipeline, up to a last redirection sign
  without a file, and yields that pipeline. The runner starts exactly the commands up to the first short circuit
  and returns the last one's status; it agrees with POSIX AND-OR lists for all exit statuses exactly when no `&&` or
  `||` after a command is followed later by the other one.
- The configuration walk lists one entry for each edge path that repeats no type, and restores its two stacks; which
  edges there are is said of the registry alone.
- In every aligned chunk that the whitespace pass reaches, it restores a missing last blank and changes nothing
  else; for any chunk, what it does, how far an index error lets it come, and exactly when it changes the source side.
- A written patch set reads back as itself exactly when no removed or added line looks like a file name line;
  a diff from `difflib` is read as what it describes exactly when, besides, no chunk has a side of one line.
- Template substitution equals direct replacement for every template and dictionary, errors included.

Where the code and its documentation disagree, the model follows the code:

- `int2bin` promises n digits, or an error when the number does not fit; that holds at exactly the positive
  widths (`BinaryStrings.PromiseIffPositiveWidth`). Width 0 accepts every number, a negative width cuts off
  leading digits (`BinaryStrings.NegativeWidthCuts`), and `binary_range(0)` is empty.
- `is_rotated` raises an index error on two empty sequences instead of answering.
- The mini shell's lists are left-associative only as long as the operators do not change: after a failing `a && b || c`
  nothing of `c` is run (`ShellPosix.AgreesIffUniform`, `ShellPosix.MixedListDiverges`).
- The whitespace pass is fed `difflib` diffs only, where a range of one line has no count, while the parser asks
  for both counts of a header: it raises exactly when some chunk has a side of one line, as the diff of two files of
  one line each has (`DiffInput.AcceptedIffNoSingleLine`, `DiffInput.OneLineFilesRaise`).
- The whitespace pass is meant to undo trailing-whitespace changes, but its greedy pattern gives back exactly
  one blank (`Whitespace.TwoBlanksStayMissing`), and through a misaligned chunk it can change a context line, hence the source side
  (`Whitespace.ContextLineCanChange`, `Whitespace.SourceKeptIff`).
- `subst_func` fills the dictionary it shares with later tasks of the same generator, so a second template can miss
  names (`Template.SecondTemplate`, `Template.SecondTemplateFails`).
- The test runner takes any integer for `--jobs`; a negative one starts no worker, and then the run waits for
  ever as soon as there is a job (`WorkerPool.FinishesIffWorkers`, `WorkerPool.WorkersUnlessNegative`).
- The sort's closing comment gives every leftover element a child; what each of them has is a leftover parent. Each
  has a child exactly when no childless element lies below a cycle, which the loop at 1 with the edge to 2 shows to
  fail (`Topsort.LeftoversHaveChildrenIff`, `Topsort.TailHasNoChild`).

## Model

| member | source | states |
|---|---|---|
| FindCycles.FindCycles | bindings/python/topsort.py:343-385 | terminates; every report is an elementary cycle along real edges, no two reports are rotations of each other, and every elementary cycle of the graph is reported up to rotation |
| FindCycles.CycleRecorded | bindings/python/topsort.py:346-349 | skipping roots already visited loses nothing: once every key lies on a simple path from an explored root, every elementary cycle has been recorded |
| FindCycles.ExploreRoot | bindings/python/topsort.py:351-385 | exhausting the stack from one root explores every simple path from it, and whatever is newly marked visited lies on such a path |
| FindCycles.Expand | bindings/python/topsort.py:362-385 | the child loop pushes exactly the one-node extensions and records exactly the closed cycles, and the weight of the stack drops strictly |
| FindCycles.ExpandCovers | bindings/python/topsort.py:353-385 | popping and expanding a path keeps every simple path from the root either explored or with a prefix on the stack |
| FindCycles.DeadEndCovers | bindings/python/topsort.py:357-360 | dropping a path whose end is not a key keeps that coverage |
| FindCycles.RecordCycle | bindings/python/topsort.py:370-378 | a closed cycle is appended exactly when no earlier report is a rotation of it |
| FindCycles.ClosingEdgeMakesCycle | bindings/python/topsort.py:367-369 | cutting the path at the repeated child gives an elementary cycle |
| FindCycles.SilentIffAcyclic | bindings/python/topsort.py:235-385 | a graph yields no report exactly when it has no closed walk |
| FindCycles.SilentIffSorted | bindings/python/topsort.py:77-385 | no cycle is reported exactly when the sort of the same pairs succeeds |
| FindCycles.RotationIsElementaryCycle | bindings/python/topsort.py:373-375 | treating rotations as duplicates is sound: a rotation of an elementary cycle is one |
| Rotation.IsRotated | bindings/python/rad_util.py:761-775 | yes exactly for rotations, no exactly for the rest, and an index error exactly for two empty sequences |
| Rotation.RotationSymmetric | bindings/python/rad_util.py:735-775 | being a rotation is symmetric, so the order of the two arguments does not matter |
| Rotation.RotationTransitive | bindings/python/rad_util.py:735-775 | being a rotation is transitive, so comparing with one representative per class suffices |
| Topsort.Topsort | bindings/python/topsort.py:77-112 | normal return exactly on acyclic pairs, duplicates and self-loops included, with every element once and each parent before each child; otherwise the exception reports exactly what is on or below a cycle and the rest in order |
| Topsort.CountParents | bindings/python/topsort.py:77-90 | the first pass counts every pair, duplicates included, and keeps children in pair order |
| Topsort.KeysWithoutParent | bindings/python/topsort.py:92-93 | exactly the keys with count zero, each once, in any order |
| Topsort.RetireNext | bindings/python/topsort.py:97-106 | one round of the growing loop keeps the dictionaries those of the remaining pairs and the answer ordered; no missing key is looked up |
| Topsort.KnockDown | bindings/python/topsort.py:100-103 | decrementing child by child, duplicates included, appends a child exactly when its last counted parent is gone |
| Topsort.RetireOne | bindings/python/topsort.py:100-101 | retiring a parent lowers an element's pending count by exactly the number of its occurrences among the children |
| Topsort.PendingZero | bindings/python/topsort.py:93-103 | a count of zero means that every parent of the element is done |
| Topsort.ChildStillCounted | bindings/python/topsort.py:98-101 | the child about to be decremented is still a key and not the parent just deleted |
| Topsort.StuckExactlyBelowCycles | bindings/python/topsort.py:108-111 | when all counts are positive, the leftover elements are exactly those that a cycle leads to, each with a leftover parent, and there are none exactly on acyclic input |
| Topsort.LeftoversHaveChildrenIff | bindings/python/topsort.py:108-111 | every element of the report has a child exactly when no element without children lies below a cycle |
| Topsort.TailHasNoChild | bindings/python/topsort.py:108-111 | an input on which an element below a cycle has no child |
| Topsort.FinishSort | bindings/python/topsort.py:108-112 | the final test on the dictionary tells acyclic input from cyclic input |
| Digraph.ParentsForceCycle | bindings/python/topsort.py:108-111 | a finite set in which everybody has a parent inside has a closed walk upstream of each member |
| Digraph.OrderMeansAcyclic | bindings/python/topsort.py:112 | a graph with a topological order has no closed walk |
| TopsortLevels.TopsortLevels | bindings/python/topsort.py:157-172 | each level yielded is exactly the elements at that depth, all levels come out exactly on acyclic input, and concatenated they are a topological order; otherwise the leftovers are exactly those of the flat sort |
| TopsortLevels.TopsortLevelsCore | bindings/python/topsort.py:203-232 | the same for the generator given any two matching dictionaries, isolated elements included |
| TopsortLevels.RetireLevel | bindings/python/topsort.py:217-224 | striking out a whole level leaves the dictionaries of the remaining pairs |
| TopsortLevels.DepthIsLongestWalk | bindings/python/topsort.py:205-212 | the depth of an element is the number of edges of a longest walk ending at it |
| TopsortLevels.ZeroMeansThisLevel | bindings/python/topsort.py:205 | a remaining element has count zero exactly when its depth is the number of the level being produced |
| TopsortLevels.NoEdgeInsideLevel | bindings/python/topsort.py:212 | no two elements of one level are joined by an edge |
| WorkerPool.StepInv | test.py:978-1046 | whoever moves next, each job stays in exactly one place, jobs stay ahead of stop tokens, tokens and results stay accounted for |
| WorkerPool.PlacesKept | test.py:978-1046 | no step of anyone loses or duplicates a job |
| WorkerPool.JobsBeforeTokensKept | test.py:1696-1699 | all jobs precede all stop tokens in the queue, so no worker stops while a job is queued |
| WorkerPool.ConservedKept | test.py:980-986 | stop tokens queued plus workers stopped equals tokens issued, and an interrupted job marked as break never stops a worker |
| WorkerPool.NoDeadlock | test.py:1718-1864 | unless all is over, the main thread or a worker can move, without help from an interrupt |
| WorkerPool.StepWorks | test.py:978-1046 | every step uses up a unit of a measure |
| WorkerPool.RunsAreSafe | test.py:1482-1864 | in every state of every run: one place per job, faithful results, no early stop |
| WorkerPool.RunsEnd | test.py:1696-1864 | a run has at most six steps per job, four per worker and the interrupt |
| WorkerPool.StuckRunsAreComplete | test.py:1718-1864 | a run that cannot go on has joined every worker, emptied both queues and collected every job exactly once, each faithfully executed or returned |
| WorkerPool.FinishesIffWorkers | test.py:1718-1864 | every run that cannot go on has finished exactly when there is a worker or no job at all |
| WorkerPool.NothingReported | test.py:1718-1719 | without a worker nothing is ever reported or collected |
| WorkerPool.WorkersUnlessNegative | test.py:1399-1426 | with a processor available a worker is started exactly when the limit is not negative: as many as there are processors without a limit or with a larger one, else as many as the limit |
| Interrupts.NoNewWork | test.py:987-995 | after an interrupt only jobs that a worker was executing at that moment are still executed, at most as many as there are workers |
| Interrupts.HandedBackIffUntouched | test.py:987-995 | when an interrupted run is over, the jobs collected as broken off are exactly those that at the interrupt were not yet put, queued, or taken and not looked at, jobs to be skipped included, and none of them was executed |
| PoolOrder.TakenInOrder | test.py:1688-1719 | in every state of every run the jobs still to be taken are in the order of dispatch, and nothing is collected before every job and stop token has been put |
| PoolOrder.CollectedAsReported | test.py:1718-1719 | what has been reported stays and is collected in the order of the reports |
| Tally.CountResults | test.py:1711-1752 | the five counters are the numbers of collected jobs that were skipped, returned 0, 1, 2 or another code, interrupted jobs under none |
| Tally.HeadingsPartition | test.py:1719-1752 | every collected job has exactly one outcome |
| Tally.CountsOfARun | test.py:1719-1752 | for every completed run, as many jobs passed, failed, had valgrind errors and crashed as were really executed with code 0, 1, 2 and any other, and as many were skipped as were to be skipped and not handed back |
| Tally.VerdictOfARun | test.py:1718-1951 | for every completed run the counts and the interrupted jobs add up to the jobs dispatched, and the exit status is 0 exactly when every job came back passed or skipped |
| Tally.CleanExitMeansAllPassed | test.py:1948-1951 | the exit status is 0 exactly when every job not to be skipped was really executed and returned 0 and none was handed back by an interrupt; a job to be skipped is never executed |
| ShellSyntax.Pipeline.ParseTokens | waf-tools/shellcmd.py:121-201 | the token loop fails an assertion exactly when the six-state machine rejects, and otherwise leaves that machine's pipeline in the object |
| ShellSyntax.StepsAppend | waf-tools/shellcmd.py:136-199 | the machine can be stopped and resumed at any token |
| ShellRoundTrip.ParseUndoesPrint | waf-tools/shellcmd.py:121-201 | every well-formed pipeline, its assignments and redirections written in any order, reads back as itself |
| ShellRoundTrip.ParsedIsWellFormed | waf-tools/shellcmd.py:121-201 | whatever is accepted alternates commands and operators, has piped output exactly before a pipe, and lets only && follow a cd |
| ShellRoundTrip.ParserRange | waf-tools/shellcmd.py:121-201 | the pipelines the parser can produce are exactly the well-formed ones |
| ShellAccepted.AcceptedIffWritten | waf-tools/shellcmd.py:121-201 | a token list is read as a pipeline exactly when it writes that well-formed pipeline: assignments, perhaps with a final newline, the name, then words and redirections in any order, and at most one redirection sign without a file after a last command |
| ShellRoundTrip.EnvMatchIff | waf-tools/shellcmd.py:24 | the pattern matches exactly the words made of a key, an equals sign and a blank-free value, perhaps with a final newline, and yields that key and value |
| ShellRoundTrip.AssignmentMatches | waf-tools/shellcmd.py:139-141 | a key, an equals sign and a blank-free value are read as that assignment, also with a final newline |
| ShellRoundTrip.ItemsRead | waf-tools/shellcmd.py:154-199 | words and redirections, each kind of redirection at most once, are all read into the command under construction |
| ShellRoundTrip.StepKeepsOk | waf-tools/shellcmd.py:136-199 | one token keeps everything committed so far well-formed |
| ShellStops.Run | waf-tools/shellcmd.py:214-346 | there is a first position the run does not get past, by a short circuit, the end, or a cd in error; exactly the commands up to it are started, in order, each with its own words, assignments and outputs, with the pipe, else its file, as input, and in the directory of the cd's before it; the result is that position's status or error; on a normal return every file opened is closed |
| ShellStops.RunStops | waf-tools/shellcmd.py:222-346 | the run as computed step by step is the run as read off the pipeline |
| ShellRun.RunLoop | waf-tools/shellcmd.py:214-346 | the loop with its lists of processes and files computes that run and closes what it opened |
| ShellRun.PathJoinMeans | waf-tools/shellcmd.py:228 | an absolute directory replaces the one so far, a relative one is appended after a slash that is not doubled |
| ShellRun.OpenedFiles | waf-tools/shellcmd.py:242-274 | a process has its input, output and error file opened, in this order and each once, the null device never |
| ShellRun.ExecPipedCommands | waf-tools/shellcmd.py:203-212 | a pipe's status is its last command's |
| ShellRun.CloseFiles | waf-tools/shellcmd.py:300-304 | closes exactly the listed files that are not the null device |
| ShellRun.OpenRedirections | waf-tools/shellcmd.py:242-274 | opens exactly what the command redirects and lists every opened file for closing |
| ShellRun.StartCommand | waf-tools/shellcmd.py:233-291 | starts one command so that the remaining run is that of the remaining pipeline |
| ShellRun.TakeOperator | waf-tools/shellcmd.py:306-346 | a pipe goes on; after any other operator the pipe is waited for and its files closed, and the run stops with its status exactly when the operator is short-circuited |
| ShellPosix.AgreesIffUniform | waf-tools/shellcmd.py:312-346 | same commands in the same order with the same status as a POSIX AND-OR list, for all exit statuses, exactly when no operator after a command is followed later by the other one |
| ShellPosix.MixedListDiverges | waf-tools/shellcmd.py:330-341 | in a && b, or else c, a failing a ends the run with its status, where POSIX goes on to c |
| ShellPosix.UniformAgreesFrom | waf-tools/shellcmd.py:312-346 | lists with one kind of operator behave as POSIX says |
| ShellPosix.DivergesFrom | waf-tools/shellcmd.py:320-323 | under any statuses that stop the run at an operator which one of the other kind follows, POSIX goes on to a command that the runner does not start |
| ConfigGatherer.StaticInformation.DoGather | utils/print-introspected-doxygen.cc:420-503 | terminates on cyclic type graphs, restores both stacks, and appends exactly the entries of the walk |
| ConfigGatherer.StaticInformation.Gather | utils/print-introspected-doxygen.cc:411-417 | from empty stacks one entry is appended for each edge path that repeats no type, in order and nothing else; no path is followed twice |
| ConfigEdges.EdgesInOrder | utils/print-introspected-doxygen.cc:429-502 | the edges out of a type are first one for each attribute that is a container or a pointer to no plain object, then one for each registered child, then one for each aggregation that the type is an end of, each group in its own order |
| ConfigEdges.EdgeIff | utils/print-introspected-doxygen.cc:429-502 | an edge leads out of a type exactly through such an attribute with that name, plus /[i] for a container, or with a dollar sign and the target's name to a registered child or to the other end of an aggregation |
| PathWalk.PathStringMeans | utils/print-introspected-doxygen.cc:328-338 | a path is written step after step, each after a slash |
| ConfigGatherer.StaticInformation.GatherBeyond | utils/print-introspected-doxygen.cc:447-451 | push, gather, pop: the stacks are as before and the entries beyond one edge are appended |
| ConfigGatherer.StaticInformation.FollowAttributes | utils/print-introspected-doxygen.cc:429-466 | the attribute loop gathers beyond each pointer and container attribute in order, pointers to plain objects skipped |
| ConfigGatherer.StaticInformation.FollowChildren | utils/print-introspected-doxygen.cc:467-479 | the second loop gathers beyond each registered child type |
| ConfigGatherer.StaticInformation.FollowAggregates | utils/print-introspected-doxygen.cc:480-502 | the third loop gathers beyond each aggregate, from either end |
| ConfigGatherer.StaticInformation.GetCurrentPath | utils/print-introspected-doxygen.cc:328-338 | the steps of the path, each after a slash |
| ConfigGatherer.StaticInformation.RecordOutput | utils/print-introspected-doxygen.cc:341-346 | appends the type with the current path |
| ConfigGatherer.StaticInformation.HasAlreadyBeenProcessed | utils/print-introspected-doxygen.cc:349-361 | whether the type is on the stack |
| ConfigGatherer.StaticInformation.Get | utils/print-introspected-doxygen.cc:364-378 | the recorded paths of one type, in order |
| ConfigGatherer.PathsInOrder | utils/print-introspected-doxygen.cc:364-378 | the paths of a type are those of all its entries, in the order of the entries |
| SimplePaths.GatherListsSimplePaths | utils/print-introspected-doxygen.cc:420-503 | from empty stacks the walk records one entry for each edge path from the root that repeats no type, in order and nothing else; no path is followed twice |
| SimplePaths.ListedIffSimple | utils/print-introspected-doxygen.cc:424-427 | from any stack, a path is followed exactly when it repeats no type and meets none on the stack |
| SimplePaths.TrailsDistinct | utils/print-introspected-doxygen.cc:429-502 | no path is followed twice, also where types are joined by several edges |
| SimplePaths.EntriesCanRepeat | utils/print-introspected-doxygen.cc:480-502 | two edges with the same step to the same type, as an aggregation registered twice gives (lines 537 and 539), are two paths with equal entries |
| SimplePaths.VisitRenders | utils/print-introspected-doxygen.cc:427 | each followed path is recorded with its final type and its own steps |
| PatchRoundTrip.RoundTripIffUnmistaken | utils/check-style.py:363-418 | for newline-free texts, reading back what was written gives the same patches, chunks, kinds and texts exactly when no removed line starts with "-- " and no added line with "++ " |
| PatchRoundTrip.HeaderRead | utils/check-style.py:301-309 | the header reads back as the two positions and, as counts, the numbers of source-side and destination-side lines |
| PatchRoundTrip.BodyRead | utils/check-style.py:219-233 | a written line reads back with its kind and text, unless it is mistaken for a file name line, and then it does |
| PatchRoundTrip.FileLinesJoined | utils/check-style.py:382 | iterating over the written file gives its lines back |
| PatchRoundTrip.PatchsetBuilt | utils/check-style.py:382-418 | the recognised lines of a patch set build exactly that patch set after whatever was parsed before |
| PatchRoundTrip.BodiesInPatchset | utils/check-style.py:383-416 | the body lines recognised when a written patch set is read back are as many as its lines without the mistaken ones |
| DiffInput.DiffHeaderRead | utils/check-style.py:377-400 | a header as `difflib` writes it is read with its two positions, unless one of its ranges is a single line |
| DiffInput.AcceptedIffNoSingleLine | utils/check-style.py:374-418 | on a diff as `difflib` writes it, the parser raises exactly when some chunk is a single line on one of its sides |
| DiffInput.ReadIffCleanDiff | utils/check-style.py:374-418 | it gives back the patch set that the diff describes exactly when, besides, no line is mistaken for a file name line |
| DiffInput.OneLineFilesRaise | utils/check-style.py:462-474 | the parser raises on the diff of any two different files of one line each |
| Decimal.ReadShow | utils/check-style.py:307-308 | a position printed in decimal is read back as itself |
| Decimal.ShowReadIff | utils/check-style.py:307-308 | digits read are printed back exactly when there is no zero in front |
| PatchLines.LineReadAs | utils/check-style.py:375-417 | every line, with or without its newline, is a file name, a chunk header, a removed, added or context line or an error, decided by its first characters in this order |
| PatchLines.HeaderIff | utils/check-style.py:377 | the header pattern matches exactly a minus and a plus sign, each with two numerals, between the at-signs, and reads the four numbers |
| PatchObjects.ParsePatchset | utils/check-style.py:374-418 | the parser on line, chunk and patch objects raises exactly when the value parser does, and its new objects hold that parser's result |
| PatchObjects.ParseLine | utils/check-style.py:382-417 | one turn of the loop keeps the objects standing for the parser state, also when a chunk outlives the file it began in |
| PatchObjects.PatchChunk.Src | utils/check-style.py:269-278 | the source-side view shares the chunk's own line objects |
| PatchObjects.PatchChunk.Dst | utils/check-style.py:279-288 | the destination-side view shares the chunk's own line objects |
| WhitespaceObjects.RemoveTrailingWhitespaceChanges | utils/check-style.py:420-436 | the pass in place on shared objects ends with exactly the patch set of the pass on values, cut short by the index error where that occurs |
| WhitespaceObjects.PassChunkObjects | utils/check-style.py:425-433 | one chunk: an index error exactly when the destination side is shorter, and the objects hold the compared lines either way |
| WhitespaceObjects.CompareLines | utils/check-style.py:429-433 | one comparison changes at most the destination line, also when both sides are the same object |
| Whitespace.PassAllExact | utils/check-style.py:420-436 | the pass treats exactly the chunks with no run-out chunk before them, each as a single chunk is treated, and leaves every other chunk as it was |
| Whitespace.PassAllKeeps | utils/check-style.py:420-436 | no patch, chunk or kind changes, and a text stays or, on the destination side, grows by exactly one space or tab |
| Whitespace.PassKeeps | utils/check-style.py:425-433 | the same for the lines of one chunk |
| Whitespace.AlignedPassAll | utils/check-style.py:420-436 | on any parsed input, in every aligned chunk with no run-out chunk before it, every source line is unchanged and a destination line becomes the source line at its index exactly when it lacked only its last blank |
| Whitespace.TwoBlanksStayMissing | utils/check-style.py:421-433 | an aligned chunk whose destination line lacks two blanks is left as it is |
| Whitespace.ParsedNewlineFree | utils/check-style.py:374-418 | no parsed text contains a newline |
| Whitespace.AlignedPass | utils/check-style.py:425-433 | on an aligned chunk every source line is unchanged and a destination line becomes the source line at its index exactly when it lacked only its last blank |
| Whitespace.SourceKeptIff | utils/check-style.py:429-433 | the source side is unchanged exactly when, as parsed, no source line is one blank longer than a context line at the same index of the destination side |
| Whitespace.ContextLineCanChange | utils/check-style.py:429-433 | an input on which a context line is changed |
| Whitespace.MetOnce | utils/check-style.py:428-433 | a destination line is compared once and is longer by one blank exactly if that comparison fired |
| Whitespace.BlankSplits | utils/check-style.py:421 | the greedy pattern matches exactly the one-blank extensions of the other text |
| Template.EscapingIsDirect | waf-tools/misc.py:86-102 | formatting the escaped and rewritten template is direct replacement of each leftmost name, percent signs untouched, with the same missing name on failure |
| Template.OkIffCovered | waf-tools/misc.py:102 | substitution succeeds exactly when the dictionary covers the template's names |
| Template.EscapedNames | waf-tools/misc.py:98 | the names found after escaping are those of the template |
| Template.MatchIff | waf-tools/misc.py:86 | the pattern matches at the start of a text exactly an at-sign, one or more word characters and an at-sign |
| Template.Generator.SubstFunc | waf-tools/misc.py:83-102 | the output is direct replacement with the dictionary given or, when that is empty, filled in place with the template's names, each with its own value in the environment or, when that is empty, the value of its upper case |
| Template.SecondTemplate | waf-tools/misc.py:96-102 | a first template never fails without a dictionary; a second one fails exactly when it needs a name that the first, having names, did not have |
| Template.SecondTemplateFails | waf-tools/misc.py:96-102 | after a template with one name, one with a different name is missing it, whatever the environment |
| Permutations.Permutations | bindings/python/rad_util.py:310-326 | the nested loops build n! lists, exactly the rearrangements of the input, pairwise distinct when its items are |
| Permutations.PermsCount | bindings/python/rad_util.py:310-326 | n items give n! lists |
| Permutations.PermsAreRearrangements | bindings/python/rad_util.py:317-322 | every list is a rearrangement of the input |
| Permutations.EveryRearrangementAppears | bindings/python/rad_util.py:310-326 | every rearrangement appears, repeated items or not |
| Permutations.PermsDistinct | bindings/python/rad_util.py:310-326 | distinct items give pairwise distinct lists |
| BinaryStrings.ConvertsIffFits | bindings/python/rad_util.py:93-105 | for a positive width a number converts exactly when it fits, to that many digits, and a larger one is rejected |
| BinaryStrings.ResultMeansNumber | bindings/python/rad_util.py:93-105 | for any width a result is a binary numeral of the number, and exactly the negative numbers have no key in the table |
| BinaryStrings.ReadBack | bindings/python/rad_util.py:74-130 | reading back a converted number gives the number |
| BinaryStrings.ConvertBack | bindings/python/rad_util.py:74-130 | converting back what was read, at its own width, gives the string |
| BinaryStrings.ZeroWidthAccepts | bindings/python/rad_util.py:100-102 | width zero rejects nothing and returns a nonempty string |
| BinaryStrings.PromiseIffPositiveWidth | bindings/python/rad_util.py:74-105 | a width gives, for every number, that many digits meaning it or an error when it does not fit, exactly when the width is positive |
| BinaryStrings.NegativeWidthCuts | bindings/python/rad_util.py:99-102 | 1 at width -1 gives three digits |
| BinaryStrings.BinaryRange | bindings/python/rad_util.py:639-660 | the ripple-carry loop ends with two to the width strings, the i-th the conversion of i, and with none for width zero |
| BinaryStrings.RippleStep | bindings/python/rad_util.py:651-659 | passing the carry one place up keeps the sum of digits and carry |
| StreamWriter.Sender.WriteUntilBufferFull | examples/tcp/tcp-large-transfer.cc:198-219 | one callback continues the stream where the last accepted byte was, never reads past the buffer nor past the total, closes exactly at the total, and stops otherwise only without space or after one refusal |
| StreamWriter.Sender.StartFlow | examples/tcp/tcp-large-transfer.cc:185-196 | connects, registers for callbacks and makes the first write |
| StreamWriter.Sender.constructor | examples/tcp/tcp-large-transfer.cc:82-86 | fills the buffer with the repeated alphabet |
| StreamWriter.RunsAreSafe | examples/tcp/tcp-large-transfer.cc:198-219 | after any sequence of callbacks the accepted bytes are exactly the first ones of the stream, at most the total, and a close means that all were accepted |
| StreamWriter.RunsOnlyExtend | examples/tcp/tcp-large-transfer.cc:198-219 | accepted bytes are never taken back; after a close only further closes happen, one per callback |
| StreamWriter.SeamlessIffWholeAlphabets | examples/tcp/tcp-large-transfer.cc:51-53 | cycling through the buffer has no splice exactly when its size is a multiple of 26, or the buffer is not used up |
| Fairness.Index | examples/tcp/dctcp-example.cc:182-193 | the two wrapped sums and their quotient; without overflow the quotient lies between 1/n and 1, is 1 exactly for equal counters and is undefined exactly when all are zero |
| Fairness.SquareOfSum | examples/tcp/dctcp-example.cc:193 | the squared sum is at most n times the sum of squares, equal exactly for equal counters |
| Fairness.SquaresBelow | examples/tcp/dctcp-example.cc:193 | the sum of squares is at most the squared sum |
| Fairness.ExactIffBoundSmall | examples/tcp/dctcp-example.cc:186-193 | no 64-bit overflow for any n counters up to the bound exactly when (n * bound) squared is below two to the 64 |

## Left out

- TopsortLevels.TopsortLevelsCore: requires the counts to match the children lists (keys in no list and childless keys are allowed, as are duplicates); hand-made dictionaries whose counts are wrong are not modelled.
- WorkerPool.NoDeadlock: requires a worker; `WorkerPool.FinishesIffWorkers` says what happens without one.
- WorkerPool.StepWorks: executing a job is one step that returns an integer; the subprocess, its output and a job that never returns or raises are not modelled.
- ShellStops.Run: opening files and starting processes always succeed, pipes carry no data, and the exit status of a command is a parameter; the verbose display, which reads an unset variable on some branches, is not modelled.
- ShellPosix.AgreesIffUniform: requires that each cd names a directory, is followed by something and does not stand inside a pipe; elsewhere `ShellStops.Run` says what the runner does (an index or type error), but there is nothing in POSIX to compare with.
- ShellSyntax.Pipeline.ParseTokens: takes tokens, as for a list argument; splitting a string with `shlex` is not modelled. The command being built is a value, and its name is the first word of its argument list.
- ConfigGatherer.StaticInformation.DoGather: attributes, checkers, registration and the parent relation of types are a given finite registry whose mentioned types are all registered.
- PatchRoundTrip.RoundTripIffUnmistaken: requires newline-free texts and names, the only ones the parser itself produces; universal newline translation is not modelled.
- Template.EscapingIsDirect: requires of the word class only that it has none of `@`, `%`, `(` and `)`; which other characters are letters is a parameter. Formatting directives other than `%%` and `%(name)s` are one error value, since escaping leaves none.
- BinaryStrings.ReadBack: `int(s, 2)` is modelled on strings of binary digits; signs, blanks and a `0b` prefix are not.
- BinaryStrings.BinaryRange: a negative width is not modelled.
- Fairness.Index: the quotient is a real number and division by zero gives no number; rounding, the averages and the printing are not modelled.
- StreamWriter.Sender.WriteUntilBufferFull: `Send` accepts between one and all of the bytes or refuses; a send that accepts zero bytes, the simulator and the TCP stack are not modelled.
- Patch writing happens on values; the objects of `PatchObjects` are not written out.
- DiffInput.AcceptedIffNoSingleLine: the diff is given by its chunks and every line of it ends in a newline; computing the differences of two files is not modelled.
- `Uniquefy` takes its container by value and changes nothing the caller sees, so it is not part of `Gather`.
- `Patch.apply` is not implemented in the program; `uncrustify`, temporary files and the command line of `check-style.py` are input and output.
- The reports, colours, output files and configuration of `test.py`.
- The floating-point and reflection helpers of `rad_util.py`, `random_vec` included.
- Waf task creation and the `command-output` feature of `misc.py`.
- The remaining examples, `utils/grid.py` and `utils/bench-simulator.cc`: scenario set-up and graphics that would only add easy members.
