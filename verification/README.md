# Verification model of the Windows driver analysis tools

This project models the parts of the repository whose correctness is an argument over all runs,
all files or all interleavings, and proves those arguments in Dafny 4.11
(`dafny verify dfyconfig.toml`).

| file | models |
|---|---|
| `Fixpoint.dfy` | least fixpoints of the linear recursions that QL predicates use |
| `Irql.dfy`, `IrqlMeaning.dfy`, `IrqlRuns.dfy`, `IrqlResults.dfy`, `IrqlMatching.dfy`, `IrqlChanging.dfy` | the potential-IRQL analysis, what it reports in terms of the program, driver runs, soundness, what the analysis can return, when it matches saves and restores as runs do, which functions change the IRQL |
| `DeadBranch.dfy` | the filter for calls in constantly false branches, and an interpreter of structured C |
| `Suppression.dfy` | scoping of `disable` by `push` and `pop` |
| `CondInit.dfy` | conditional initialisation of pointer parameters |
| `Sal.dfy` | binding of SAL annotations to declarations |
| `RefCount.dfy` | the reference-counted object, alone and under every interleaving |
| `Runner.dfy`, `RunnerPool.dfy` | the test runner, sequential and as a thread pool, and what it prints |
| `Mdl.dfy` | the loops that free an MDL chain |

## What is assumed

- CodeQL's own relations (successors, call targets, function exits, raw data flow, textual equality
  of arguments, statement nesting) are given relations. A graph has the shape CodeQL gives it: edges stay in a
  function, and the entry of a body is its block statement, neither a call nor a successor.
- A driver run records a saved level in some location when a raising or saving call is completed;
  records can be copied and lost but not invented. Annotated functions do what their annotations
  say; a function with neither body nor annotation leaves the level alone.
- The soundness theorem needs that every level a run brings back was saved by a call that the lowering or
  restoring call may undo (`FlowCovers`), and says so about the run at hand. Which calls these are is read
  off the program (`MayUndo`): for lowering calls from the given data flow, for restoring calls from paths
  and matching arguments; the library's search computes exactly them (`SourceIffMayUndo`). That a matching
  save which the activation has passed is among them is not assumed but proved, in bodies of any shape: it
  is exactly when no displacing save is reachable from it (`PassedSaveIsSourceIff`). Soundness then needs
  only that restores bring back such saves (`SoundWhenDisciplined`).
- In `DeadBranch` a function without a body may write any cell that a pointer or the address of a
  global reaches, and return any integer or such address; it does not extend memory. An object is one
  cell, so that stepping a pointer stays in its object; what comparing or subtracting addresses yields is
  left to the input. Operands and arguments are evaluated from left to right, and `&&` and `||` stop early.
- The external tools of the test runner succeed or fail as a test's `Outcome` says; no exception
  escapes a worker. Query names are distinct where the tables are compared.
- Reference counts are 32-bit and wrap. Threads call `AddRef` and `Release` only on references they
  hold, and no object has 2^32 references at once.

## What the proofs show about the code

- The analysis knows the level at every moment of a run exactly when the run meets only raises to
  known levels and calls with a body or an annotation (`PotentialIsSoundIffEvaluable`).
- The closure of IRQL-changing calls is documented as covering every IRQL-changing call, but a call
  of a function with a plain `_IRQL_restores_` parameter is not listed. An unflagged helper that
  releases what its caller acquired lowers the level in a run from the driver's entry
  (`UnflaggedHelperChangesLevel`). Over executions from any state whose records come from saving calls,
  reached by a run or not, an unflagged function keeps the level if and only if no enterable calls lead
  from it to such a restore that can complete (`UnflaggedKeepsLevelIff`); for runs from an entry this
  gives one direction.
- For a plain restore the "most recent" save is not the last one: only saves that are also global
  saves displace earlier ones, so that in a straight-line body every earlier matching save is a result
  (`StraightLineRestoreMatch`) and levels that were overwritten are reported (`EarlierSaveCounts`). For a
  global restore, a matching save after the restore removes all results, and the level in force goes
  unreported (`LaterSaveIsUnsound`).
- The comment on the cascade says that a lowering call returns the value of its argument; the code
  returns the levels before the raises that flow into the argument, and the model follows the code.
- Push and pop pair with the nearest pop, so the library agrees with a stack exactly on layouts
  where every push is closed before the next push (`AgreementIffWellBracketed`).
- An access in the condition of an `if` counts as initialising the parameter when the branch does, so
  a function can go unreported although a run assigns nothing (`GuardedAssignmentIsMissed`).
- When two or more other parameters are null checked, the search has no context and forgets what a
  check has decided, so a function can be reported although every run assigns (`RepeatedCheckIsMisreported`).
  For a given graph the search is exact, wherever the assignments are, if and only if it only follows
  runs (`SearchIsExactIff`), as it does when at most one other parameter is checked or no path checks one
  twice (`ChecksFollowRuns`). On such graphs over given statements the verdict is right if and only if no
  condition guards an assignment (`VerdictIsRightIffNothingIsGuarded`).
- In build-only mode a test whose project setup fails does not affect the exit code (`ExitCodeIff`).

## Model

| member | source | states |
|---|---|---|
| Irql.CascadeIsDependencyStep | src/drivers/libraries/Irql.qll:808-847 | the nested if/then/else of the cascade is, at every node and for any values of its recursive calls, one round of a system of literal facts, entry defaults and single-premise dependencies |
| IrqlResults.PotentialIsLeastSolution | src/drivers/libraries/Irql.qll:808-847 | the computed relation satisfies the recursive definition at every node and is contained in every relation closed under it |
| IrqlResults.PotentialIffExplained | src/drivers/libraries/Irql.qll:748-847 | a level is reported after a node iff a finite chain of predecessor, callee-exit, caller-predecessor or before-matched-save steps ends at a literal raise, a raising call or the entry of an uncalled function |
| IrqlMeaning.SpeakingCallReports | src/drivers/libraries/Irql.qll:808-828 | after a call of a primitive or annotated function, read off its name and annotations, exactly these levels are reported: 2 or the literal for a raise, the levels before a call it may undo for a lowering or restoring call, else the annotated levels, else those before the call |
| IrqlMeaning.SilentCallReports | src/drivers/libraries/Irql.qll:829-831 | after any other call exactly the levels at the exits of the called function are reported |
| IrqlMeaning.PlainNodeReports | src/drivers/libraries/Irql.qll:832-847 | after a node that is no call, exactly the levels before it, else before calls of its function, else the defaults |
| IrqlMeaning.SourceIffMayUndo | src/drivers/libraries/Irql.qll:544-573 | the computed sources are the raises that flow into the restore parameter of a lowering call, or the matching saves that lead to a restoring call along edges and from which no displacing save can be reached |
| IrqlRuns.PotentialIsSoundIffEvaluable | src/drivers/libraries/Irql.qll:808-847 | for every program and every run, through recursion and saved levels, whose restored levels the data flow accounts for: the concrete level is in the reported set at every moment iff the run meets no raise to an unknown level and no call without body and annotation |
| IrqlRuns.RunInv | src/drivers/libraries/Irql.qll:808-847 | any relation closed under the cascade, together with its claims about suspended callers and saved levels, is kept along such a run |
| IrqlRuns.RestoredKnown | src/drivers/libraries/Irql.qll:614-617 | in every relation closed under the cascade, a lowering or restoring node has every level known before a call that it may undo |
| IrqlRuns.UnevaluableIsSilent | src/drivers/libraries/Irql.qll:749-751 | after a raise to an unknown level, and after a call of a function without body and annotation, no level at all is reported |
| IrqlResults.FallbackUnusedOnRuns | src/drivers/libraries/Irql.qll:792-797 | wherever an evaluable run goes the public wrapper returns exactly the cascade's set, whatever the fallback proposes, and that set contains the level in force |
| IrqlResults.FallbackOnlyWhenSilent | src/drivers/libraries/Irql.qll:792-797 | the wrapper reports the cascade's levels and, exactly where there are none, those that the fallback proposes |
| IrqlResults.ExplicitIsLeastSolution | src/drivers/libraries/Irql.qll:885-914 | the explicit variant is the least solution of its own recursive definition |
| IrqlResults.ExplicitSpeakingCallReports | src/drivers/libraries/Irql.qll:885-905 | after calls of primitives and annotated functions the explicit variant reports what they say, as the potential one does |
| IrqlResults.ExplicitNodeReports | src/drivers/libraries/Irql.qll:906-913 | after every other node, unannotated calls included, it reports the levels before it or else before calls of its function, and no default |
| IrqlResults.PotentialIsExplicitOrDefault | src/drivers/libraries/Irql.qll:885-914 | when every call is a primitive or annotated, a level is potential iff it is explicit or a default of an uncalled entry that a chain reaches |
| IrqlResults.EntryLevels | src/drivers/libraries/Irql.qll:925-997 | for any annotations, however many on each side: the levels assumed at the entry of an uncalled function are those between some lower and some upper bound of the strongest annotations, with 0, DISPATCH_LEVEL or the global maximum for a missing bound, and 0 alone when there are none |
| IrqlResults.EntryLevelsHaveNoGaps | src/drivers/libraries/Irql.qll:925-945 | so they are one interval, although the code takes a range for every pair of bounds |
| IrqlResults.DefaultsAreLevels | src/drivers/libraries/Irql.qll:842-846 | entry defaults are never empty and lie in 0..max, and the test against -1 fails exactly for an empty interval |
| IrqlResults.PotentialRange | src/drivers/libraries/Irql.qll:808-847 | when literal raises are real levels, every level reported anywhere is in 0..max or a declared level of some called raising function |
| IrqlResults.RecentSaves | src/drivers/libraries/Irql.qll:679-688 | no result of the search for the matching global save reaches another, and there is one when matching saves lie on no common loop, one precedes the restore and none it reaches follows |
| IrqlResults.StraightLineMatch | src/drivers/libraries/Irql.qll:679-704 | in a body without branches the result is the last matching save up to the restore, and nothing when a matching save follows the restore |
| IrqlResults.StraightLineRestoreMatch | src/drivers/libraries/Irql.qll:544-573 | for a plain restore in such a body a matching save is a result iff no later matching save is also a global save, so ordinary saves do not displace one another |
| IrqlMatching.PassedSaveIsSourceIff | src/drivers/libraries/Irql.qll:544-573 | along any execution, through branches, loops, callees and recursion: a matching save that the activation has passed before a restore is a source computed for it iff no displacing save is reachable from it |
| IrqlMatching.EarlierSaveCounts | src/drivers/libraries/Irql.qll:544-553 | a body in which the second of two plain saves overwrites the first on the only path, and both their levels are reported after the restore |
| IrqlMatching.LaterSaveIsUnsound | src/drivers/libraries/Irql.qll:679-688 | a body with a save after the global restore, and a run of evaluable nodes after whose restore no level is reported |
| IrqlMatching.SoundWhenDisciplined | src/drivers/libraries/Irql.qll:808-847 | the soundness theorem without assuming that saves and restores are matched correctly, for runs whose restores bring back a matching save of their activation from which no displacing save is reachable |
| IrqlChanging.ChangingIsLeastSolution | src/drivers/libraries/Irql.qll:1059-1084 | the flagged functions are the least solution of the two mutually recursive predicates |
| IrqlChanging.ChangingIffCallPath | src/drivers/libraries/Irql.qll:1059-1084 | a function is flagged iff a chain of calls leads from it to a function annotated as raising, saving or restoring a global level, or one that calls a raising or lowering primitive or a function with a global annotation |
| IrqlChanging.UnflaggedFunctionKeepsLevel | src/drivers/libraries/Irql.qll:1050-1084 | from any moment of an activation of an unflagged function that cannot get to a plain restore, perhaps inside its callees, the level stays the same until the activation returns |
| IrqlChanging.UnflaggedKeepsLevelIff | src/drivers/libraries/Irql.qll:1059-1084 | over all executions whose saved records come from saving calls, an unflagged function keeps the level throughout its activations iff no enterable calls lead from it to a plain restore that can complete |
| IrqlChanging.UnflaggedHelperChangesLevel | src/drivers/libraries/Irql.qll:1050-1069 | a driver and a run from its entry in which an unflagged helper is entered at level 2 and leaves at level 0 |
| DeadBranch.SuppressedCallsNeverRun | src/drivers/libraries/Irql.qll:1021-1048 | no run of any program, with recursion, loops, early exits, pointers that are stepped, stored and passed in, and functions without a body that write through them, for any input, ever executes a call that the filter suppresses |
| DeadBranch.SuppressedIffHeldByDeadIf | src/drivers/libraries/Irql.qll:1021-1048 | a call is suppressed iff some `if`, at any depth, holds it in its then-branch and tests an expression of literals that is 0 in every state, or an automatic variable that every declaration sets to such an expression and that nothing in the function assigns, steps or takes the address of |
| DeadBranch.EvalSafe | src/drivers/libraries/Irql.qll:1030-1045 | evaluating any expression keeps every unchanging flag at 0 and out of reach of pointers, whatever the functions it calls write |
| DeadBranch.EachConditionIsNeeded | src/drivers/libraries/Irql.qll:1005-1019 | for each condition of the filter an instance of the documented pattern that fails it, because the variable is static, starts as 1, is assigned, stepped or written through its address, and a run of it that executes the call |
| Suppression.ScopeAgainstApplies | src/drivers/libraries/Suppression.qll:312-326 | the fast range contains every location the precise rule covers, equals it for a disable inside a segment, and for one outside adds exactly the later locations in some segment |
| Suppression.SegmentIffNearest | src/drivers/libraries/Suppression.qll:362-375 | for pragmas of any extent, in any order, even on one line: a push is paired with those pops of its kind, not starting before it ends, that start no later than any of them ends |
| Suppression.SegmentIff | src/drivers/libraries/Suppression.qll:362-375 | a push is paired with a pop iff that pop is the first after it |
| Suppression.PushHasOnePop | src/drivers/libraries/Suppression.qll:362-375 | a push with a later pop is paired with exactly one pop |
| Suppression.SegmentsNestAtTheEnd | src/drivers/libraries/Suppression.qll:356-375 | two segments of one kind are disjoint or end at the same pop |
| Suppression.ScopeEndIsUnique | src/drivers/libraries/Suppression.qll:312-326 | the fast range of a disable has one start and one end however many pushes precede it |
| Suppression.MixedScopeEndIsUniqueIff | src/drivers/libraries/Suppression.qll:312-326 | in a file that mixes `warning` and `prefast` pragmas the range of a disable has one end iff the disable does not lie in segments of both kinds |
| Suppression.LibraryEqualsStack | src/drivers/libraries/Suppression.qll:289-302 | in a well-bracketed file a rule is disabled on a line by the library iff a scan that saves and clears at push and restores at pop has it disabled there |
| Suppression.AgreementIffWellBracketed | src/drivers/libraries/Suppression.qll:289-302 | for a layout of pushes and pops on lines from 2 on, with a free line between any two: library and stack agree on all lines wherever disables are put iff the layout is well bracketed |
| CondInit.ReachedIffSearchPath | src/microsoft/Likely Bugs/Memory Management/InitializationFunctions.qll:241-267 | a node is reached without reassignment iff a path leads there along edges the null checks and the context admit |
| CondInit.UnreachedExitMeansReassigned | src/microsoft/Likely Bugs/Memory Management/InitializationFunctions.qll:241-267 | if the exit is unreached under a context, every run that fits the context with the parameter non-null meets a reassignment |
| CondInit.SearchIsExact | src/microsoft/Likely Bugs/Memory Management/InitializationFunctions.qll:285-300 | when at most one other parameter is checked, or no path checks one twice, the exit is reached under a considered context iff some consistent run that fits it reaches the exit without reassignment |
| CondInit.SearchIsExactIff | src/microsoft/Likely Bugs/Memory Management/InitializationFunctions.qll:241-267 | for a given graph, null checks and context: the search agrees with the runs wherever the reassignments are iff every path it may take to the exit has a fitting run that stays on it |
| CondInit.ChecksFollowRuns | src/microsoft/Likely Bugs/Memory Management/InitializationFunctions.qll:285-300 | and so it is, under every considered context, when at most one other parameter is checked or no path checks one twice |
| CondInit.ContextsAre | src/microsoft/Likely Bugs/Memory Management/InitializationFunctions.qll:285-300 | both nullnesses of another parameter are considered iff it is the only other one that is checked, and no context iff there is no such parameter |
| CondInit.ContextsCoverRuns | src/microsoft/Likely Bugs/Memory Management/InitializationFunctions.qll:285-300 | on such graphs the considered contexts together lose no run: under one of them the exit is reached iff some consistent run avoids the reassignments |
| CondInit.ReportedIff | src/microsoft/Likely Bugs/Memory Management/InitializationFunctions.qll:369-369 | on such graphs a function is reported under some context iff some consistent run meets no node that counts as reassignment |
| CondInit.RepeatedCheckIsMisreported | src/microsoft/Likely Bugs/Memory Management/InitializationFunctions.qll:296-299 | a function without any `if` around its assignments, with three null checks of two other parameters, is reported although every consistent run assigns |
| CondInit.ContextsRefine | src/microsoft/Likely Bugs/Memory Management/InitializationFunctions.qll:111-114 | either context reaches only nodes reached without one, and the two together reach all of them when no path checks the other parameter twice |
| CondInit.SharedSuccessorIsUnsound | src/microsoft/Likely Bugs/Memory Management/InitializationFunctions.qll:247-257 | the assumption that a null check has two distinct outcomes is necessary: were both the same node, the exit would be unreached although a consistent run assigns nothing |
| CondInit.ReassignmentsStep | src/microsoft/Likely Bugs/Memory Management/InitializationFunctions.qll:212-238 | a node counts as reassignment iff it is one or is an access in the condition of an `if` whose branch holds a node that counts |
| CondInit.GuardedAssignmentIsMissed | src/microsoft/Likely Bugs/Memory Management/InitializationFunctions.qll:223-225 | for a guarded assignment the function is not reported although a consistent run performs no assignment |
| CondInit.ReassignmentIffGuard | src/microsoft/Likely Bugs/Memory Management/InitializationFunctions.qll:212-238 | a node counts iff it is an assignment or the start of a chain of nested conditions that guard one |
| CondInit.VerdictIsWrongIff | src/microsoft/Likely Bugs/Memory Management/InitializationFunctions.qll:369-369 | for one function and context in which the search follows runs: the verdict is wrong iff some fitting run assigns nothing but every such run evaluates a condition that guards an assignment |
| CondInit.VerdictIsRightIffNothingIsGuarded | src/microsoft/Likely Bugs/Memory Management/InitializationFunctions.qll:212-238 | for given assignments and `if`s: the verdict is right on every graph over them, under every context in which the search follows runs, iff no condition with an access that is not itself an assignment has an assignment in its branch |
| Sal.AnnotatesIffReaches | src/drivers/libraries/SAL.qll:146-156 | a ranked position annotates a start iff that start has a later rank and all ranks before it, from the position on, are annotations |
| Sal.AnnotationBelongsIff | src/drivers/libraries/SAL.qll:134-190 | for an annotation and a declaration of a file: they belong together iff the annotation comes first and, from it up to the declaration, other declarations start and bodies and initialisers end at annotation positions only |
| Sal.AnnotatesIffNothingBetween | src/drivers/libraries/SAL.qll:138-145 | in terms of positions: the annotation comes first, and up to the declaration there is nothing but annotations, no other declaration and no end of a body or initialiser |
| Sal.Rank | src/drivers/libraries/SAL.qll:227-234 | every set of positions has a ranking, by line and within a line by column |
| Sal.AtMostOneStart | src/drivers/libraries/SAL.qll:134-156 | when annotation and declaration positions are disjoint an annotation belongs to one declaration position at most |
| Sal.SweepIsAnnotates | src/drivers/libraries/SAL.qll:146-156 | then one backward sweep over the ranked positions computes the recursive relation |
| Interlocked.ToUlongOfWrap | src/drivers/general/queries/MultithreadedAVCondition/driver_snippet.cpp:14-22 | whatever a wrapped count was, the value returned for it is the count modulo 2^32 |
| RefCountClass.Module.DllAddRef | src/drivers/general/queries/MultithreadedAVCondition/driver_snippet.cpp:14-17 | steps the module count up with 32-bit wrap-around and returns it |
| RefCountClass.Module.DllRelease | src/drivers/general/queries/MultithreadedAVCondition/driver_snippet.cpp:19-22 | steps the module count down with 32-bit wrap-around and returns it |
| RefCountClass.CObject.constructor | src/drivers/general/queries/MultithreadedAVCondition/driver_snippet.cpp:72-75 | a new object is live with count 1 and is counted by the module |
| RefCountClass.CObject.AddRef | src/drivers/general/queries/MultithreadedAVCondition/driver_snippet.cpp:65-69 | steps the count of a live object up and returns it |
| RefCountClass.CObject.ReleaseGood | src/drivers/general/queries/MultithreadedAVCondition/driver_snippet.cpp:43-53 | steps the count down and returns it; the object dies, and the module count drops, exactly when it reaches 0 |
| RefCountClass.CObject.ReleaseBad | src/drivers/general/queries/MultithreadedAVCondition/driver_snippet.cpp:55-64 | on one thread, the same contract |
| RefCountClass.CObject.CreateInstance | src/drivers/general/queries/MultithreadedAVCondition/driver_snippet.cpp:28-41 | both objects are dead at the end and the module count is unchanged |
| RefCount.StepKeepsInv | src/drivers/general/queries/MultithreadedAVCondition/driver_snippet.cpp:43-80 | every atomic step of every thread keeps counts, phases, ownership and module count consistent, and only the read in `Release_bad` can touch a deleted object |
| RefCount.GoodReleaseIsSafe | src/drivers/general/queries/MultithreadedAVCondition/driver_snippet.cpp:43-53 | over all interleavings with `Release_good`: the count is the number of outstanding references, the module count that of the live objects, the assertion holds, nothing is deleted twice or while referenced, and nothing is touched after deletion |
| RefCount.QuietObjects | src/drivers/general/queries/MultithreadedAVCondition/driver_snippet.cpp:43-80 | whenever all threads are idle exactly the unreferenced objects have been deleted and freed |
| RefCount.ReleaseAlone | src/drivers/general/queries/MultithreadedAVCondition/driver_snippet.cpp:43-53 | the atomic steps of `Release_good`, uninterrupted, have the effect of the method's contract |
| RefCount.BadReleaseCanFault | src/drivers/general/queries/MultithreadedAVCondition/driver_snippet.cpp:55-64 | some run from the start, in which two threads come to share an object and give it up by `Release_bad`, reads the count of an object whose deletion has begun |
| RefCount.BadReleaseFaults | src/drivers/general/queries/MultithreadedAVCondition/driver_snippet.cpp:57-63 | the interleaving: the second thread decrements to 0 and starts deleting between the first one's decrement and its read |
| RefCount.BadReadIsSafeIffStillHolding | src/drivers/general/queries/MultithreadedAVCondition/driver_snippet.cpp:57-63 | between decrement and read the object survives everything the other threads can do iff the thread still holds a reference to it |
| RunnerClass.Runner.NextProgressLabel | src/drivers/test/build_create_analyze_test.py:39-44 | advances the counter by one and returns it with the total |
| RunnerClass.Runner.RunTest | src/drivers/test/build_create_analyze_test.py:605-658 | announces the test once, records a failed database creation, and yields a result file iff all steps of the mode succeed |
| RunnerClass.Runner.RunSingleTest | src/drivers/test/build_create_analyze_test.py:884-911 | writes both table rows iff the test passes, and returns its name iff it fails |
| RunnerClass.Runner.RunTests | src/drivers/test/build_create_analyze_test.py:914-997 | with one job: labels 1 to N in order, tables, failed list, creation failures and exit code as specified for the whole list |
| RunnerSpec.EachTestIsAccountedFor | src/drivers/test/build_create_analyze_test.py:884-911 | with distinct names a test is in exactly one of table and failed list: in the table, with errors + warnings + notes, iff setup, creation, analysis, comparison and reading, as far as the mode has them, all succeed |
| RunnerSpec.OnlyTestsAreListed | src/drivers/test/build_create_analyze_test.py:632-636 | tables and lists name tests only, none when only building, and a creation failure is listed iff setup succeeded and creation failed |
| RunnerSpec.AnyFailureFailsTheJob | src/drivers/test/build_create_analyze_test.py:627-658 | making any one stage of one test fail puts the test on the failed list and the exit code at 1 |
| RunnerSpec.ExitCodeIff | src/drivers/test/build_create_analyze_test.py:975-997 | the exit code is 1 iff some stage of some test fails, or, when only building, iff some creation fails, and 0 otherwise |
| RunnerPool.ParallelEqualsSequential | src/drivers/test/build_create_analyze_test.py:936-958 | any number of workers, any interleaving: a run with nothing left to do has collected every test, released its locks, handed out labels 1 to N once each, and left the tables, exit code and, up to order, lists of the sequential run |
| RunnerPool.NoDeadlock | src/drivers/test/build_create_analyze_test.py:617-624 | as long as some test is not collected some step is possible, despite the nested locks |
| RunnerPool.RunsAreFinite | src/drivers/test/build_create_analyze_test.py:936-958 | no run takes more than twelve steps per test |
| RunnerPool.LocksExclude | src/drivers/test/build_create_analyze_test.py:24-36 | each lock has one holder at a time, and the progress lock is held only under the print lock |
| RunnerOutput.OutputIsComplete | src/drivers/test/build_create_analyze_test.py:617-624 | a run with nothing left to do has announced the tests in the order of their labels, each once, and has reported each failed test once and no other |
| RunnerOutput.WorkersTakeTestsInOrder | src/drivers/test/build_create_analyze_test.py:936-958 | at every moment the tests taken are the first ones, and at most as many as there are workers are in work |
| RunnerOutput.SharedDataIsGuarded | src/drivers/test/build_create_analyze_test.py:24-44 | only the holder of the print lock prints, only the holder of both nested locks counts, and only the holder of the results lock writes to the tables |
| RunnerOutput.TablesAgree | src/drivers/test/build_create_analyze_test.py:902-910 | whenever the results lock is free both tables have rows for the same tests |
| MdlChain.Manager.OpaqueMdlUsePass1 | src/drivers/wdm/queries/OpaqueMdlUse/driver_snippet.c:13-26 | for every acyclic chain: the calls made are, in order, unlock if the pages are locked and then free, and nothing freed is accessed |
| MdlChain.Manager.OpaqueMdlUsePass2 | src/drivers/wdm/queries/OpaqueMdlUse/driver_snippet.c:30-43 | the same with the byte count in the test |
| MdlChain.Manager.OpaqueMdlWritePass2 | src/drivers/wdm/queries/OpaqueMdlWrite/driver_snippet.c:29-43 | clearing the link of each unlocked MDL changes none of this |
| MdlEvents.FreedOnce | src/drivers/wdm/queries/OpaqueMdlUse/driver_snippet.c:17-25 | those calls free each MDL of the chain once and no other |
| MdlEvents.UnlockedOnce | src/drivers/wdm/queries/OpaqueMdlUse/driver_snippet.c:17-25 | and unlock, once, exactly those that meet the test |
| MdlEvents.NoUseAfterFree | src/drivers/wdm/queries/OpaqueMdlUse/driver_snippet.c:17-25 | and mention no MDL after it is freed |

## Left out

- CodeQL's engine and libraries (extraction, data flow, virtual dispatch, guards): their relations are given.
- Regular expressions: pragma heads, `_When_` conditions and annotation texts enter already parsed, and files are taken one at a time.
- `SuppressPragma` and the mapping of rule names: one line ahead, and a table.
- The syntactic IRQL fallback for loop bodies: any relation, because the wrapper theorem holds for every fallback.
- The role-type, deprecated-API, registry-isolation and double-fetch queries: lookups and string lists, or built on packages that are not part of this model.
- Jumps into a scope (`goto`, `switch`) in `DeadBranch`: a jump past an initialiser leaves the variable undefined, which the filter does not look for.
- Excel output, file copying, `--compare_results` (which exits before failures are counted) and runs on external drivers.
- Lock release on exceptions in `run_test`: no exception escapes a worker here.
- `Release` of a reference one does not hold, and object sharing without a reference: outside the contract of reference counting.
- MDL flags other than "pages locked" and chains with a cycle.
