# Verification of bsord's plano library and crash reporter

This project models, in Dafny, the parts of the repository that keep state
across calls: the command-line library plano (`subrepos/plano/src/plano`) and
the stack walks of the crash reporter (`panic.c`). Verify with
`dafny verify dfyconfig.toml`.

| part of the system | files |
|---|---|
| copying, moving and removing file trees, in place | `FileTree.dfy`, `FileOps.dfy`, `FailedCopies.dfy`, `FileTheorems.dfy` |
| the filter loops of `list_dir` and `find`, and `sorted` | `Listing.dfy`, `Ordering.dfy` |
| nested timers over one process alarm | `Timers.dfy`, `TimerObjects.dfy`, `TimerTheorems.dfy` |
| commands: late binding, running stack, trace | `Dispatch.dfy`, `PlanoCommands.dfy`, `DispatchTheorems.dfy` |
| from a signature to a call | `Signatures.dfy`, `Calls.dfy`, `CallTheorems.dfy`, `ParameterTheorems.dfy` |
| logging scopes, environment scopes | `Logging.dfy`, `Environ.dfy` |
| the test runner | `TestRunner.dfy` |
| durations as text, polling with backoff | `Durations.dfy`, `Backoff.dfy` |
| the crash reporter | `Panic.dfy`, `Hex.dfy` |
| shared datatypes | `Common.dfy` |

Objects that the source updates in place are classes whose methods do the same
and whose contracts give the whole new state through a specification function;
theorems about whole runs are lemmas about those functions. Runs of timers and
of logging scopes are lists of steps, which cover every way control can leave a
scope. Command functions are scripts of calls, `parent()` calls, raises and try
blocks; `fuel` bounds the depth of calls and is shown not to matter.

Where the code differs from what its names or documentation suggest, the model
follows the code:

- `copy` fails on an empty source directory whose counterpart does not exist,
  because only copies of children create the destination directory before
  `copystat` (`FileTheorems.FreshCopy` gives the exact condition,
  `FailedCopies.LeftBy` the tree that is left).
- An exception leaves its command on the stack of running commands; a later
  pop takes the topmost entry, whoever's it is (`DispatchTheorems.StackAccounting`).
- `parent()` works one level up only: a function that it runs behaves in every
  way as if its command had no parent (`DispatchTheorems.ParentOnce`).
- Leaving a logging scope into "disabled" does not restore the output
  (`Logging.LeavingRestores` says exactly when the settings return); only
  messages at the level "disabled" itself can tell, and
  `Logging.SameIffNoneAstray` says exactly when they do.
- `find` ignores all include patterns but the first, and `list_dir` without an
  include pattern ignores the exclude patterns (`Listing.FoundExactly`,
  `Listing.ListedExactly`).
- A defaulted parameter before non-empty `*args` makes the assembled call a
  TypeError (`CallTheorems.UndecoratedCall`).
- The trace's argument display looks positional parameters up by index, so a
  call from another command that leaves one to its default or passes it by
  keyword raises an IndexError (`CallTheorems.DisplayFailsExactly`,
  `CallTheorems.OmittedPositionalFails`), after the push and before the arrow
  (`DispatchTheorems.UndisplayedCall`). A call from the command line does so when
  a parameter passed by keyword is declared before a positional one
  (`CallTheorems.DisplayFailsFromLine`, `CallTheorems.KeywordFirstHappens`); if
  the call is otherwise right, only for a positional `passthrough_args`
  (`CallTheorems.DisplayShowsOwn`).
- `--help`, `--init-only` and refused arguments do not keep the preceding commands
  of a comma sequence from running (`PlanoCommands.PlanoCommand.RunNamed`).
- `fail_fast` has no effect, since `run_tests` ignores what `_run_test` returns
  (`TestRunner.TestRun.RunModules`).
- A failed unwinder step in `print_registers` is reported with the error code
  of the initialisation, which is 0; a step that finds no more frames is not
  noticed there (`Panic.PrintRegisters`).

## Model

| member | source | states |
|---|---|---|
| FileOps.FileSystem.MakeDir | subrepos/plano/src/plano/main.py:286-294 | `make_dir` creates the directory and every missing ancestor, leaves all other entries, and fails only if something other than a directory is in the way; an existing path is left alone |
| FileOps.FileSystem.MakeParentDir | subrepos/plano/src/plano/main.py:296-297 | the same for the directories above a path; when something is in the way nothing changes and the parent is not a directory afterwards |
| FileOps.FileSystem.ListDir | subrepos/plano/src/plano/main.py:312-333 | `list_dir` returns, in order and once each, exactly the entries that match all include patterns and no exclude pattern (all entries without an include pattern) |
| FileOps.FileSystem.Remove | subrepos/plano/src/plano/main.py:535-550 | each path that exists goes with everything below it, missing ones are skipped, every other entry keeps its value |
| FileOps.FileSystem.MakeLink | subrepos/plano/src/plano/main.py:766-774 | `make_link` makes ancestors, replaces whatever stands at the path, a whole directory included, and leaves everything else; exact success condition |
| FileOps.FileSystem.Copy | subrepos/plano/src/plano/main.py:500-521 | recursive copy, in place and terminating: into an existing directory with inside=True the source goes under its own base name, otherwise to the given path itself, and every entry stands at its place there; it succeeds if and only if `CanCopy` held before; then the tree is exactly `Merge` of the old one; when it fails the tree is exactly the one `LeftBy` describes: untouched if the way is blocked, otherwise merged, in the order of visits, up to the first empty directory without a counterpart |
| FileOps.FileSystem.CopyEntries | subrepos/plano/src/plano/main.py:511-515 | the loop over a directory's sorted names: with any number of children done the tree is the partial merge, and the first failing child determines what the whole copy leaves |
| FileOps.FileSystem.CopyLeaf | subrepos/plano/src/plano/main.py:516-519 | the branches for links and files |
| FileOps.FileSystem.Move | subrepos/plano/src/plano/main.py:524-533 | move succeeds exactly when copy does, to the same place, and then removes the source; when it fails the tree is the one the failed copy leaves and the source subtree is untouched |
| FailedCopies.FailedChildLeaves | subrepos/plano/src/plano/main.py:511-515 | what a directory's copy leaves is what the copy of its first failing child leaves, on top of the children before it: the stopping place is the first in the order of visits, over the whole tree |
| FailedCopies.BeforeIs | subrepos/plano/src/plano/main.py:512-513 | the order of visits: what is above a path comes before it, otherwise the first differing names decide |
| FailedCopies.UpToAt | subrepos/plano/src/plano/main.py:500-521 | path by path, the tree merged up to a stopping place: entries visited before it are copied, the others are as they were, ancestors are directories |
| FailedCopies.OneOutcome | subrepos/plano/src/plano/main.py:500-521 | the tree that a failed copy leaves is determined by the tree before it |
| FailedCopies.FailsAgain | subrepos/plano/src/plano/main.py:500-521 | it is a fixed point: copying again stops at the same place and changes nothing |
| FileTree.MergeAt | subrepos/plano/src/plano/main.py:500-521 | what a finished copy shows at every path: images win over old entries, unmatched destination entries stay, missing ancestors appear as directories, nothing else appears |
| FileTree.PartMergeStep | subrepos/plano/src/plano/main.py:512-513 | copying one more child turns the partial merge into the next one |
| FileTree.PartMergeAll | subrepos/plano/src/plano/main.py:511-515 | after all children the directory's merge is complete |
| FileTree.CanCopyByChildren | subrepos/plano/src/plano/main.py:511-515 | a directory can be copied if and only if each child can and, if it has none, its counterpart already exists (only child copies create it before `copystat`) |
| FileTree.NextChild | subrepos/plano/src/plano/main.py:512-513 | before each recursive call the child is disjoint, conflict free and smaller than its directory, and copies made so far do not change whether it can be copied |
| FileTheorems.CopyKeepsSource | subrepos/plano/src/plano/main.py:500-521 | a copy, finished or failed, leaves the source as it was |
| FileTheorems.CopyLands | subrepos/plano/src/plano/main.py:500-521 | every entry of the source is found at the same place under the destination |
| FileTheorems.MoveLands | subrepos/plano/src/plano/main.py:524-533 | so it is after a move, and nothing is left at the source |
| FileTheorems.CopyAgain | subrepos/plano/src/plano/main.py:500-521 | a finished copy is a fixed point: copying again is allowed, succeeds and changes nothing |
| FileTheorems.FreshCopy | subrepos/plano/src/plano/main.py:506-515 | to a new place, copy succeeds if and only if the source exists, only directories stand above the destination and no source directory is empty |
| FileTheorems.EmptyDirFails | subrepos/plano/src/plano/main.py:511-515 | a tree in which copying an empty directory fails |
| FileTheorems.MoveRenames | subrepos/plano/src/plano/main.py:524-533 | a move to a new place is a renaming: every entry is found under its new path, no two collide, nothing but ancestors is added |
| FileTheorems.MoveBack | subrepos/plano/src/plano/main.py:524-533 | moving back with inside=False is allowed, succeeds and restores the tree up to the ancestors that the first move made |
| Listing.RemoveMatches | subrepos/plano/src/plano/main.py:274-275 | removing matches one by one by value removes exactly the matching names, even when names repeat |
| Listing.RemoveNextMatch | subrepos/plano/src/plano/main.py:330-331 | each `names.remove` takes out the next match by position |
| Listing.ListNames | subrepos/plano/src/plano/main.py:326-333 | the nested filter loops of `list_dir` return the sorted names that match every include pattern and no exclude pattern; with no include pattern exclude is ignored |
| Listing.ListedExactly | subrepos/plano/src/plano/main.py:326-333 | the same name by name, with multiplicities: every include pattern and no exclude pattern matches |
| Listing.Find | subrepos/plano/src/plano/main.py:251-284 | `find` returns the sorted set `Found` |
| Listing.FoundExactly | subrepos/plano/src/plano/main.py:266-282 | a path, the root and the name with a separator between them unless the root is empty or ends with one, is found if and only if the name matches the first include pattern and no exclude pattern: later include patterns are ignored, and without one nothing is found |
| Ordering.LeIs | subrepos/plano/src/plano/main.py:333 | the order of names: a prefix first, otherwise the first differing character |
| Ordering.SortSorted | subrepos/plano/src/plano/main.py:333 | sorted() orders and keeps every occurrence |
| Ordering.SortedUnique | subrepos/plano/src/plano/main.py:284 | order and occurrences determine the sorted list |
| TimerObjects.Timer.Begin | subrepos/plano/src/plano/main.py:1493-1501 | `start` saves handler and remaining alarm and arms its own |
| TimerObjects.Timer.End | subrepos/plano/src/plano/main.py:1503-1510 | `stop` gives back the saved handler and alarm, or changes nothing when its assertion fails, which it does unless time has passed since `start` |
| TimerObjects.TimedBlock | subrepos/plano/src/plano/main.py:1512-1526 | inside a timed block `elapsed_time` reads the time since entering; at any later time, and even if leaving failed, it reads the time between entering and leaving |
| Timers.StepImplements | subrepos/plano/src/plano/main.py:1493-1510 | entering, leaving and elapsing each keep the relation between the one alarm and the private clocks |
| Timers.RunImplements | subrepos/plano/src/plano/main.py:1482-1529 | in every well-nested run the alarm holds what is left of the innermost timed scope's own time, each saved timeout what is left of the scope it interrupted, the handler is the innermost one's, and the same handlers are called as with a private timer for each scope |
| TimerTheorems.RaisedExactly | subrepos/plano/src/plano/main.py:1493-1529 | over every run an open timed scope has been timed out if and only if its own time has reached its timeout; no handler is called twice, and none after its scope is left |
| TimerTheorems.RunsFromTheStart | subrepos/plano/src/plano/main.py:1482-1529 | all of this for every run from any process state with or without an alarm of its own |
| TimerTheorems.WallTimeBound | subrepos/plano/src/plano/main.py:1493-1510 | elapsed time plus what is left to open scopes never exceeds the timeouts given out |
| TimerTheorems.WallTimeOfMachine | subrepos/plano/src/plano/main.py:1493-1510 | a scope tree in which every scope stops when told to takes at most the sum of its timeouts |
| TimerTheorems.ScopeRestores | subrepos/plano/src/plano/main.py:1503-1517 | whatever happens inside a timed scope, leaving it restores handler, alarm and all saved fields |
| PlanoCommands.PlanoCommand.CallCommand | subrepos/plano/src/plano/command.py:402-442 | `__call__` with its redirect and mutable stack produces the outcome, stack and trace of ideal dispatch by name, and raises at once when the name is not bound; its termination measure shows that one redirect is enough |
| PlanoCommands.PlanoCommand.Finish | subrepos/plano/src/plano/command.py:435-442 | the closing lines: `<--`, and `--|` with the name of the command that is then on top of the stack, if any |
| PlanoCommands.PlanoCommand.Activate | subrepos/plano/src/plano/command.py:418-442 | pushing, looking up the arguments to display, tracing, running and popping; no arrow and no call of the function when the lookup fails, no pop and no closing lines when it or the function raises |
| PlanoCommands.PlanoCommand.CallParent | subrepos/plano/src/plano/command.py:477-484 | `parent()` finds a parent only if its caller's caller is a `__call__`; it adds nothing to the stack or the trace |
| PlanoCommands.PlanoCommand.RunStatements | subrepos/plano/src/plano/command.py:433 | a command function's calls, raises and try blocks, against ideal dispatch |
| PlanoCommands.PlanoCommand.BindCommands | subrepos/plano/src/plano/command.py:245-248 | the loop over module attributes computes `Bind` |
| PlanoCommands.PlanoCommand.RunNamed | subrepos/plano/src/plano/command.py:145-194 | a comma sequence: all names are looked up before anything runs; then the preceding commands run, and the selected one after them unless unparsed arguments are refused or --init-only or --help is given; how the command line ends |
| DispatchTheorems.ScriptSplit | subrepos/plano/src/plano/command.py:167-171 | running a sequence is running the preceding commands and, if none of them fails, the selected one |
| Dispatch.BindLast | subrepos/plano/src/plano/command.py:245-248 | the last command of a name wins |
| Dispatch.BindOther | subrepos/plano/src/plano/command.py:245-248 | a name that no attribute defines keeps its entry |
| Dispatch.BindKeepsNames | subrepos/plano/src/plano/command.py:245-248 | every name stays bound to a command of that name |
| DispatchTheorems.FuelIrrelevant | subrepos/plano/src/plano/command.py:402-442 | a run that ends is independent of the fuel that bounds its depth |
| DispatchTheorems.LateBinding | subrepos/plano/src/plano/command.py:402-416 | whichever Command objects are called, overridden ones included, at any depth, only the commands bound to their names run |
| DispatchTheorems.CallRunsBound | subrepos/plano/src/plano/command.py:402-433 | a call runs the command bound to the callee's name once, with the arguments given |
| DispatchTheorems.TryCatches | subrepos/plano/src/plano/command.py:433 | a try block around calls keeps what its body did and ends as the handler does, if the fault is one it catches |
| DispatchTheorems.ParentOnce | subrepos/plano/src/plano/command.py:477-484 | every script, to any depth, runs in a function entered by `parent()` exactly as in one whose command has no parent |
| DispatchTheorems.ParentRunsAlone | subrepos/plano/src/plano/command.py:477-484 | so `parent()` runs the parent's function in place as that of a command without a parent, even if the parent has one |
| DispatchTheorems.UndisplayedCall | subrepos/plano/src/plano/command.py:418-426 | a call of a bound command prints no arrow if and only if its arguments cannot be looked up; it then leaves its command on the stack and raises before the function runs |
| DispatchTheorems.StackFromTrace | subrepos/plano/src/plano/command.py:418-442 | over any run the stack grows by the opening arrows less the closing ones plus the calls that could not be displayed |
| DispatchTheorems.StackAccounting | subrepos/plano/src/plano/command.py:420-442 | after every run the stack is longer by the number of aborted activations, keeps what it held as a prefix, and is restored exactly if nothing aborted |
| DispatchTheorems.DepthsShown | subrepos/plano/src/plano/command.py:420-426 | the depth each arrow shows counts the live and the aborted activations at that moment |
| DispatchTheorems.ParseRender | subrepos/plano/src/plano/command.py:418-442 | the trace of any forest of returned activations is well bracketed at its nesting depths, each `--|` line names the activation around the one that ended, and it is read back to that forest |
| DispatchTheorems.StackIs | subrepos/plano/src/plano/command.py:420-437 | the stack after a run is the one before it and the commands pushed and not popped, in order |
| DispatchTheorems.ReturnsNamed | subrepos/plano/src/plano/command.py:436-442 | whatever aborts in a run, its `--|` lines, in order, name for each returning activation the command pushed last among those not popped |
| DispatchTheorems.CleanRun | subrepos/plano/src/plano/command.py:402-442 | any run in which nothing aborts restores the stack exactly, and its trace reads back to the calls of ideal dispatch |
| DispatchTheorems.TraceDeterminesCalls | subrepos/plano/src/plano/command.py:418-442 | exception-free runs with equal traces made the same calls |
| DispatchTheorems.ShowIs | subrepos/plano/src/plano/command.py:423-442 | lines of each kind as printed, with and without arguments |
| DispatchTheorems.ShowInjective | subrepos/plano/src/plano/command.py:425-442 | printed lines about one-word names are equal only if depth, kind, name and arguments are |
| DispatchTheorems.PrintDeterminesCalls | subrepos/plano/src/plano/command.py:418-442 | where command names are single words, exception-free runs whose printed traces are equal made the same calls |
| DispatchTheorems.NamedInOrder | subrepos/plano/src/plano/command.py:145-171 | the named commands run in order, each once, up to the first that fails; only the last is given arguments |
| Signatures.ProcessParameters | subrepos/plano/src/plano/command.py:355-400 | the loop over a signature computes `Derived`, or the decorator's own parameters for (args, kwargs) |
| ParameterTheorems.ParametersAre | subrepos/plano/src/plano/command.py:361-398 | field by field: each parameter but **kwargs yields one command parameter of its name; its default is the signature's if it has one there or is keyword-only, otherwise that of the decorator's last entry of the name, or None; optional, positional and multiple likewise |
| ParameterTheorems.DictionaryIs | subrepos/plano/src/plano/command.py:357-366 | for a function of the two parameters args and kwargs: one command parameter for each name in the decorator, as its last entry says, in the order of first appearance |
| Signatures.Init | subrepos/plano/src/plano/command.py:173-189 | the loop over parameters computes the arguments by position and by keyword; stray unparsed arguments are an error |
| CallTheorems.CallIsRight | subrepos/plano/src/plano/command.py:160-189 | Python's binding rule gives every parameter its own value, and nothing else, if and only if the side conditions `Assembles` hold |
| CallTheorems.SlotsClear | subrepos/plano/src/plano/command.py:176-186 | no parameter is given both by position and by keyword, exactly when nothing is given by position after the lead |
| CallTheorems.MisplacedFails | subrepos/plano/src/plano/command.py:176-186 | a value given by position after a parameter that is passed by keyword makes the call fail |
| CallTheorems.UndecoratedCall | subrepos/plano/src/plano/command.py:355-400 | a function under a plain decorator is called right, and without a TypeError, if and only if defaulted parameters and non-empty *args do not meet; one with the two parameters args and kwargs is called with nothing, and is right exactly when nothing is what it needs |
| CallTheorems.StarAfterDefaultHappens | subrepos/plano/src/plano/command.py:355-400 | def f(a, b=1, *c) with a third argument: a signature and a command line for which the call is a TypeError |
| CallTheorems.TakesAnyCall | subrepos/plano/src/plano/command.py:364-366 | a function declared with *args and **kwargs alone receives any call as it was made |
| CallTheorems.RelaysCall | subrepos/plano/src/plano/command.py:325-329 | a command with a parent whose function takes *args and **kwargs alone accepts the call assembled from the parent's parameters; passed on to `parent()`, it gives the parent's function exactly its own values if and only if the parent's declarations meet the side conditions |
| Signatures.GetDisplayArgs | subrepos/plano/src/plano/command.py:444-470 | the loop computes `Display`, whose only failure is the lookup of a positional parameter beyond the arguments |
| ParameterTheorems.DisplayShows | subrepos/plano/src/plano/command.py:444-470 | the display shows each parameter in turn: the arguments from its index on for a list, its own argument unless it is optional and equal to the default, a keyword argument under its own name unless it equals the default |
| CallTheorems.DisplayLooksUp | subrepos/plano/src/plano/command.py:444-470 | for any parameters and any arguments the display fails if and only if some positional parameter that takes no list stands beyond the arguments given by position |
| CallTheorems.DisplayFailsExactly | subrepos/plano/src/plano/command.py:444-470 | for all arguments of any call of a function that its parameters describe, this happens if and only if some positional parameter is not filled by position (a keyword-only one: too few arguments); otherwise each looked-up argument is the one its parameter receives |
| CallTheorems.OmittedPositionalFails | subrepos/plano/src/plano/command.py:444-470 | a call that Python accepts and the display does not: a defaulted parameter declared positional is left out |
| CallTheorems.DisplayFailsFromLine | subrepos/plano/src/plano/command.py:173-189 | for every call assembled from the command line the display fails if and only if too few arguments are given by position; without *args, if and only if a parameter passed by keyword is declared before a positional one or is a positional passthrough_args |
| CallTheorems.KeywordFirstHappens | subrepos/plano/src/plano/command.py:173-189 | def f(a=1, b=2) with b declared positional: the display fails for every command line, and the call would be a TypeError |
| CallTheorems.DisplayShowsOwn | subrepos/plano/src/plano/command.py:444-470 | for calls assembled from the command line that meet the side conditions the displayed positional arguments are each parameter's own, and the display fails if and only if passthrough_args itself is declared positional (keyword-only: with too few arguments before it) |
| Logging.Logger.EnableLogging | subrepos/plano/src/plano/main.py:800-812 | announces itself under the old settings, then sets threshold and output |
| Logging.Logger.DisableLogging | subrepos/plano/src/plano/main.py:814-818 | announces itself, then sets the threshold and leaves the output |
| Logging.Logger.Log | subrepos/plano/src/plano/main.py:867-872 | a message is delivered if and only if its level reaches the threshold, to the current output |
| Logging.LoggingEnabled.EnterScope | subrepos/plano/src/plano/main.py:825-832 | saves both settings and switches |
| Logging.LoggingEnabled.ExitScope | subrepos/plano/src/plano/main.py:834-838 | switches back; into a disabled scope only the threshold returns |
| Logging.StepImplements | subrepos/plano/src/plano/main.py:820-842 | equal thresholds, and equal outputs unless disabled, are kept by every step |
| Logging.SameDeliveries | subrepos/plano/src/plano/main.py:800-872 | for every nesting of scopes, messages below "disabled" reach the same outputs in the same order as with a logger that restores both settings |
| Logging.SameFromTheStart | subrepos/plano/src/plano/main.py:797-872 | the same from any initial settings |
| Logging.SameIffNoneAstray | subrepos/plano/src/plano/main.py:834-872 | for every nested run, messages at "disabled" included, the deliveries are those of the restoring logger if and only if no message at that level is sent while the output set last is not the innermost scope's, which is read off the steps alone |
| Logging.DisabledLevelAstray | subrepos/plano/src/plano/main.py:834-838 | such a run: a message at the level "disabled" goes to another output |
| Logging.LeavingRestores | subrepos/plano/src/plano/main.py:825-838 | whatever happens inside, leaving gives the settings back if and only if the outer threshold is not "disabled" or the output is the outer one at the end |
| Environ.WorkingEnv.EnterScope | subrepos/plano/src/plano/main.py:426-435 | the loops over the environment compute `Entered`: each given name has its value; with amend every other name is as it was, without it there is no other |
| Environ.EnteredAt | subrepos/plano/src/plano/main.py:429-435 | the same, name by name, for every environment and every list of names |
| Environ.WorkingEnv.ExitScope | subrepos/plano/src/plano/main.py:437-443 | the loops compute `Left`, stopping at a name that is gone |
| Environ.LeavingRestores | subrepos/plano/src/plano/main.py:437-443 | leaving fails if and only if a name the scope had added is gone; otherwise the result is the saved map laid over the body's map without the added names; when it fails, without those added names that come before the first missing one |
| Environ.OldValuesReturn | subrepos/plano/src/plano/main.py:437-443 | failing or not, every variable found on entry has its value again |
| Environ.ScopesRestore | subrepos/plano/src/plano/main.py:421-443 | programs made of scopes alone, amending or not and with exceptions crossing them, restore the environment exactly |
| Environ.DeleteFreeLeaves | subrepos/plano/src/plano/main.py:437-443 | a body without deletes never makes leaving fail |
| TestRunner.TestRun.RunTest | subrepos/plano/src/plano/test.py:301-354 | a test that stops at its skip request or skips itself is listed as skipped, one that returns as passed, one that raises an ordinary exception or SystemExit as failed; each goes to one list, an interrupt to none |
| TestRunner.OutcomeIs | subrepos/plano/src/plano/test.py:108-130 | the outcome from the test's own fields and the unskip patterns |
| TestRunner.TestRun.RunModules | subrepos/plano/src/plano/test.py:230-253 | the loops leave the selected tests up to the first interrupt and the lists that account for them, whatever fail_fast is |
| TestRunner.RunTests | subrepos/plano/src/plano/test.py:255-299 | the verdict: an error if and only if nothing ran or something failed, with the number of failures |
| TestRunner.VerdictIs | subrepos/plano/src/plano/test.py:255-299 | from the tests' own fields: stopped if a selected test is interrupted, nothing ran if none is selected, all passed if none breaks, and otherwise failed with the number that break |
| TestRunner.ListedInTurn | subrepos/plano/src/plano/test.py:230-239 | the tests are looked at module by module in order; a module without a list adds none |
| TestRunner.SelectedAre | subrepos/plano/src/plano/test.py:240-250 | the selected tests stand at strictly increasing positions, exactly those of the tests that some include pattern and no exclude pattern matches and, if disabled, some enable pattern: none out of order, left out or selected twice |
| TestRunner.ListedByPosition | subrepos/plano/src/plano/test.py:320-349 | each list holds the tests of its outcome by strictly increasing position, every such position once |
| TestRunner.ListsPartition | subrepos/plano/src/plano/test.py:317-349 | the three lists divide the tests between them; an interrupted run leaves exactly its last test in none |
| Durations.FormatReads | subrepos/plano/src/plano/main.py:1462-1480 | the text, read back, says the quantized duration in its unit |
| Durations.FormatShape | subrepos/plano/src/plano/main.py:1465-1480 | the unit letter for each range; a decimal point with one digit when aligned, none above ten, and below it none if the digit would be zero |
| Durations.RoundIs | subrepos/plano/src/plano/main.py:1475-1480 | rounding to the nearest, halves to even |
| Durations.StrippedReads | subrepos/plano/src/plano/main.py:1345-1352 | stripping ".0" never changes the number read |
| Durations.ShownMonotone | subrepos/plano/src/plano/main.py:1462-1480 | a longer duration never reads as a shorter one, across all switches of unit and precision, aligned or not |
| Durations.ShownClose | subrepos/plano/src/plano/main.py:1477-1480 | the unaligned text is within 5% for a second or more |
| Durations.ShownAligned | subrepos/plano/src/plano/main.py:1475-1476 | the aligned text is within a twentieth of its unit |
| Backoff.ProbeTimeIs | subrepos/plano/src/plano/main.py:1046-1054 | after n failures the total sleep is (2^n - 1)/32 up to n = 5 and 31/32 + (n - 5) from there |
| Backoff.Await | subrepos/plano/src/plano/main.py:1040-1056 | the loop notices at the first probe not before the condition, unless the timeout comes first, and then exactly at the timeout |
| Backoff.NoticedSoon | subrepos/plano/src/plano/main.py:1084-1095 | a condition true from time t on is noticed within min(1, t + 1/32) |
| Panic.PrintRegisters | panic.c:92-146 | the first walk: its index, registers and lines, the fallback, and the error line (which reports code 0 for a failed step) |
| Panic.PrintBacktrace | panic.c:148-188 | the second walk: a line for each frame until a step fails or finds none |
| Panic.FindIs | panic.c:111-125 | a hit is the least frame in the program's code with no failed step up to it |
| Panic.WalksAgree | panic.c:111-187 | on a hit k exactly line k carries the hint, provided that every step up to k found a frame, and none otherwise; the line shows the same instruction and stack pointers as the registers |
| Panic.FallbackAgrees | panic.c:129-134 | on fallback no line carries the hint and the registers are those of the first frame |
| Panic.FrameLineReads | panic.c:166-186 | for all words and program names the line is not truncated and gives back index, ip, sp and hint |
| Panic.HintShown | panic.c:181-183 | the hint is cut to its field, and is whole exactly when program name and address take at most 41 characters |
| Panic.RegisterRowFits | panic.c:79-88 | each row of registers fits its buffer and gives its three words back |
| Panic.RowsAre | panic.c:79-88 | the five rows as printed: each register's word after its own name |
| Panic.RegisterLinesAre | panic.c:136-143 | all register lines: heading, pointers and rows in order |
| Panic.IpSpLineFits | panic.c:138-139 | the line with ip and sp, as printed, fits and gives both words back |
| Hex.WordReads | panic.c:185 | sixteen zero-padded digits give any 64-bit word back |
| Hex.Width3Is | panic.c:185 | the frame number is padded with blanks to three places |
| Hex.PlainIs | panic.c:182 | the address in the hint has no leading zeros |

## Left out

- Sockets, threads and the deliberate crashes of `server.c`, `client.c` and `boneyard.c`: they keep no invariant.
- FileOps.FileSystem.Copy: does not model destination type conflicts (a file onto a directory or a link, a directory onto a file, a link onto a directory; excluded by `NoConflict`) or a source and destination inside one another (excluded by `Disjoint`); which of the two errors is returned is not stated.
- FileOps.FileSystem.CopyLeaf: has the first of these conditions, that nothing of another kind stands at the destination.
- FileOps.FileSystem.Move: has the same two conditions as Copy.
- Links that lead to directories, and `symlinks=False`: the model's links are only copied, never followed.
- Permissions, timestamps, and failures of the operating system other than a missing file or a parent that is not a directory; of `copystat` only the existence of its target is modelled.
- `expand`, `normpath` and the root stripping in `find`: paths are sequences of names and roots are already normal.
- The meaning of glob patterns, the order of `os.listdir` and `os.walk`: a pattern predicate and given lists; the empty and default arguments of `list_dir` and `find` are passed explicitly.
- Signals between two statements of `Timer.start` or `Timer.stop`, alarms set by other code after the first scope is entered, and interval timers: each step is atomic.
- Negative timeouts, which `setitimer` rejects.
- argparse: the parsed namespace is given, with a list for `*args`; the `type` of a parameter, which only argparse uses, is not modelled.
- Positional-only parameters, whose branch reads an attribute that does not exist.
- CallTheorems.CallIsRight: leaves out commands with `parent=` whose own function declares parameters other than the parent's, except (*args, **kwargs) alone (`CallTheorems.RelaysCall`), and decorated functions of the two parameters args and kwargs, which take the decorator's parameters (`CallTheorems.TakesAnyCall` says what they receive); assumes that only a passthrough command declares `passthrough_args`, as a plain or keyword-only parameter; other declarations can come out right by accident of equal values.
- CallTheorems.DisplayFailsExactly: leaves out the same commands; `CallTheorems.DisplayLooksUp` holds for them too.
- Listing.Find: takes the walked directories as given, with roots already normal.
- DispatchTheorems.ShowInjective: one-word names only; a name that contains a space can imitate displayed arguments.
- PlanoCommands.PlanoCommand.CallParent: does not model frames of helper functions between a command's function and `parent()`.
- Message formatting, colours and the text of log announcements beyond level and output; the reopening of output files by name.
- Variables of `working_env` that are not strings: values are taken as already converted.
- TestRunner.RunTests: does not model the string-valued `unskip` argument, which overwrites `enable`, the shared default list of modules, repeated iterations and the messages of the test runner.
- Durations.FormatReads: rounds exact reals, not floating point numbers; the backoff periods are exact reals too.
- Backoff.Await: probes take no time, and what is awaited stays true once it is.
- libunwind, signal delivery, and the signal, process and thread lines of the crash report: the unwinder is a given function from step number to result.
- `working_dir`, `working_module_path` and `output_redirected`: they save and restore one value each.
- Process, archive, HTTP, JSON, URL, base64 and unique-id helpers.
