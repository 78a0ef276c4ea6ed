# Verified model of test161

test161 runs OS/161 tests along a dependency graph, grades them, and turns target
results into scores. This project models the parts of it where correctness is not
obvious from one function, and proves what they are relied on for.

* `digraph.dfy`, `graph.dfy`, `groups.dfy`: finite directed graphs, the mutable
  mirrored-edge graph with its topological sort, and the closure of a group under
  dependencies.
* `manager.dfy`, `runner.dfy`: the capacity-limited job manager and the dependency
  runner as labelled step systems (waiters, buffered channels, the select loop, one
  condition variable), with the loops and counters as classes beside them. Every
  interleaving is a sequence of labels. How a test ends is a parameter here.
* `text.dfy`, `prefixes.dfy`, `confcheck.dfy`, `conf.dfy`: from the lines of a test
  file to the commands to send.
* `environments.dfy`: what those commands are when other shells are configured.
* `args.dfy`, `templates.dfy`: the quoting argument splitter and the recursive
  expansion of expected output.
* `loading.dfy`: the compiled commands as a test that can be graded and run.
* `results.dfy`, `grading.dfy`, `testrun.dfy`: judging one command, and the command
  loop with the final result, points and leak deduction. What the simulator does
  during a command is a parameter.
* `endings.dfy`: when a test ends correct, and the most it can earn.
* `assignment.dfy`, `target.dfy`, `required.dfy`, `instance.dfy`, `submission.dfy`:
  points from target files to commands, metatargets and subtargets, the graded group
  of a target, and the score of a submission and of its splits.
* `endtoend.dfy`: all of it together. The tests of an instance run under the runner's
  schedule, and the submission takes in what comes out.
* `overpaid.dfy`: a test file, a target file and a run that together score more than
  there is to score.
* `stats.dfy`, `monitor.dfy`: wrap-around counters and the sliding window over them.
* `wrappers.dfy`, `arithmetic.dfy`, `sums.dfy`: options and results, division, sums
  over finite tables.

Where the code and its documentation differ the model follows the code. The
documentation describes fractional credit for partially scored tests; the code adds a
command's points to the test only when that command is correct and does not end the
run (run.go:476-495), and so does `TestRun.TakeTurn`.

Six facts about the code that the proofs brought out:

* The leak check may look at one command that never ran, because the command list is
  cut one past the command counter (run.go:498-500). `TestRun.LeakCheckSeesNext` says
  what that does to a run, `Endings.UnrunKhuCostsWhen` to which command lists it can
  happen, and in `TestRun.UnrunCommandCosts` a correct run loses 4 of its 10 points.
* A test whose statistics end without an error stops there and still counts as correct
  (run.go:464-467), at the first prompt with nothing but boot run
  (`Endings.QuietAtBootIsCorrect`). `Endings.TestIsCorrectWhen` says when a test is.
* Partial points on the last command, or on or after one that may panic or time out,
  are never added (run.go:412-424, run.go:476-495), though target files may put them
  there (`Endings.PointsOnShutdown`). `Endings.AllAttainableWhen` says when all points
  of a test can be earned.
* The points of a metatarget are checked only if it is flagged as one
  (environment.go:198-205), while linking a subtarget to it does not look at the flag
  (target.go:288-316). In `Overpaid.UnflaggedMetaTargetOverpays` a submission scores
  5 points with 3 available; `EndToEnd.ScoreFits` says exactly when no run of a
  submission can score more than it has available.
* A start line with two spaces after its prefix passes the check of the configured
  environments (conf.go:238-289) but never starts its environment
  (`Environments.WideIsNotEntered`); `Environments.StartEnters` says exactly which do.
* Prefixes nested more than two deep survive the two passes (conf.go:325-335), as one
  does in `SimplePrefixes.ThirdPrefixSurvives`; `SimplePrefixes.TwoPassesSuffice` is
  exact about that.

## Model

| member | source | states |
|---|---|---|
| `DependencyGraph.Graph.constructor` | graph/graph.go:112-120 | A graph over the given values has every key as a node, no edge, and stores both edge directions consistently. |
| `DependencyGraph.Graph.AddEdge` | graph/graph.go:132-148 | Refuses exactly a self edge or an unknown end, in that order; otherwise the stored graph, seen from both ends of every edge, has exactly one more edge. |
| `DependencyGraph.Graph.Copy` | graph/graph.go:93-109 | The copy stores the same edges in fresh nodes, sharing none with the original. |
| `DependencyGraph.Graph.DropEdge` | graph/graph.go:74-74 | Deleting one incoming half keeps the mirror property for every node but the one being retired, whose outgoing half is stale. |
| `DependencyGraph.Graph.Drain` | graph/graph.go:60-80 | The worklist loop: what it has listed is a duplicate-free, edge-respecting order of the nodes removed, and it stops only when no source is left. |
| `DependencyGraph.Graph.TopSort` | graph/graph.go:56-89 | Succeeds exactly when the graph has no cycle; the result then lists every node once with every edge pointing forward; the original graph is untouched. |
| `DependencyGraph.StuckMeansCycle` | graph/graph.go:82-87 | If edges remain when the worklist is empty, they contain a cycle of the original graph. |
| `Digraph.OrderedIsAcyclic` | graph/graph.go:53-55 | A graph with a topological order has no cycle. |
| `Digraph.AcyclicHasOrder` | graph/graph.go:53-55 | Every acyclic graph has a topological order. |
| `Groups.DependencyGraphOf` | groups.go:273-301 | The dependency graph has exactly an edge from each test to each of its dependencies, and is refused exactly when some test depends on itself. |
| `Groups.GetDepNodes` | groups.go:353-364 | On any graph with a topological order the recursion terminates and appends exactly the tests reachable from the node, the node included. |
| `Groups.TestGroup.Merge` | groups.go:433-441 | Merging a list adds exactly its tests and flags exactly the newly added ones as dependencies. |
| `Groups.GroupFromConfig` | groups.go:381-444 | With dependencies on it fails exactly on a dependency cycle; otherwise the group is exactly the requested tests and everything reachable from them, and IsDependency is newly set exactly on the tests that were added. |
| `Groups.RestrictSuits` | groups.go:410-444 | The group made is closed under dependencies and free of cycles. |
| `Groups.GroupSuitsRunner` | groups.go:415-444 | What GroupFromConfig builds meets the precondition of the dependency runner's theorems. |
| `TestManager.ManagerState.Attempt` | manager.go:115-153 | One pass of the wait loop: a job starts exactly when the manager is below capacity, is counted as queued once while it waits, and has its wait recorded when it leaves the queue. |
| `TestManager.Follow` | manager.go:109-171 | The counter code, driven through any sequence of events the step system allows, shows that system's statistics at its end, wait statistics included. |
| `TestManager.StepKeepsSound` | manager.go:109-171 | Every event keeps the counters equal to the jobs in each phase, the capacity limit, and the absence of lost wakeups. |
| `TestManager.ManagerIsSafe` | manager.go:109-171 | After any sequence of events: at most capacity jobs run, Running and Queued count the jobs in those phases exactly, and if a job sleeps then running plus woken jobs are at least the capacity. |
| `TestManager.JobsAreConserved` | manager.go:109-171 | Jobs submitted equal jobs queued, running, finished and delivered, after any sequence of events. |
| `TestManager.AverageIsClose` | manager.go:139-146 | The running integer average never exceeds the true mean wait and misses it by at most (n-1)/2, for any waits. |
| `TestManager.AverageBoundIsTight` | manager.go:139-146 | That bound is attained for every n. |
| `TestManager.AverageAtMostMaximum` | manager.go:346-352 | The integer average is never negative and never above the recorded maximum. |
| `TestManager.MaxWaitIsMaximum` | manager.go:140-143 | MaxWait bounds every wait and is one of them. |
| `TestManager.HighMarksAreMaxima` | manager.go:117-153 | The high-water marks are the largest numbers of running and of queued jobs at any moment of any history, attained. |
| `Runner.StepKeepsInv` | runners.go:94-199 | Every step of the waiters, the select loop and the manager keeps the invariant: each test is in exactly one place, each channel holds the unread end of the finished tests, each result is justified. |
| `Runner.StepKeepsManager` | runners.go:188-192 | Every step of the runner keeps the manager's own invariant. |
| `Runner.DefaultNeverTaken` | runners.go:136-156 | Whatever steps were taken before, when a result or a skipped test arrives every channel it is offered to has room, so neither default branch is ever taken. |
| `Runner.NoDeadlock` | runners.go:94-199 | On a closed acyclic group some goroutine can take a step until the client's channel is closed. |
| `Runner.MeasureFalls` | runners.go:94-199 | A nonnegative measure falls at every step. |
| `Runner.RunsAreBounded` | runners.go:94-199 | No run on n tests has more than n(n+9)+1 steps, whatever the schedule. |
| `Runner.RunCanComplete` | runners.go:174-196 | Every partial run extends to a complete one. |
| `Runner.CompleteRunDeliversAll` | runners.go:169-196 | When nothing can move any more the client's channel is closed and holds exactly one result for every test. |
| `Runner.CompleteRunReachesVerdict` | runners.go:94-116 | At the end each test has its own outcome if all its direct dependencies ended CORRECT and SKIP otherwise. |
| `Runner.VerdictIsUnique` | runners.go:94-116 | On an acyclic group there is only one such assignment of results. |
| `Runner.ScheduleDoesNotMatter` | runners.go:118-199 | Any two complete runs end with the same results, whatever the interleaving. |
| `Runner.SkippedIffBadDependency` | runners.go:101-111 | A test is skipped exactly when some test it depends on, directly or not, ran and did not end CORRECT. |
| `Runner.OneFailure` | runners.go:94-116 | If one test fails that would otherwise end CORRECT, and it runs, exactly the tests that depend on it, directly or not, are skipped instead; every other test ends as it would have. |
| `Runner.DeliveryOrder` | runners.go:146-156 | In the delivered order a test that ran comes after all its dependencies, a skipped one after a dependency that did not end CORRECT. |
| `Runner.SubmittedOnlyWhenMet` | runners.go:188-192 | A test handed to the manager has CORRECT results broadcast for all its dependencies. |
| `RunnerLoops.MainLoop.Bcast` | runners.go:136-144 | The loop over the table, in any order, offers the test once to every channel, dropping it only where the buffer is full. |
| `RunnerLoops.Take` | runners.go:174-193 | For each step, the code of its branch takes the table, the client's channel and the count from those of the state before to those of the state after. |
| `RunnerLoops.Follow` | runners.go:94-194 | So the main loop and the waiters' reads, driven through any schedule the step system allows, show its table, channel and count at every moment. |
| `RunnerLoops.WaitForDeps` | runners.go:94-116 | On any messages: it has failed exactly if some message is about a needed test not heard to end CORRECT before and says it did not; otherwise it needs exactly the tests it has not heard to end CORRECT, and is ready when there are none. |
| `RunnerLoops.WaiterIsItsLoop` | runners.go:94-116 | Under any schedule each waiter of the step system stands where this loop does on the messages it has read from its channel. |
| `RunnerLoops.ReadyMeansAllHeard` | runners.go:101-115 | A waiter stops needing a test only after hearing it end CORRECT, and fails only on a dependency that did not. |
| `SimplePrefixes.DoSimplePrefixes` | conf.go:337-364 | One pass replaces each line by what it stands for, in order, and fails exactly on a multiplier that does not fit an int. |
| `SimplePrefixes.Simplify` | conf.go:325-335 | Two passes, the first failure ending it. |
| `SimplePrefixes.ExpandFlattens` | conf.go:343-361 | A pass takes exactly one level of prefixes off a line. |
| `SimplePrefixes.MultiplierCopies` | conf.go:350-359 | A number in decimal and an x in front of a line make exactly that many copies of the line. |
| `SimplePrefixes.TwoPassesSuffice` | conf.go:325-335 | After the two passes no prefix is left exactly when no line nests more than two. |
| `SimplePrefixes.ThirdPrefixSurvives` | conf.go:325-335 | A line with three bars keeps one of them. |
| `ConfCheck.CheckCommandConf` | conf.go:238-289 | Accepts exactly the configurations in which every environment is complete, has a legal prefix of its own, is left by a plain line and is entered from a known one. |
| `ConfCheck.PrefixNamesConf` | conf.go:302-316 | In an accepted configuration each prefix finds its own environment. |
| `CommandList.InitCommands` | conf.go:388-512 | The compiling loop with its reassigned stack and line list computes exactly what the step machine computes, limit and errors included. |
| `CommandList.StepKeepsFaithful` | conf.go:416-509 | Each iteration keeps: the commands so far replay from the kernel prompt to the current stack, and user lines come out in order. |
| `CommandList.CompiledIsFaithful` | conf.go:388-511 | On success the commands replay from the kernel as a balanced run to an empty stack, each typed in the environment on top, each prompt that of the top after it; erasing the inserted ones gives back the user's lines in order, each in the environment its prefix names. |
| `CommandList.ShutdownIsLast` | run.go:412-425 | Exactly the last command has no prompt. |
| `CommandList.CompilesAsExpected` | conf.go:416-509 | With kernel and shell only, the output and the error are exactly those of a simple specification by line, whenever the loop can end within its limit; otherwise an infinite loop is reported. |
| `CommandList.CostIsBounded` | conf.go:416-509 | With kernel and shell only, n lines need at most 3n+5 iterations. |
| `CommandList.FewLinesNeverLoop` | conf.go:368-418 | Up to 339 lines the infinite loop error is unreachable. |
| `CommandList.LimitIsSharp` | conf.go:368-418 | 340 lines can exceed the limit. |
| `CommandList.CompilesExactlyWhen` | conf.go:416-509 | With kernel and shell only, compilation succeeds exactly when every line has a body and a known prefix, no line but the last quits the kernel, and the iterations fit the limit. |
| `CommandList.ReachedIsRooted` | conf.go:446-509 | On every stack the loop reaches, only the kernel's configuration is an original; the others are copies. |
| `CommandList.OnlyKernelIsFound` | conf.go:446-458 | So in every machine the loop reaches, the search of the stack finds the kernel's configuration and no other, and a line for another environment starts it again. |
| `Environments.StartEnters` | conf.go:461-482 | Typed in the environment its prefix names, the body of an accepted configuration's start line puts a copy of it on top exactly when the line is the prefix, one space and the body, the body is not that environment's end command, and no earlier configuration has the same start. |
| `Environments.WideIsNotEntered` | conf.go:238-289 | Two spaces after a start line's prefix pass the check, and the configuration is then never entered that way. |
| `Environments.CompilesAsRouted` | conf.go:416-509 | With configurations that can be entered and left, the output and the error are exactly what the lines yield one by one: the route to each line's environment, the line typed there, and at the end what leaves everything; or an infinite loop is reported if the iterations exceed the limit. |
| `Environments.CompilesRoutedWhen` | conf.go:416-509 | Then a list of lines compiles exactly when each has a body and a known prefix, none but the last shuts the kernel down, and the iterations fit the limit. |
| `Environments.RouteIsStarts` | conf.go:446-458 | A route consists of the start lines of the rest of the path if the environment on top lies on it, and else of what leaves everything above the kernel and the start lines of the whole path; each start is answered by its environment's prompt. |
| `Environments.LeavingIsEnds` | conf.go:461-470 | What leaves environments is each one's end command, answered by the prompt of the one below. |
| `Environments.BangCompiles` | run_test.go:154-162 | The configured shell that is started from the built-in one is entered and left as expected. |
| `Arguments.SplitArgs` | run.go:696-722 | The line is cut exactly at its spaces with an even number of backslashes right before them and an even number of quotes, not escaped themselves, before them; the pieces are what lies between, and what is left at the end if anything. |
| `Arguments.SplittableMeans` | run.go:706-713 | A piece has no unprotected space exactly when it has no such place, and closes what it opens exactly when it ends outside quotes and not in an escape. |
| `Arguments.SplitIsLossless` | run.go:696-722 | Joining the pieces with single spaces restores the line, up to one trailing space; every piece but the last has its quotes and escapes closed, and no piece has an unprotected space. |
| `Arguments.SplitInvertsJoin` | run.go:696-722 | Splitting a joined list gives the list back exactly when its pieces are nonempty, protected and closed. |
| `Arguments.SplitCommand` | run.go:725-745 | Prefix, base and arguments; the panic on a line without a base is an explicit outcome. |
| `Arguments.ReplaceArgs` | run.go:747-761 | The line rebuilt from its prefix, base and the new arguments. |
| `Arguments.ReplacedCommandParses` | run.go:725-761 | Splitting after replacing gives the same prefix and base and the new arguments exactly when base and arguments are splittable and the base is not a bare p. |
| `Loading.ParsesExactlyWhen` | run.go:725-736 | Splitting a command panics on nothing but an empty line and a bare p prefix. |
| `Loading.CompiledParses` | run.go:725-736 | No line of a compiled command list is one of these, so splitting a test's commands never panics. |
| `Loading.LoadTest` | conf.go:380-512 | A test is made exactly when its lines compile; each command's id is the base of its line, only the last command has no prompt, nothing has been printed or earned, and no command has points: what grading and running a test rest on. |
| `Templates.Expand` | commands.go:185-235 | The recursion terminates on every command table and computes the expansion. |
| `Templates.CycleReportedExactly` | commands.go:190-194 | If every template line expands, a cycle is reported exactly when a path of external references from the root visits a command twice. |
| `Templates.ExpansionIsFlattening` | commands.go:199-234 | Without a cycle the result is the in-order flattening of the referenced templates. |
| `Templates.InstantiateFlattens` | commands.go:297-303 | The same for the call that starts the recursion with the merged template. |
| `Templates.FlattenInOrder` | commands.go:199-231 | What earlier template lines stand for comes before what later ones do. |
| `Templates.FlattenOne` | commands.go:200-228 | A template line stands for its texts, the k-th for the k-th, trusted and keyed as the line says; a reference for all that the named command stands for, or nothing if there is none. |
| `Templates.EveryLineHasASource` | commands.go:218-227 | Every trusted line carries the name of a command whose template contains it, every other line no name. |
| `Grading.MatchOutput` | run.go:799-820 | The one-pass greedy matcher reports success exactly when some order-preserving embedding of the expected lines into the output exists. |
| `Grading.Command.Evaluate` | run.go:768-859 | Status and points of a command are its verdict: how it ended, whether its output contains what was expected, and its first partial-credit line. |
| `Grading.Command.ReadCredit` | run.go:828-845 | Only the first partial-credit line signed by the command counts. |
| `Grading.CorrectEarnsAll` | run.go:816-857 | A correct command earns exactly its points, whichever way it became correct. |
| `Grading.CorrectExactlyWhen` | run.go:773-857 | A command is correct exactly when it ended as its template allows and either printed what was expected or claimed full credit on its first credit line. |
| `Grading.AllowedEndings` | run.go:773-791 | A command may time out only if it may and must if it must, panics if it must, and goes away only by a panic or timeout it may have. |
| `Grading.LineMatchesWhen` | run.go:806-813 | A line that should be signed with a known key is matched only by a line of the same text so signed, any other by its text. |
| `Grading.CreditIsFirst` | run.go:828-845 | The credit is that of the first partial-credit line signed by the command, if both its numbers are positive, and otherwise none. |
| `Grading.PartialCredit` | run.go:847-849 | An incorrect command that ended as allowed earns the largest whole number of points not above its share of the credit, and at most its points if the credit is at most what was available; any other incorrect command earns nothing. |
| `TestRun.Test.FinishCurCommand` | run.go:511-542 | Grades the current command and moves on unless it is the last. |
| `TestRun.Test.AwaitPrompt` | run.go:426-467 | Classifies what waiting for the prompt came to; what that means for a whole test is Endings.TestIsCorrectWhen and Endings.TestAbortsWhen. |
| `TestRun.Test.RunCommand` | run.go:383-496 | One turn of the loop: flags, points, counter and whether the loop goes on, for every combination of outcome and scoring method. |
| `TestRun.Test.RunCommands` | run.go:353-496 | The whole loop agrees with the simulation of the observed behaviour. |
| `TestRun.Test.Run` | run.go:373-509 | Result, points and leak deduction of a whole run are those that the simulation of the observed behaviour ends with, which Endings characterises on the observations. |
| `TestRun.Test.EvaluateMemLeaks` | run.go:921-966 | Deducts at most once, and exactly when a khu command gives no trusted reading or a reading differs from an earlier nonzero one; records that a khu command was looked at, and the difference to the earlier reading where a leak is first seen. |
| `TestRun.ReadingIsFirst` | run.go:932-950 | A khu command's reading is that of its first khu line, signed if the key is known, and none without one. |
| `TestRun.LeakCosts` | run.go:969-979 | A leak costs a test that has points the penalty, or all it has earned if that is less; without a leak or when aborted nothing. |
| `TestRun.LeakCheckSeesNext` | run.go:498-500 | The check finds a leak exactly when the commands that ran show one, or the run ended after a judged command with another to come and that one, which never ran, is a khu command. |
| `TestRun.UnrunCommandCosts` | run.go:498-500 | A correct run of 10 points loses 4 to a khu command that never ran. |
| `TestRun.Test.DeductMemLeakPoints` | run.go:969-979 | Takes off the smaller of the penalty and the points earned. |
| `TestRun.Test.FinishAndEvaluate` | run.go:544-560 | Sets the result, full points under entire scoring, and the deduction. |
| `TestRun.LoopAccounts` | run.go:469-495 | The loop goes past a command only if it could neither panic nor time out; under entire scoring each one passed was correct; a partially scored test has earned exactly the points of the correct ones it went past. |
| `TestRun.PointsStayInBounds` | run.go:487-560 | A test whose commands are worth at most the test ends with at most its points, before and after the deduction, whatever happens. |
| `Endings.TestIsCorrectWhen` | run.go:353-509 | A test ends correct, whatever its scoring, exactly when it passed all commands before some one, each correct, and ended there with nothing wrong: the last command, a prompt at which the statistics had ended without an error, or a correct command that could or did end the kernel. |
| `Endings.TestAbortsWhen` | run.go:383-506 | A run ends aborted exactly when, past all commands before, it comes to one for which statistics cannot be turned on, or whose wait for the prompt fails otherwise than by timeout, end of output, no match or the monitor, or whose statistics have ended with an error not the monitor's. |
| `Endings.TimeoutIsIncorrect` | run.go:432-437 | A test whose first prompt does not come in time is incorrect, not aborted. |
| `Endings.QuietAtBootIsCorrect` | run.go:464-467 | A test whose statistics end without an error at its first prompt is correct with full points, although only boot has run. |
| `Endings.AttainableIsMaximum` | run.go:469-495 | The points of all runs of given commands stay within a bound exactly when the attainable points do: all of the test's under entire scoring, those of the commands before the first one that is last or may panic or time out under partial scoring. |
| `Endings.AllAttainableWhen` | run.go:469-495 | A partially scored test can earn all its points exactly when a run can go past every command that has any. |
| `Endings.PointsOnShutdown` | run.go:412-424 | A target test that puts all five points on the command that shuts the kernel down is accepted, and every run of it ends with none. |
| `Endings.UnrunKhuCostsWhen` | run.go:498-500 | Some run of given commands loses points to a command that never ran exactly when a khu command directly follows the first one that may panic or time out, and there are attainable points and a penalty. |
| `Assignment.ApplyTo` | target.go:177-278 | Succeeds exactly on an exact target test: entries find their commands, none covered twice, all instances of mentioned ids covered, partial points adding up. Then each command has its entry's points and arguments, the others are unchanged, and a fresh partial test's commands add up to its points. |
| `Assignment.ApplyEntries` | target.go:220-253 | The first pass fails exactly when an entry does not find its commands or covers one that is taken. |
| `Assignment.AllCovered` | target.go:265-275 | The second pass, striking ids out as it goes, finds an unassigned instance of a mentioned id exactly when there is one. |
| `Assignment.PassesMeans` | target.go:224-253 | Checking entry by entry finds exactly the overlaps there are between any two entries. |
| `Assignment.AcceptsTheExact` | target.go:220-275 | The two passes together accept exactly the exact target tests, independently of the order of the entries. |
| `Assignment.OwnerIsUnique` | target.go:238-242 | In an exact target test a command belongs to the one entry that covers it. |
| `Assignment.CoveredMeans` | target.go:231-247 | An entry with index k > 0 covers exactly the k-th occurrence of its id from the front, any other all occurrences. |
| `Assignment.NewInputMeans` | run.go:747-761 | An entry without arguments leaves the line alone; otherwise the new line has the old prefix and base and just the entry's arguments, exactly when these can be told apart again. |
| `Targets.Target.InitAsSubTarget` | target.go:283-319 | Succeeds exactly when the metatarget exists, lists the target, and all subtargets before it exist; links exactly those, in order. |
| `Targets.Target.InitAsMetaTarget` | target.go:321-363 | Succeeds exactly on a flagged metatarget without tests whose subtargets exist, match and add up to its points. |
| `Targets.LinkMetaTargets` | environment.go:187-208 | Links every target of the environment exactly when each link is possible, in any order of the targets. |
| `Targets.PointsFit` | submission.go:352-359 | The targets that run for a submission are worth exactly its points; after the upgrade to a flagged metatarget they are worth its points less those of the subtargets listed later. |
| `Targets.TargetsThatRun` | target.go:391-403 | In a linked environment the targets that run for a subtarget are itself and, one for each listing, those its metatarget lists before its first place, in order; for a metatarget all it lists. |
| `Targets.UnflaggedMetaTarget` | environment.go:198-205 | An unflagged metatarget escapes the check of its points: an environment that links, with a subtarget worth 5 points submitted to it with 3 available. |
| `Instances.CollectIds` | target.go:409-421 | A duplicate test is reported exactly when some test id occurs twice among all targets; otherwise the ids are listed in order. |
| `Instances.GradeTarget` | target.go:431-450 | Grading one target succeeds exactly when its tests are in the group, map exactly, and add up to its points. |
| `Instances.GradeAll` | target.go:431-451 | The same for all targets; every test not named by a target stays as loaded. |
| `Instances.Instance` | target.go:386-456 | Succeeds exactly when no test occurs twice, the test expressions expand, the dependencies are acyclic and every target can be graded on the closure of the requested tests; the result is that closure, graded by the targets, with each test marked for the targets that need it. |
| `Instances.MarkedAddsUp` | target.go:431-451 | The points of the whole group are those of the targets' tests. |
| `Instances.MarkedAt` | target.go:439-445 | Each named test has the points, scoring, penalty and target of its own entry; any other keeps what it had. |
| `Instances.GradedTestStaysInBounds` | run.go:487-495 | However a graded test runs, what it ends with and what a leak took off are together at most its available points, and a leak takes off at most the penalty. |
| `Requirements.AssignTestRequiredBy` | target.go:367-372 | The recursion terminates on acyclic groups and marks exactly the tests reachable from the given one. |
| `Requirements.AssignRequiredBy` | target.go:377-383 | A test is marked for a target exactly when a test graded for that target reaches it. |
| `Requirements.NeededIsClosed` | target.go:367-383 | The tests marked for one target are closed under dependencies. |
| `Submissions.Submission.constructor` | submission.go:315-359 | A new submission takes name and points from its target, or from the metatarget it is upgraded to. |
| `Submissions.Submission.CloneAndUpdate` | submission.go:617-652 | A split lists the build test and exactly the tests its target needs, each once, with a zero score. |
| `Submissions.Submission.Split` | submission.go:655-680 | One split for each target that runs, in order, and none for a plain target. |
| `Submissions.Submission.TakeResults` | submission.go:771-794 | While no test has aborted, the score is the points of all results and each split's the points of its own target's tests; from the first abort on every score is zero for good. |
| `Submissions.Submission.RunTests` | submission.go:734-797 | The same for the whole scoring part, with the list of tests recorded and the splits as created. |
| `Submissions.SplitsConserve` | submission.go:780-788 | If each target with points occurs once among the splits, the splits' scores add up to the submission's. |
| `Submissions.InstanceConserves` | submission.go:772-790 | For an instance whose targets are told apart by name that is the case, whatever has been reported so far. |
| `Submissions.LinkedNames` | submission.go:784-785 | In a linked environment the targets that run for a submission are told apart by name. |
| `Submissions.SplitFits` | submission.go:617-627 | Whatever an instance reports, no target is credited with more than its points. |
| `Submissions.SplitIsClosed` | submission.go:640-645 | With each test a split lists everything the test depends on. |
| `Submissions.InstanceGradesAll` | target.go:431-450 | The instance has the tests of every target that so runs, each with the points, scoring, penalty and target of its entry, and grades no test for any other target. |
| `Submissions.InstanceAddsUp` | target.go:431-451 | The points of an instance's tests add up to the points of the targets that run. |
| `Submissions.EarnedIsBounded` | submission.go:688-691 | Whatever a graded group reports is worth at most the sum of its points. |
| `Submissions.SubmissionNeverExceeds` | submission.go:352-359 | In a linked environment with flagged metatargets nothing an instance can report is worth more than the available points, upgrade included. |
| `EndToEnd.RunTest` | run.go:243-509 | A test that is started ends as it has to: an abort without points if something fails before its first command, otherwise as its commands make it. |
| `EndToEnd.Step` | runners.go:101-111 | Every step of the runner keeps the tests in step with its table of results: a test with a result is over and holds it, the others have not been started. |
| `EndToEnd.Execute` | submission.go:756-772 | Under any schedule, running each test when its turn comes, the client's channel holds reports of exactly the tests delivered, each with the result, points and target it ended with. |
| `EndToEnd.RunIsWorth` | submission.go:771-788 | A complete run reports each test once with at most its points, and the reports are worth the sum over all tests, or nothing if one aborted; that depends on the results alone, which no schedule changes. |
| `EndToEnd.SubmissionIsSound` | submission.go:763-794 | For the instance of a target in a linked environment, whatever its tests report fits the points available if the metatarget is flagged, is shared out in full among the targets, and gives none of them more than it is worth. |
| `EndToEnd.Submit` | submission.go:734-797 | The score is what the tests' endings call for under every complete schedule, within what they can attain and, if the metatarget is flagged, within the points; splits are named as listed, add up to it and fit their targets; all is zeroed exactly if a started test aborts. |
| `EndToEnd.RunsStayWithin` | submission.go:771-788 | All complete runs of a group score within a bound, under any fates of its tests and any schedule, exactly when what its tests can attain adds up to at most that. |
| `EndToEnd.ScoreFits` | submission.go:352-359 | All complete runs of a target's instance score within the submission's points exactly when its tests' attainable points do; these are at most what the targets that run are worth, and all of it exactly when every test can earn all its points. |
| `Overpaid.UnflaggedMetaTargetOverpays` | environment.go:198-205 | With an unflagged metatarget a submission scores 5 points with 3 available: the test file compiles to boot and q, the environment links, the instance is made, and under any complete schedule its one test earns 5. |
| `Stats.PlusMinusGet` | stats.go:61-92 | Field by field, addition and subtraction wrap around at 2^32, and at 2^64 for Nsec. |
| `Stats.Stat.Append` | stats.go:95-116 | Panics exactly when the sample starts before the last one ended; otherwise every counter is the wrapped sum including the new sample, and the time stamps span all samples. |
| `Stats.Stat.Shift` | stats.go:119-135 | Panics exactly on an unused object or a sample before its start; otherwise every counter is the wrapped sum without the first sample. |
| `Monitor.Collector.Slide` | stats.go:311-318 | The window moves on by one sample, keeping the latest of them and their sums, and cannot panic on samples that follow one another. |
| `Monitor.Read` | stats.go:240-262 | Each counter is the number of its own column, or zero if that does not fit 32 bits; instructions are the wrapped sum of three; the time is cut off at the largest. |
| `Monitor.Collector.OnData` | stats.go:230-318 | After every data line the cache is the latest recorded samples of the current command, at most a window of them, and the window object their wrapped sums; with times that never go back no panic is reachable. |
| `Monitor.CommandStats.Record` | stats.go:283-290 | The list of a command's statistics groups its recorded samples by the window size, all groups full but the last, and the summary covers them all; it panics exactly on a sample before the last recorded one ended. |
| `Monitor.CachedInOrder` | stats.go:311-318 | The cached samples follow one another and fit the window. |
| `Monitor.Telescopes` | stats.go:263-272 | Consecutive samples add up to the difference of two cumulative readings, modulo the width. |
| `Monitor.WindowIsLatest` | stats.go:298-318 | After an unbroken stretch of readings the window ends in exactly its latest samples. |
| `Monitor.WindowIsOneCommand` | stats.go:297-318 | The cache always holds the latest samples recorded under the current command, at most a window of them, and no others. |
| `Monitor.WindowIsDifference` | stats.go:269-318 | Then each window counter is the latest reading minus the one before the window, modulo the width, and Count is the window size. |
| `Monitor.WindowAgrees` | stats.go:259-318 | At all times the instructions in the monitor's window are the sum of kernel and user instructions and idle cycles, wrap-around included. |

## Left out

- Processes, terminals, sockets, git, file copying and temporary directories; their outcomes are parameters of the model.
- Persistence, HTTP, remote calls, client configuration, usage reports and printing.
- YAML, file globs, tags, merging of defaults, regular expressions and templates: parsed tests, expanded dependencies, expanded lines and the numbers read from output lines are inputs.
- Signatures, keys and salts: a line is trusted with a key name, or not.
- Unsigned wrap-around of points and scores: points are natural numbers. Only the statistics counters wrap around.
- Floating point: partial credit is computed with exact fractions, time stamps with real numbers.
- Changing the manager's capacity during a run, stopping the manager, and several groups sharing one manager: the manager's capacity is fixed and one runner uses it.
- The simple runner without dependencies, and the group totals TotalPoints and EarnedPoints: easier members of the same kind.
- The submission manager's own queue and the locking of students.
- Student statistics, performance targets, estimated scores and the build phase of a submission.
- The monitor's thresholds on the window, which divide counters as floating-point numbers.
- Order of map iteration: every such loop picks its elements in any order.
- The output a command prints, the timer and the statistics goroutine during a run: `TestRun.Observation` fixes them per command.
- `Grading.Command.Id` is fixed; that replacing arguments leaves the base of the line alone is what `Arguments.ReplacedCommandParses` is exact about.
- DependencyGraph.Graph.AddEdge: values are compared by an identity given with them, standing for the comparison of interface values.
- Assignment.ApplyTo: a failed call promises nothing about the commands' points, since the code leaves them partly assigned.
- Instances.Instance: says exactly when it fails, but which error is returned only for a duplicate test; the test expressions of the targets stand for whatever set of tests a given function returns.
- Submissions.Submission.RunTests: starts after a successful build and after every test has been stored.
- Loading.LoadTest: starts from lines whose prefixes have been expanded; what templates and overrides say of a command is given with its id.
- EndToEnd.Execute: each test runs as a whole at the moment the manager finishes it, since tests of a group share nothing that a run changes, and the client reads the channel once it is complete.
- Monitor.Collector.OnData: malformed lines, which end the collection, are not modelled.
