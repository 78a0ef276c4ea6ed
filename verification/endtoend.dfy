/** A submission from the instance of its target to its score: the runner's schedule
    decides which test starts when, each test that starts is run, and the submission
    takes in what the runner delivers. */
module EndToEnd {
  import opened Wrappers
  import opened Digraph
  import opened Results
  import opened Sums
  import opened TestRun
  import opened Grading
  import opened Assignment
  import opened Targets
  import opened Instances
  import opened Submissions
  import opened Endings
  import opened Requirements
  import Groups
  import R = Runner
  import RunnerLoops

  // ----- How each test would end -----

  /** What becomes of a test that the manager starts: something fails before its
      first command, or its commands behave as the script says. */
  datatype Course = CannotStart | Runs(script: GradedScript)

  type Fate = f: Course | f.Runs? ==> |f.script.specs| > 0 witness CannotStart

  ghost function EndOf(mark: Mark, fate: Fate): Ending {
    match fate
    case CannotStart => Ending(Abort, 0, 0)
    case Runs(s) => EndingOf(s, mark.scoring, mark.points, mark.penalty)
  }

  /** What there is to know about the tests of a group before they run: how each is
      graded, who needs it, what it would do, and its commands, which it shares with
      no other. */
  datatype Sheet = Sheet(marks: map<string, Mark>, needed: map<string, set<string>>, fates: map<string, Fate>,
                         lists: map<string, seq<Command>>) {
    ghost predicate Describes(group: map<string, Test>, commands: set<Command>) {
      && marks.Keys == needed.Keys == fates.Keys == lists.Keys == group.Keys
      && (forall a, b :: a in group && b in group && a != b ==> group[a] != group[b] && Unshared(lists[a], lists[b]))
      && (forall a, c :: a in group && c in lists[a] ==> c in commands)
    }

    ghost function End(t: string): Ending
      requires t in marks && t in fates
    {
      EndOf(marks[t], fates[t])
    }
  }

  /** The test has been graded but not started, and what it would do is known. */
  ghost predicate Unstarted(test: Test, keys: set<string>, mark: Mark, fate: Fate, list: seq<Command>)
    reads test, list
  {
    && test.PointsEarned == 0 && MarkOn(test) == mark && test.Commands == list
    && (fate.Runs? ==> test.Ready() && Views(list) == fate.script.specs && fate.script.keys == keys)
  }

  /** The test is over: it was skipped, or it ended as it had to. */
  ghost predicate Over(test: Test, end: Ending, result: TestResult)
    reads test`Result, test`PointsEarned
  {
    test.Result == result && test.PointsEarned == if result == Skip then 0 else end.earned
  }

  /** A test with a result is over, any other has not been started. */
  ghost predicate Stands(test: Test, keys: set<string>, sheet: Sheet, t: string, results: map<string, TestResult>)
    requires t in sheet.marks && t in sheet.needed && t in sheet.fates && t in sheet.lists
    reads test, sheet.lists[t]
  {
    && test.TargetName == sheet.marks[t].target && test.requiredBy == sheet.needed[t]
    && if t in results then Over(test, sheet.End(t), results[t])
       else Unstarted(test, keys, sheet.marks[t], sheet.fates[t], sheet.lists[t])
  }

  ghost predicate InStep(group: map<string, Test>, keys: set<string>, commands: set<Command>, sheet: Sheet,
                         results: map<string, TestResult>)
    requires sheet.Describes(group, commands)
    reads group.Values, commands
  {
    forall t :: t in group ==> Stands(group[t], keys, sheet, t, results)
  }

  /** Runs one test from the moment the manager starts it. */
  method RunTest(test: Test, keys: set<string>, fate: Fate, ghost mark: Mark)
    requires Unstarted(test, keys, mark, fate, test.Commands)
    modifies test, test.Commands
    ensures Over(test, EndOf(mark, fate), EndOf(mark, fate).result) && EndOf(mark, fate).result != Skip
    ensures test.TargetName == old(test.TargetName) && test.requiredBy == old(test.requiredBy)
  {
    hide EndingOf;
    match fate
    case CannotStart => test.Result := Abort;
    case Runs(script) => test.Run(keys, script.obs, script);
  }

  lemma UnstartedStands(test: Test, keys: set<string>, sheet: Sheet, t: string, results: map<string, TestResult>)
    requires t in sheet.marks && t in sheet.needed && t in sheet.fates && t in sheet.lists
    requires Stands(test, keys, sheet, t, results) && t !in results
    ensures Unstarted(test, keys, sheet.marks[t], sheet.fates[t], sheet.lists[t])
    ensures test.Commands == sheet.lists[t] && test.PointsEarned == 0
    ensures test.TargetName == sheet.marks[t].target && test.requiredBy == sheet.needed[t]
  {
  }

  lemma OverStands(test: Test, keys: set<string>, sheet: Sheet, t: string, results: map<string, TestResult>,
                   r: TestResult)
    requires t in sheet.marks && t in sheet.needed && t in sheet.fates && t in sheet.lists
    requires test.TargetName == sheet.marks[t].target && test.requiredBy == sheet.needed[t]
      && Over(test, sheet.End(t), r)
    ensures Stands(test, keys, sheet, t, results[t := r])
  {
  }

  lemma OthersStand(test: Test, keys: set<string>, sheet: Sheet, u: string, results: map<string, TestResult>,
                    t: string, r: TestResult)
    requires u in sheet.marks && u in sheet.needed && u in sheet.fates && u in sheet.lists && u != t
    requires Stands(test, keys, sheet, u, results)
    ensures Stands(test, keys, sheet, u, results[t := r])
  {
  }

  lemma DescribedApart(sheet: Sheet, group: map<string, Test>, commands: set<Command>, t: string)
    requires sheet.Describes(group, commands) && t in group
    ensures sheet.marks.Keys == sheet.needed.Keys == sheet.fates.Keys == sheet.lists.Keys == group.Keys
    ensures forall u :: u in group && u != t ==> group[u] != group[t] && Unshared(sheet.lists[u], sheet.lists[t])
    ensures forall x :: x in sheet.lists[t] ==> x in commands
  {
  }

  /** The manager runs test t of the group. */
  method RunOne(group: map<string, Test>, keys: set<string>, t: string, fate: Fate, ghost commands: set<Command>,
                ghost sheet: Sheet, ghost results: map<string, TestResult>)
    requires sheet.Describes(group, commands) && InStep(group, keys, commands, sheet, results)
    requires t in group && t !in results && fate == sheet.fates[t]
    modifies group[t], sheet.lists[t]
    ensures InStep(group, keys, commands, sheet, results[t := sheet.End(t).result])
  {
    hide Unstarted, Over, EndOf, Sheet.Describes, Stands;
    DescribedApart(sheet, group, commands, t);
    UnstartedStands(group[t], keys, sheet, t, results);
    RunTest(group[t], keys, fate, sheet.marks[t]);
    OverStands(group[t], keys, sheet, t, results, sheet.End(t).result);
    forall u | u in group && u != t
      ensures Stands(group[u], keys, sheet, u, results[t := sheet.End(t).result])
    {
      assert old(Stands(group[u], keys, sheet, u, results));
      OthersStand(group[u], keys, sheet, u, results, t, sheet.End(t).result);
    }
  }

  // ----- The whole group, step by step -----

  /** The runner's table of outcomes is that of the sheet. */
  ghost predicate Foretold(c: R.Config, sheet: Sheet) {
    && R.Typed(c) && c.deps.Keys == sheet.marks.Keys == sheet.fates.Keys
    && forall t :: t in sheet.marks ==> c.outcome[t] == sheet.End(t).result
  }

  /** One step of the runner, with what it does to the tests: a test that the manager
      finishes has run, one whose waiter gives up is marked as skipped. */
  method Step(group: map<string, Test>, keys: set<string>, fates: map<string, Fate>, c: R.Config, s: R.State,
              l: R.Label, ghost commands: set<Command>, ghost sheet: Sheet)
    requires sheet.Describes(group, commands) && InStep(group, keys, commands, sheet, s.results) && fates == sheet.fates
    requires R.Inv(c, s) && R.Enabled(c, s, l) && Foretold(c, sheet)
    modifies group.Values, commands
    ensures InStep(group, keys, commands, sheet, R.Next(c, s, l).results)
  {
    hide *;
    OnlyOneResult(c, s, l);
    ForetoldAt(c, sheet, group, commands);
    match l {
      case Receive(t) =>
        NotYetOver(c, s, l, t);
        if R.Next(c, s, l).waiters[t] == R.Failed {
          SkipOne(group, keys, t, commands, sheet, s.results);
        }
      case Finish(t, signalled) =>
        NotYetOver(c, s, l, t);
        DescribedApart(sheet, group, commands, t);
        RunOne(group, keys, t, fates[t], commands, sheet, s.results);
      case _ =>
    }
  }

  lemma ForetoldAt(c: R.Config, sheet: Sheet, group: map<string, Test>, commands: set<Command>)
    requires Foretold(c, sheet) && sheet.Describes(group, commands)
    ensures R.Typed(c) && c.deps.Keys == group.Keys == c.outcome.Keys == sheet.marks.Keys == sheet.fates.Keys
      == sheet.lists.Keys
    ensures forall t :: t in group ==> c.outcome[t] == sheet.End(t).result
  {
  }

  /** The steps that give a test its result, and which one. */
  lemma OnlyOneResult(c: R.Config, s: R.State, l: R.Label)
    requires R.Enabled(c, s, l)
    ensures match l
      case Receive(t) =>
        var s' := R.Next(c, s, l);
        t in s'.waiters && s'.results == if s'.waiters[t] == R.Failed then s.results[t := Skip] else s.results
      case Finish(t, _) => t in c.outcome && R.Next(c, s, l).results == s.results[t := c.outcome[t]]
      case _ => R.Next(c, s, l).results == s.results
  {
    hide R.Heard, R.Broadcast, R.Send, R.M.Next, R.M.Enabled;
  }

  lemma NotYetOver(c: R.Config, s: R.State, l: R.Label, t: string)
    requires R.Inv(c, s) && R.Enabled(c, s, l) && (l == R.Receive(t) || (l.Finish? && l.test == t))
    ensures t in c.deps && t !in s.results
  {
    assert R.Good(c, s, t);
  }

  /** A waiter gives its test up. */
  method SkipOne(group: map<string, Test>, keys: set<string>, t: string, ghost commands: set<Command>,
                 ghost sheet: Sheet, ghost results: map<string, TestResult>)
    requires sheet.Describes(group, commands) && InStep(group, keys, commands, sheet, results)
    requires t in group && t !in results
    modifies group.Values`Result
    ensures InStep(group, keys, commands, sheet, results[t := Skip])
  {
    hide EndOf, Sheet.Describes, Stands, Unstarted;
    DescribedApart(sheet, group, commands, t);
    UnstartedStands(group[t], keys, sheet, t, results);
    group[t].Result := Skip;
    OverStands(group[t], keys, sheet, t, results, Skip);
    forall u | u in group && u != t
      ensures Stands(group[u], keys, sheet, u, results[t := Skip])
    {
      assert old(Stands(group[u], keys, sheet, u, results));
      OthersStand(group[u], keys, sheet, u, results, t, Skip);
    }
  }

  /** What the client reads of a test that is over. */
  ghost function ReportOn(sheet: Sheet, results: map<string, TestResult>, t: string): Outcome
    requires t in sheet.marks && t in sheet.fates && t in results
  {
    Outcome(t, results[t] == Abort, if results[t] == Skip then 0 else sheet.End(t).earned, sheet.marks[t].target)
  }

  /** The reports are those of the listed tests, in this order. */
  ghost predicate AreReports(sheet: Sheet, results: map<string, TestResult>, out: seq<string>, reports: seq<Outcome>)
    requires sheet.marks.Keys == sheet.fates.Keys
  {
    && |reports| == |out|
    && forall i :: 0 <= i < |out| ==>
      out[i] in sheet.marks && out[i] in results && reports[i] == ReportOn(sheet, results, out[i])
  }

  /** Runs a group under any schedule that the runner allows, and reads the client's
      channel. */
  method Execute(group: map<string, Test>, keys: set<string>, fates: map<string, Fate>, c: R.Config,
                 labels: seq<R.Label>, ghost commands: set<Command>, ghost sheet: Sheet)
    returns (reports: seq<Outcome>)
    requires sheet.Describes(group, commands) && InStep(group, keys, commands, sheet, map[]) && fates == sheet.fates
    requires Foretold(c, sheet) && R.After(c, labels).Some?
    modifies group.Values, commands
    ensures var s := R.After(c, labels).value; AreReports(sheet, s.results, s.out, reports)
    ensures Required(group) == sheet.needed
  {
    hide *;
    ForetoldAt(c, sheet, group, commands);
    var loop := new RunnerLoops.MainLoop(group.Keys);
    var now := R.Init(c);
    StartsInStep(c, loop);
    RunnerLoops.NoSteps(c, labels);
    for i := 0 to |labels|
      invariant R.After(c, labels[..i]) == Some(now) && loop.Shows(c, now) && fresh(loop)
      invariant InStep(group, keys, commands, sheet, now.results)
    {
      RunnerLoops.AfterOneMore(c, labels, i);
      R.RunKeepsInv(c, labels[..i]);
      RunnerLoops.Take(c, loop, now, labels[i]);
      Step(group, keys, fates, c, now, labels[i], commands, sheet);
      now := R.Next(c, now, labels[i]);
    }
    assert labels[..|labels|] == labels;
    R.RunKeepsInv(c, labels);
    OutIsKnown(c, now, loop);
    NeededStays(group, keys, commands, sheet, now.results);
    reports := ReadResults(group, keys, loop.callbackChan, commands, sheet, now.results);
  }

  lemma NeededStays(group: map<string, Test>, keys: set<string>, commands: set<Command>, sheet: Sheet,
                    results: map<string, TestResult>)
    requires sheet.Describes(group, commands) && InStep(group, keys, commands, sheet, results)
    ensures Required(group) == sheet.needed
  {
    hide Over, Unstarted, Unshared;
    forall t | t in group ensures group[t].requiredBy == sheet.needed[t] {
      assert Stands(group[t], keys, sheet, t, results);
    }
  }

  lemma StartsInStep(c: R.Config, loop: RunnerLoops.MainLoop)
    requires loop.waiting == (map t | t in c.deps.Keys :: []) && loop.callbackChan == [] && loop.results == 0
      && loop.room == |c.deps.Keys|
    ensures loop.Shows(c, R.Init(c)) && R.Init(c).results == map[]
  {
  }

  lemma OutIsKnown(c: R.Config, s: R.State, loop: RunnerLoops.MainLoop)
    requires R.Inv(c, s) && loop.Shows(c, s)
    ensures loop.callbackChan == s.out && forall d :: d in s.out ==> d in c.deps && d in s.results
  {
    R.OutIsDecided(c, s);
  }

  /** The client reads the tests that the runner has delivered. */
  method ReadResults(group: map<string, Test>, keys: set<string>, out: seq<string>, ghost commands: set<Command>,
                     ghost sheet: Sheet, ghost results: map<string, TestResult>)
    returns (reports: seq<Outcome>)
    requires sheet.Describes(group, commands) && InStep(group, keys, commands, sheet, results)
    requires forall t :: t in out ==> t in group && t in results
    ensures AreReports(sheet, results, out, reports)
  {
    hide EndOf, Unstarted;
    reports := [];
    for i := 0 to |out|
      invariant AreReports(sheet, results, out[..i], reports)
    {
      var test := group[out[i]];
      assert Stands(test, keys, sheet, out[i], results);
      reports := reports + [Outcome(out[i], test.Result == Abort, test.PointsEarned, test.TargetName)];
    }
    assert out[..|out|] == out;
  }

  // ----- The score -----

  /** The points each test ends with. */
  ghost function Gains(sheet: Sheet, results: map<string, TestResult>): map<string, int>
    requires sheet.marks.Keys == sheet.fates.Keys
  {
    map t | t in sheet.marks :: if t in results && results[t] == Skip then 0 else sheet.End(t).earned
  }

  /** The score that given results come to: nothing if a test aborted, otherwise what
      all tests that ran have earned. */
  ghost function ScoreOf(sheet: Sheet, results: map<string, TestResult>): int
    requires sheet.marks.Keys == sheet.fates.Keys
  {
    if exists t :: t in results && results[t] == Abort then 0 else SumOver(sheet.marks.Keys, Gains(sheet, results))
  }

  /** No test earns more than it has. */
  ghost predicate Bounded(sheet: Sheet)
    requires sheet.marks.Keys == sheet.fates.Keys
  {
    forall t :: t in sheet.marks ==> sheet.End(t).earned <= sheet.marks[t].points
  }

  /** Reports of different tests with bounded points are what a graded group can
      report. */
  lemma ReportsAreBounded(sheet: Sheet, results: map<string, TestResult>, out: seq<string>, reports: seq<Outcome>)
    requires sheet.marks.Keys == sheet.fates.Keys && Bounded(sheet)
    requires AreReports(sheet, results, out, reports) && NoDuplicates(out)
    ensures Reported(sheet.marks, reports)
  {
    hide Sheet.End;
  }

  /** Together they earn the sum of the tests' points, in whatever order they come. */
  lemma {:induction false} ReportsAddUp(sheet: Sheet, results: map<string, TestResult>, out: seq<string>,
                                        reports: seq<Outcome>)
    requires sheet.marks.Keys == sheet.fates.Keys
    requires AreReports(sheet, results, out, reports) && NoDuplicates(out)
    ensures Elements(out) <= sheet.marks.Keys
    ensures EarnedBy(reports) == SumOver(Elements(out), Gains(sheet, results))
  {
    hide Sheet.End, SumOver;
    if out == [] {
      SumConstant(Elements(out), Gains(sheet, results), 0);
    } else {
      var k := |out| - 1;
      ReportsAddUp(sheet, results, out[..k], reports[..k]);
      SumTakeOut(Elements(out), Gains(sheet, results), out[k]);
      assert Elements(out) - {out[k]} == Elements(out[..k]);
      assert reports[k] == ReportOn(sheet, results, out[k]);
    }
  }

  lemma AbortIsReported(sheet: Sheet, results: map<string, TestResult>, out: seq<string>, reports: seq<Outcome>)
    requires sheet.marks.Keys == sheet.fates.Keys && AreReports(sheet, results, out, reports)
    ensures AnyAbort(reports) <==> exists t :: t in out && results[t] == Abort
  {
    hide Sheet.End;
    if t :| t in out && results[t] == Abort {
      var i :| 0 <= i < |out| && out[i] == t;
      assert reports[i].aborted;
    }
  }

  /** A test that is started is aborted: something fails before its first command, or its
      run breaks off. */
  ghost predicate Aborts(mark: Mark, fate: Fate) {
    match fate
    case CannotStart => true
    case Runs(s) => Breaks(s, mark.scoring)
  }

  /** Some test that was started is. */
  ghost predicate SomeAborts(sheet: Sheet, results: map<string, TestResult>)
    requires sheet.marks.Keys == sheet.fates.Keys
  {
    exists t :: t in results && t in sheet.marks && results[t] != Skip && Aborts(sheet.marks[t], sheet.fates[t])
  }

  lemma AbortsWhen(sheet: Sheet, t: string)
    requires t in sheet.marks && t in sheet.fates
    ensures sheet.End(t).result == Abort <==> Aborts(sheet.marks[t], sheet.fates[t])
  {
    hide EndingOf, Breaks;
    match sheet.fates[t]
    case CannotStart =>
    case Runs(s) => TestAbortsWhen(s, sheet.marks[t].scoring, sheet.marks[t].points, sheet.marks[t].penalty);
  }

  lemma AbortMeans(c: R.Config, sheet: Sheet, results: map<string, TestResult>)
    requires Foretold(c, sheet) && R.IsVerdict(c, results)
    ensures (exists t :: t in results && results[t] == Abort) <==> SomeAborts(sheet, results)
  {
    hide Sheet.End, Aborts, R.AllCorrect;
    forall t | t in results
      ensures t in sheet.marks
      ensures results[t] == Abort <==> results[t] != Skip && Aborts(sheet.marks[t], sheet.fates[t])
    {
      AbortsWhen(sheet, t);
      assert c.outcome[t] == sheet.End(t).result;
    }
  }

  /** What a complete run delivers is worth the score that its results come to. */
  lemma RunIsWorth(c: R.Config, labels: seq<R.Label>, sheet: Sheet, reports: seq<Outcome>)
    requires R.ValidConfig(c) && R.IsComplete(c, labels) && Foretold(c, sheet)
    requires var s := R.After(c, labels).value; AreReports(sheet, s.results, s.out, reports)
    ensures ScoreOf(sheet, R.After(c, labels).value.results) == if AnyAbort(reports) then 0 else EarnedBy(reports)
    ensures AnyAbort(reports) <==> SomeAborts(sheet, R.After(c, labels).value.results)
    ensures Bounded(sheet) ==> Reported(sheet.marks, reports)
    ensures R.IsVerdict(c, R.After(c, labels).value.results)
    ensures forall r :: R.IsVerdict(c, r) ==> r == R.After(c, labels).value.results
  {
    hide SumOver, Gains, EarnedBy, Bounded, SomeAborts, Sheet.End, R.IsVerdict, R.After, R.Enabled;
    var s := R.After(c, labels).value;
    R.CompleteRunDeliversAll(c, labels);
    ReportsAddUp(sheet, s.results, s.out, reports);
    AbortIsReported(sheet, s.results, s.out, reports);
    if Bounded(sheet) {
      ReportsAreBounded(sheet, s.results, s.out, reports);
    }
    R.CompleteRunReachesVerdict(c, labels);
    AbortMeans(c, sheet, s.results);
    forall r | R.IsVerdict(c, r) ensures r == s.results {
      R.VerdictIsUnique(c, r, s.results);
    }
    assert forall t :: t in s.results <==> t in Elements(s.out);
  }

  // ----- The most a group can score -----

  /** What each test can earn at most, given its commands. */
  ghost function Potential(marks: map<string, Mark>, specs: map<string, seq<Spec>>): map<string, int>
    requires HasCommands(marks, specs)
  {
    map t | t in marks :: Attainable(specs[t], marks[t].scoring, marks[t].points)
  }

  ghost predicate HasCommands(marks: map<string, Mark>, specs: map<string, seq<Spec>>) {
    specs.Keys == marks.Keys && forall t :: t in specs ==> |specs[t]| > 0
  }

  /** The fates of the tests are runs of their commands. */
  ghost predicate FatesFit(marks: map<string, Mark>, specs: map<string, seq<Spec>>, keys: set<string>, sheet: Sheet)
    requires HasCommands(marks, specs)
  {
    && sheet.marks == marks && sheet.fates.Keys == marks.Keys
    && forall t :: t in marks && sheet.fates[t].Runs? ==> IsFor(sheet.fates[t].script, keys, specs[t])
  }

  /** Some complete run of the group ends with these results. */
  ghost predicate CanEnd(deps: Edges, sheet: Sheet, results: map<string, TestResult>) {
    exists c: R.Config, labels: seq<R.Label> ::
      c.deps == deps && Foretold(c, sheet) && R.IsComplete(c, labels) && R.After(c, labels).value.results == results
  }

  lemma NoTestExceeds(marks: map<string, Mark>, specs: map<string, seq<Spec>>, keys: set<string>,
                      sheet: Sheet, results: map<string, TestResult>)
    requires HasCommands(marks, specs) && FatesFit(marks, specs, keys, sheet)
    ensures ScoreOf(sheet, results) <= SumOver(marks.Keys, Potential(marks, specs))
  {
    hide SumOver, EndingOf, Attainable;
    var zeros := map t | t in marks :: 0;
    forall t | t in marks ensures 0 <= Gains(sheet, results)[t] <= Potential(marks, specs)[t] {
      if sheet.fates[t].Runs? {
        assert IsFor(sheet.fates[t].script, keys, specs[t]);
        EarnsAtMostAttainable(sheet.fates[t].script, marks[t].scoring, marks[t].points, marks[t].penalty);
      }
    }
    SumConstant(marks.Keys, zeros, 0);
    SumAtMost(marks.Keys, zeros, Potential(marks, specs));
    SumAtMost(marks.Keys, Gains(sheet, results), Potential(marks, specs));
  }

  /** The runs in which every test earns all it can. */
  ghost function BestSheet(marks: map<string, Mark>, specs: map<string, seq<Spec>>, keys: set<string>): (sheet: Sheet)
    requires HasCommands(marks, specs)
    ensures sheet.marks == marks && sheet.fates.Keys == marks.Keys
    ensures forall t :: t in marks ==> sheet.fates[t] == Runs(GoodRun(keys, specs[t], false))
  {
    Sheet(marks, map[], map t | t in marks :: Runs(GoodRun(keys, specs[t], false)), map[])
  }

  lemma BestFits(marks: map<string, Mark>, specs: map<string, seq<Spec>>, keys: set<string>)
    requires HasCommands(marks, specs)
    ensures FatesFit(marks, specs, keys, BestSheet(marks, specs, keys))
  {
  }

  lemma BestEnds(marks: map<string, Mark>, specs: map<string, seq<Spec>>, keys: set<string>)
    requires HasCommands(marks, specs)
    ensures var sheet := BestSheet(marks, specs, keys);
      forall t :: t in marks ==> sheet.End(t) == Ending(Correct, Potential(marks, specs)[t], 0)
  {
    hide EndingOf, Attainable, GoodRun;
    forall t | t in marks
      ensures BestSheet(marks, specs, keys).End(t) == Ending(Correct, Potential(marks, specs)[t], 0)
    {
      GoodRunEarnsAll(keys, specs[t], marks[t].scoring, marks[t].points, marks[t].penalty);
    }
  }

  /** Where every test ends correct if it runs, every test runs. */
  lemma NothingSkipped(c: R.Config, results: map<string, TestResult>)
    requires R.ValidConfig(c) && R.IsVerdict(c, results) && forall t :: t in c.deps ==> c.outcome[t] == Correct
    ensures results.Keys == c.deps.Keys && forall t :: t in results ==> results[t] == Correct
  {
    hide Cyclic, Closed, TopOrder, R.AllCorrect;
    var order := AcyclicHasOrder(c.deps);
    forall t | t in results ensures results[t] == Correct {
      if results[t] != Correct {
        var f := R.FailureHasCause(c, results, order, t);
      }
    }
  }

  function AllCorrect(deps: Edges): R.Config {
    R.Config(deps, 0, map t | t in deps :: Correct)
  }

  lemma BestIsForetold(marks: map<string, Mark>, specs: map<string, seq<Spec>>, keys: set<string>, deps: Edges)
    requires HasCommands(marks, specs) && deps.Keys == marks.Keys && Closed(deps) && !Cyclic(deps)
    ensures Foretold(AllCorrect(deps), BestSheet(marks, specs, keys)) && R.ValidConfig(AllCorrect(deps))
  {
    hide Sheet.End, Closed, Cyclic;
    BestEnds(marks, specs, keys);
  }

  lemma BestScore(marks: map<string, Mark>, specs: map<string, seq<Spec>>, keys: set<string>,
                  results: map<string, TestResult>)
    requires HasCommands(marks, specs) && forall t :: t in results ==> results[t] == Correct
    ensures ScoreOf(BestSheet(marks, specs, keys), results) == SumOver(marks.Keys, Potential(marks, specs))
  {
    hide SumOver, Sheet.End, Attainable;
    BestEnds(marks, specs, keys);
    SumSame(marks.Keys, Gains(BestSheet(marks, specs, keys), results), Potential(marks, specs));
  }

  lemma BestRun(marks: map<string, Mark>, specs: map<string, seq<Spec>>, keys: set<string>, deps: Edges)
    returns (results: map<string, TestResult>)
    requires HasCommands(marks, specs) && deps.Keys == marks.Keys && Closed(deps) && !Cyclic(deps)
    ensures CanEnd(deps, BestSheet(marks, specs, keys), results)
    ensures ScoreOf(BestSheet(marks, specs, keys), results) == SumOver(marks.Keys, Potential(marks, specs))
  {
    hide HasCommands, BestSheet, ScoreOf, SumOver, Potential, Foretold, Closed, Cyclic, R.ValidConfig, R.After,
      R.IsComplete, R.IsVerdict;
    var c := AllCorrect(deps);
    BestIsForetold(marks, specs, keys, deps);
    NothingTaken(c);
    var labels := R.RunCanComplete(c, []);
    RunEndsCorrect(c, labels);
    results := R.After(c, labels).value.results;
    BestScore(marks, specs, keys, results);
  }

  lemma RunEndsCorrect(c: R.Config, labels: seq<R.Label>)
    requires R.ValidConfig(c) && R.IsComplete(c, labels) && forall t :: t in c.deps ==> c.outcome[t] == Correct
    ensures R.After(c, labels).Some?
    ensures var results := R.After(c, labels).value.results; forall t :: t in results ==> results[t] == Correct
  {
    hide R.After, R.Enabled, R.IsVerdict, Closed, Cyclic;
    R.CompleteRunReachesVerdict(c, labels);
    NothingSkipped(c, R.After(c, labels).value.results);
  }

  lemma NothingTaken(c: R.Config)
    ensures R.After(c, []).Some?
  {
  }

  /** No complete run scores above a bound exactly when what the tests can earn at most
      does not add up to more. */
  lemma RunsStayWithin(marks: map<string, Mark>, specs: map<string, seq<Spec>>, keys: set<string>, deps: Edges,
                       bound: int)
    requires HasCommands(marks, specs) && deps.Keys == marks.Keys && Closed(deps) && !Cyclic(deps)
    ensures (forall sheet, results :: FatesFit(marks, specs, keys, sheet) && CanEnd(deps, sheet, results) ==>
               ScoreOf(sheet, results) <= bound)
       <==> SumOver(marks.Keys, Potential(marks, specs)) <= bound
  {
    hide SumOver, ScoreOf, Closed, Cyclic, Attainable, CanEnd;
    var best := BestRun(marks, specs, keys, deps);
    BestFits(marks, specs, keys);
    forall sheet, results | FatesFit(marks, specs, keys, sheet) && CanEnd(deps, sheet, results)
      ensures ScoreOf(sheet, results) <= SumOver(marks.Keys, Potential(marks, specs))
    {
      NoTestExceeds(marks, specs, keys, sheet, results);
    }
  }

  // ----- From the instance to the score -----

  ghost function MarksOf(group: map<string, Test>): map<string, Mark>
    reads group.Values
  {
    map t | t in group :: MarkOn(group[t])
  }

  ghost function SpecsOf(group: map<string, Test>, commands: set<Command>): map<string, seq<Spec>>
    requires Within(group, commands)
    reads group.Values, commands
  {
    map t | t in group :: Views(group[t].Commands)
  }

  /** The graded group is ready to run, and how each test would go is given. */
  ghost predicate Prepared(group: map<string, Test>, keys: set<string>, fates: map<string, Fate>,
                           commands: set<Command>)
    requires Within(group, commands)
    reads group.Values, commands
  {
    && fates.Keys == group.Keys
    && forall t :: t in group ==> Unstarted(group[t], keys, MarkOn(group[t]), fates[t], group[t].Commands)
  }

  ghost function SheetOf(group: map<string, Test>, fates: map<string, Fate>): (sheet: Sheet)
    reads group.Values
    ensures sheet.marks.Keys == group.Keys && sheet.fates == fates
  {
    Sheet(MarksOf(group), Required(group), fates, map t | t in group :: group[t].Commands)
  }

  lemma SheetOfGroup(group: map<string, Test>, fates: map<string, Fate>)
    ensures SheetOf(group, fates).marks.Keys == group.Keys && SheetOf(group, fates).fates == fates
    ensures SheetOf(group, fates).needed == Required(group)
    ensures forall t :: t in group ==> SheetOf(group, fates).marks[t] == MarkOn(group[t])
  {
  }

  lemma ValidForRunner(c: R.Config, sheet: Sheet, labels: seq<R.Label>)
    requires Closed(c.deps) && !Cyclic(c.deps) && Foretold(c, sheet) && R.IsComplete(c, labels)
    ensures R.ValidConfig(c) && R.After(c, labels).Some?
  {
  }

  lemma SheetDescribes(group: map<string, Test>, keys: set<string>, fates: map<string, Fate>, commands: set<Command>)
    requires Separate(group) && Within(group, commands) && Prepared(group, keys, fates, commands)
    ensures var sheet := SheetOf(group, fates);
      sheet.Describes(group, commands) && InStep(group, keys, commands, sheet, map[])
  {
    hide Unstarted, Unshared;
    forall a, b | a in group && b in group && a != b
      ensures group[a] != group[b] && Unshared(group[a].Commands, group[b].Commands) {
      PairUnshared(group, a, b);
    }
  }

  lemma PreparedFits(group: map<string, Test>, keys: set<string>, fates: map<string, Fate>, commands: set<Command>)
    requires Within(group, commands) && Prepared(group, keys, fates, commands)
    requires HasCommands(MarksOf(group), SpecsOf(group, commands))
    ensures FatesFit(MarksOf(group), SpecsOf(group, commands), keys, SheetOf(group, fates))
  {
    forall t | t in group && fates[t].Runs? ensures IsFor(fates[t].script, keys, SpecsOf(group, commands)[t]) {
      assert Unstarted(group[t], keys, MarkOn(group[t]), fates[t], group[t].Commands);
    }
  }

  /** Whatever the results, the score is one that the tests' commands allow. */
  lemma ScoreIsPossible(group: map<string, Test>, keys: set<string>, fates: map<string, Fate>, commands: set<Command>)
    requires Within(group, commands) && Prepared(group, keys, fates, commands)
    ensures var marks, specs := MarksOf(group), SpecsOf(group, commands);
      HasCommands(marks, specs) ==>
        forall r :: ScoreOf(SheetOf(group, fates), r) <= SumOver(group.Keys, Potential(marks, specs))
  {
    hide Within, Prepared, FatesFit, ScoreOf, SumOver, Attainable;
    var marks, specs := MarksOf(group), SpecsOf(group, commands);
    if HasCommands(marks, specs) {
      PreparedFits(group, keys, fates, commands);
      forall r ensures ScoreOf(SheetOf(group, fates), r) <= SumOver(group.Keys, Potential(marks, specs)) {
        NoTestExceeds(marks, specs, keys, SheetOf(group, fates), r);
      }
    }
  }

  lemma FateIsBounded(test: Test, keys: set<string>, fate: Fate)
    requires Consistent(test) && Unstarted(test, keys, MarkOn(test), fate, test.Commands)
    ensures EndOf(MarkOn(test), fate).earned <= test.PointsAvailable
  {
    hide Consistent, EndingOf;
    if fate.Runs? {
      GradedTestStaysInBounds(test, fate.script);
    }
  }

  lemma InstanceIsConsistent(group: map<string, Test>, commands: set<Command>, targets: seq<Target>, deps: Edges,
                             requested: set<string>)
    requires IsInstanceOf(group, commands, targets, deps, requested)
    ensures Separate(group) && Within(group, commands) && UniqueIds(AllEntries(targets))
    ensures Closed(Groups.Restrict(deps, group.Keys)) && !Cyclic(Groups.Restrict(deps, group.Keys))
    ensures forall t :: t in group ==> Consistent(group[t])
  {
    hide Marked, Ids, UniqueIds, AllEntries, AllGradable, MarkedFor, Pristine, Consistent;
  }

  lemma InstanceIsBounded(group: map<string, Test>, keys: set<string>, fates: map<string, Fate>, commands: set<Command>,
                          targets: seq<Target>, deps: Edges, requested: set<string>)
    requires IsInstanceOf(group, commands, targets, deps, requested)
    requires Within(group, commands) && Prepared(group, keys, fates, commands)
    ensures Bounded(SheetOf(group, fates))
  {
    hide IsInstanceOf, Consistent, Unstarted, EndOf;
    InstanceIsConsistent(group, commands, targets, deps, requested);
    forall t | t in group ensures EndOf(MarkOn(group[t]), fates[t]).earned <= group[t].PointsAvailable {
      FateIsBounded(group[t], keys, fates[t]);
    }
  }

  /** The test can earn all its points: under partial scoring, a run can go past every
      command that has any. */
  ghost predicate FullyEarnable(mark: Mark, specs: seq<Spec>) {
    mark.scoring == Partial ==> forall i :: 0 <= i < |specs| && specs[i].points > 0 ==> CanPass(specs, i)
  }

  lemma EarnableOf(test: Test)
    requires Consistent(test) && |test.Commands| > 0 && (test.ScoringMethod == Ungraded ==> test.PointsAvailable == 0)
    ensures var specs, points := Views(test.Commands), test.PointsAvailable;
      && Attainable(specs, test.ScoringMethod, points) <= points
      && (Attainable(specs, test.ScoringMethod, points) == points <==> FullyEarnable(MarkOn(test), specs))
  {
    hide Consistent, CanPass, Passing;
    ViewsAddUp(test.Commands);
    ConsistentMeans(test);
    AllAttainableWhen(Views(test.Commands), PointsFrom(Views(test.Commands), 0));
  }

  /** A test that is graded for nothing has no points. */
  lemma UngradedIsWorthless(group: map<string, Test>, commands: set<Command>, targets: seq<Target>, deps: Edges,
                            requested: set<string>, x: string)
    requires IsInstanceOf(group, commands, targets, deps, requested) && x in group
    ensures group[x].ScoringMethod == Ungraded ==> group[x].PointsAvailable == 0
  {
    hide Marked, UniqueIds, AllEntries, IsInstanceOf, SumOver, PointsOfTargets, Separate, Within, Consistent;
    var marks := InstanceAddsUp(group, commands, targets, deps, requested);
    InstanceIsConsistent(group, commands, targets, deps, requested);
    BlankIsNothing(group.Keys);
    MarkedAt(Blank(group.Keys), AllEntries(targets), x);
    assert marks[x] == MarkOn(group[x]);
    if x in Ids(AllEntries(targets)) {
      var e :| e in AllEntries(targets) && e.test.id == x;
    }
  }

  /** No complete run of the tests of t's instance scores more than a submission to t has
      available, exactly when what its tests can earn at most does not add up to more.
      That is at most what the targets that run are worth, and all of it exactly when
      every test can earn all its points. */
  lemma ScoreFits(t: Target, group: map<string, Test>, commands: set<Command>, deps: Edges, requested: set<string>,
                  keys: set<string>)
    requires IsInstanceOf(group, commands, AllTargets(t), deps, requested) && Within(group, commands)
    requires HasCommands(MarksOf(group), SpecsOf(group, commands))
    ensures var marks, specs := MarksOf(group), SpecsOf(group, commands);
      && ((forall sheet, results ::
             FatesFit(marks, specs, keys, sheet) && CanEnd(Groups.Restrict(deps, group.Keys), sheet, results) ==>
               ScoreOf(sheet, results) <= SubmissionPoints(t))
          <==> SumOver(group.Keys, Potential(marks, specs)) <= SubmissionPoints(t))
      && SumOver(group.Keys, Potential(marks, specs)) <= PointsOfTargets(AllTargets(t))
      && (SumOver(group.Keys, Potential(marks, specs)) == PointsOfTargets(AllTargets(t)) <==>
            forall x :: x in group ==> FullyEarnable(marks[x], specs[x]))
  {
    hide IsInstanceOf, Within, Closed, Cyclic, SumOver, Potential, FullyEarnable, FatesFit, CanEnd, ScoreOf, Consistent;
    InstanceIsConsistent(group, commands, AllTargets(t), deps, requested);
    InstanceCoversDeps(group, commands, AllTargets(t), deps, requested);
    RunsStayWithin(MarksOf(group), SpecsOf(group, commands), keys, Groups.Restrict(deps, group.Keys),
      SubmissionPoints(t));
    PotentialOf(t, group, commands, deps, requested);
  }

  lemma InstanceCoversDeps(group: map<string, Test>, commands: set<Command>, targets: seq<Target>, deps: Edges,
                           requested: set<string>)
    requires IsInstanceOf(group, commands, targets, deps, requested)
    ensures Groups.Restrict(deps, group.Keys).Keys == group.Keys
  {
    hide Marked, Ids, UniqueIds, AllEntries, AllGradable, MarkedFor, Graded, Closed, Cyclic, Groups.Closure;
  }

  lemma PotentialOf(t: Target, group: map<string, Test>, commands: set<Command>, deps: Edges, requested: set<string>)
    requires IsInstanceOf(group, commands, AllTargets(t), deps, requested) && Within(group, commands)
    requires HasCommands(MarksOf(group), SpecsOf(group, commands))
    ensures var marks, specs := MarksOf(group), SpecsOf(group, commands);
      && SumOver(group.Keys, Potential(marks, specs)) <= PointsOfTargets(AllTargets(t))
      && (SumOver(group.Keys, Potential(marks, specs)) == PointsOfTargets(AllTargets(t)) <==>
            forall x :: x in group ==> FullyEarnable(marks[x], specs[x]))
  {
    hide IsInstanceOf, Within, SumOver, FullyEarnable, Consistent, Attainable, Closed, Cyclic, PointsOfTargets, Marked;
    var marks, specs := MarksOf(group), SpecsOf(group, commands);
    var all := InstanceAddsUp(group, commands, AllTargets(t), deps, requested);
    InstanceIsConsistent(group, commands, AllTargets(t), deps, requested);
    forall x | x in group
      ensures Potential(marks, specs)[x] <= PointsIn(all)[x]
      ensures Potential(marks, specs)[x] == PointsIn(all)[x] <==> FullyEarnable(marks[x], specs[x])
    {
      UngradedIsWorthless(group, commands, AllTargets(t), deps, requested, x);
      EarnableOf(group[x]);
    }
    if forall x :: x in group ==> FullyEarnable(marks[x], specs[x]) {
      SumSame(group.Keys, Potential(marks, specs), PointsIn(all));
    } else {
      var x :| x in group && !FullyEarnable(marks[x], specs[x]);
      SumBelow(group.Keys, Potential(marks, specs), PointsIn(all), x);
    }
  }

  // ----- The splits -----

  ghost function TotalScore(splits: seq<Submission>): nat
    reads splits`Score
  {
    if splits == [] then 0 else TotalScore(splits[..|splits| - 1]) + splits[|splits| - 1].Score
  }

  lemma {:induction false} SplitsTotal(splits: seq<Submission>, names: seq<string>, reports: seq<Outcome>,
                                       status: Submissions.Status)
    requires |splits| == |names| && ScoredAs(splits, names, reports, status)
    ensures TotalScore(splits) == if status == Aborted then 0 else EarnedForAll(reports, names)
  {
    if splits != [] {
      var k := |splits| - 1;
      SplitsTotal(splits[..k], names[..k], reports, status);
    }
  }

  ghost function Names(splits: seq<Submission>): seq<string>
    reads splits
  {
    seq(|splits|, i requires 0 <= i < |splits| reads splits => splits[i].TargetName)
  }

  lemma SplitsAreNamed(env: map<string, Target>, n: string, splits: seq<Submission>, group: map<string, Test>)
    requires KeyedByName(env) && Linked(env) && n in env && |splits| == |AllTargets(env[n])|
    requires forall i :: 0 <= i < |splits| ==> IsSplit(splits[i], AllTargets(env[n])[i], group)
    ensures Names(splits) == RunningNames(env, n)
  {
    hide Linked, RunningNames, RunsWith, AllTargets;
    TargetsThatRun(env, n);
    forall i | 0 <= i < |splits| ensures splits[i].TargetName == RunningNames(env, n)[i] {
      assert IsSplit(splits[i], AllTargets(env[n])[i], group);
    }
  }

  lemma ScoredTogether(splits: seq<Submission>, names: seq<string>, reports: seq<Outcome>, status: Submissions.Status)
    requires |splits| == |names| && ScoredAs(splits, names, reports, status)
    ensures forall i :: 0 <= i < |splits| ==>
      splits[i].Status == status && (status == Aborted ==> splits[i].Score == 0)
  {
  }

  lemma SplitsFit(splits: seq<Submission>, targets: seq<Target>, group: map<string, Test>, reports: seq<Outcome>,
                  status: Submissions.Status)
    requires |splits| == |targets| && ScoredAs(splits, NamesOf(targets), reports, status)
    requires forall i :: 0 <= i < |splits| ==> IsSplit(splits[i], targets[i], group)
    requires forall i :: 0 <= i < |targets| ==> EarnedFor(reports, targets[i].Name) <= targets[i].Points
    ensures forall i :: 0 <= i < |splits| ==> splits[i].Score <= splits[i].PointsAvailable
  {
    hide EarnedFor;
    forall i | 0 <= i < |splits| ensures splits[i].Score <= splits[i].PointsAvailable {
      assert IsSplit(splits[i], targets[i], group) && NamesOf(targets)[i] == targets[i].Name;
    }
  }

  /** The targets' tests are in the group and worth what their targets are. */
  lemma InstanceHasTests(group: map<string, Test>, commands: set<Command>, targets: seq<Target>, deps: Edges,
                         requested: set<string>)
    requires IsInstanceOf(group, commands, targets, deps, requested)
    ensures Ids(AllEntries(targets)) <= group.Keys
    ensures forall i :: 0 <= i < |targets| ==> TestPoints(targets[i].Tests) == targets[i].Points
  {
    hide Marked, Ids, UniqueIds, AllEntries, MarkedFor, Pristine, Consistent, TestPoints, AllExact;
    BlankIsNothing(group.Keys);
    MarkedKeys(Blank(group.Keys), AllEntries(targets));
    forall i | 0 <= i < |targets| ensures TestPoints(targets[i].Tests) == targets[i].Points {
      assert Gradable(group, targets[i]);
    }
  }

  /** What is known of a submission to a target before anything runs: what the reports
      of its tests may come to, and that they are shared out among the targets. */
  lemma SubmissionIsSound(env: map<string, Target>, n: string, group: map<string, Test>, commands: set<Command>,
                          deps: Edges, requested: set<string>, sheet: Sheet)
    requires KeyedByName(env) && Linked(env) && n in env
    requires IsInstanceOf(group, commands, AllTargets(env[n]), deps, requested)
    requires sheet.marks.Keys == group.Keys && (forall t :: t in group ==> sheet.marks[t] == MarkOn(group[t]))
    ensures forall reports :: Reported(sheet.marks, reports) ==>
      && (MetaIsFlagged(env[n]) ==> EarnedBy(reports) <= SubmissionPoints(env[n]))
      && EarnedForAll(reports, NamesOf(AllTargets(env[n]))) == EarnedBy(reports)
      && forall i :: 0 <= i < |AllTargets(env[n])| ==>
        EarnedFor(reports, AllTargets(env[n])[i].Name) <= AllTargets(env[n])[i].Points
  {
    hide *;
    InstanceIsConsistent(group, commands, AllTargets(env[n]), deps, requested);
    var marks := InstanceAddsUp(group, commands, AllTargets(env[n]), deps, requested);
    assert marks == sheet.marks;
    LinkedNames(env, n);
    InstanceHasTests(group, commands, AllTargets(env[n]), deps, requested);
    forall reports | Reported(sheet.marks, reports)
      ensures MetaIsFlagged(env[n]) ==> EarnedBy(reports) <= SubmissionPoints(env[n])
      ensures EarnedForAll(reports, NamesOf(AllTargets(env[n]))) == EarnedBy(reports)
      ensures forall i :: 0 <= i < |AllTargets(env[n])| ==>
        EarnedFor(reports, AllTargets(env[n])[i].Name) <= AllTargets(env[n])[i].Points
    {
      forall i | 0 <= i < |AllTargets(env[n])|
        ensures EarnedFor(reports, AllTargets(env[n])[i].Name) <= AllTargets(env[n])[i].Points {
        SplitFits(marks, group.Keys, AllTargets(env[n]), reports, i);
      }
      if MetaIsFlagged(env[n]) {
        SubmissionNeverExceeds(env, n, group, commands, deps, requested, marks, reports);
      }
      InstanceConserves(marks, group.Keys, AllTargets(env[n]), reports);
    }
  }

  /** With each test the submission lists what the test depends on. */
  ghost predicate ListsDependencies(s: Submission, deps: Edges)
    reads s`TestIDs
  {
    |s.TestIDs| > 0 && forall x, d :: x in s.TestIDs[1..] && x in deps && d in deps[x] ==> d in s.TestIDs[1..]
  }

  lemma SplitsListDependencies(splits: seq<Submission>, targets: seq<Target>, group: map<string, Test>, deps: Edges)
    requires |splits| <= |targets| && NeedsAreClosed(Required(group), deps)
    requires forall i :: 0 <= i < |splits| ==> IsSplit(splits[i], targets[i], group)
    ensures forall i :: 0 <= i < |splits| ==> ListsDependencies(splits[i], deps)
  {
    hide NeedsAreClosed;
    forall i | 0 <= i < |splits| ensures ListsDependencies(splits[i], deps) {
      forall x, d | x in splits[i].TestIDs[1..] && x in deps && d in deps[x] ensures d in splits[i].TestIDs[1..] {
        SplitIsClosed(splits[i], targets[i], group, deps, x, d);
      }
    }
  }

  /** Submits to the target n: the tests of its instance run under any schedule the
      runner allows, until it is done.  The score depends on how the tests would end and
      not on the schedule, stays within the points available, and is shared out in
      full among the targets when submitting to a metatarget, each part within the
      points of its target. */
  method Submit(env: map<string, Target>, n: string, buildTest: string, group: map<string, Test>, keys: set<string>,
                fates: map<string, Fate>, c: R.Config, labels: seq<R.Label>,
                ghost commands: set<Command>, ghost deps: Edges, ghost requested: set<string>)
    returns (sub: Submission, splits: seq<Submission>)
    requires KeyedByName(env) && Linked(env) && n in env
    requires IsInstanceOf(group, commands, AllTargets(env[n]), deps, requested)
    requires Within(group, commands) && Prepared(group, keys, fates, commands)
    requires c.deps == Groups.Restrict(deps, group.Keys) && Foretold(c, SheetOf(group, fates))
      && R.IsComplete(c, labels)
    modifies group.Values, commands
    ensures sub.PointsAvailable == SubmissionPoints(env[n])
    ensures forall r :: R.IsVerdict(c, r) ==> sub.Score == ScoreOf(old(SheetOf(group, fates)), r)
    ensures R.IsVerdict(c, R.After(c, labels).value.results)
    ensures sub.Status == Aborted <==> SomeAborts(old(SheetOf(group, fates)), R.After(c, labels).value.results)
    ensures sub.Status == Aborted ==> sub.Score == 0
    ensures forall i :: 0 <= i < |splits| ==>
      splits[i].Status == sub.Status && (sub.Status == Aborted ==> splits[i].Score == 0)
    ensures MetaIsFlagged(env[n]) ==> sub.Score <= sub.PointsAvailable
    ensures var marks, specs := old(MarksOf(group)), old(SpecsOf(group, commands));
      HasCommands(marks, specs) ==> sub.Score <= SumOver(group.Keys, Potential(marks, specs))
    ensures sub.IsMetaTarget == (env[n].IsMetaTarget || Upgraded(env[n]))
    ensures |splits| == if sub.IsMetaTarget then |AllTargets(env[n])| else 0
    ensures forall i :: 0 <= i < |splits| ==> IsSplit(splits[i], AllTargets(env[n])[i], group)
    ensures sub.IsMetaTarget ==> Names(splits) == RunningNames(env, n)
    ensures Required(group) == old(Required(group))
    ensures forall i :: 0 <= i < |splits| ==> ListsDependencies(splits[i], deps)
    ensures sub.IsMetaTarget ==> TotalScore(splits) == sub.Score
    ensures forall i :: 0 <= i < |splits| ==> splits[i].Score <= splits[i].PointsAvailable
  {
    hide *;
    ghost var sheet := SheetOf(group, fates);
    InstanceIsConsistent(group, commands, AllTargets(env[n]), deps, requested);
    SheetOfGroup(group, fates);
    ValidForRunner(c, sheet, labels);
    SubmissionIsSound(env, n, group, commands, deps, requested, sheet);
    SheetDescribes(group, keys, fates, commands);
    InstanceIsBounded(group, keys, fates, commands, AllTargets(env[n]), deps, requested);
    InstanceNeedsAreClosed(group, commands, AllTargets(env[n]), deps, requested);
    ScoreIsPossible(group, keys, fates, commands);
    sub := new Submission(env[n], buildTest);
    var reports := Execute(group, keys, fates, c, labels, commands, sheet);
    ghost var names;
    splits, names := sub.RunTests(group, reports);
    RunIsWorth(c, labels, sheet, reports);
    SplitsListDependencies(splits, AllTargets(env[n]), group, deps);
    if sub.IsMetaTarget {
      SplitsAreNamed(env, n, splits, group);
    }
    ScoredTogether(splits, names, reports, sub.Status);
    if sub.IsMetaTarget {
      SplitsTotal(splits, names, reports, sub.Status);
      SplitsFit(splits, AllTargets(env[n]), group, reports, sub.Status);
    }
  }
}
