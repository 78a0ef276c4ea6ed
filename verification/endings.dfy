/** How a whole test can end: when it is correct, what it can earn, and when a command
    that never ran costs it points. */
module Endings {
  import opened Wrappers
  import opened Grading
  import opened Results
  import opened TestRun
  import opened Assignment
  import T = Templates

  /** A command after which the run may go on: it may neither panic nor time out. */
  predicate Passable(c: Spec) {
    c.panic == No && c.timesOut == No
  }

  // ----- When a test ends correct -----

  /** The command was sent, if it had to be. */
  predicate WasSent(o: Observation, first: bool) {
    first || (!o.sendFails && !o.enableFails)
  }

  /** The prompt came, the statistics going on until then. */
  predicate PromptCame(o: Observation) {
    o.expectError == NoError && o.matched && o.statError != MonitorError && o.statActive
  }

  /** The prompt came, but the statistics had ended before, and without an error. */
  predicate QuietAtPrompt(o: Observation) {
    o.expectError == NoError && o.matched && o.statError == NoStatError && !o.statActive
  }

  /** The simulator went away at the command, which its template allows for. */
  predicate WentAsAllowed(c: Spec, o: Observation) {
    && o.expectError != TimeoutError
    && (o.expectError == EofError || !o.matched || o.statError == MonitorError)
    && ((c.panic != No && o.statError != MonitorError) || (c.timesOut != No && o.timedOut))
  }

  /** The run went past command i and found it correct. */
  ghost predicate Passed(s: GradedScript, i: nat)
    requires i < |s.specs|
  {
    WasSent(s.obs[i], i == 0) && PromptCame(s.obs[i]) && Passable(s.specs[i]) && s.grades[i].atPrompt.0
  }

  /** The run ends at command k with nothing wrong there: it is the last one, or the
      statistics had ended, or it was correct and could have ended the kernel. */
  ghost predicate EndsWell(s: GradedScript, k: nat)
    requires k < |s.specs|
  {
    var c, o, g := s.specs[k], s.obs[k], s.grades[k];
    && WasSent(o, k == 0)
    && (|| k == |s.specs| - 1
        || QuietAtPrompt(o)
        || (PromptCame(o) && !Passable(c) && g.atPrompt.0)
        || (WentAsAllowed(c, o) && g.atShutdown.0))
  }

  ghost predicate GoesWell(s: GradedScript, k: nat)
    requires k <= |s.specs|
    decreases |s.specs| - k
  {
    k < |s.specs| && (EndsWell(s, k) || (Passed(s, k) && GoesWell(s, k + 1)))
  }

  lemma TurnGoesWell(c: Spec, o: Observation, g: Grade, first: bool, last: bool, scoring: Scoring, earned: nat)
    ensures var t := TakeTurn(c, o, g, first, last, scoring, true, earned);
      && (t.goOn && t.allCorrect <==> !last && WasSent(o, first) && PromptCame(o) && Passable(c) && g.atPrompt.0)
      && (!t.goOn && !t.failed && t.allCorrect <==>
            WasSent(o, first)
            && (last || QuietAtPrompt(o) || (PromptCame(o) && !Passable(c) && g.atPrompt.0)
                || (WentAsAllowed(c, o) && g.atShutdown.0)))
  {
  }

  lemma {:induction false} WrongStaysWrong(s: GradedScript, scoring: Scoring, k: nat, earned: nat)
    requires k < |s.specs|
    ensures !Simulate(s, scoring, k, false, earned).allCorrect
    decreases |s.specs| - k
  {
    var t := TakeTurn(s.specs[k], s.obs[k], s.grades[k], k == 0, k == |s.specs| - 1, scoring, false, earned);
    if t.goOn {
      WrongStaysWrong(s, scoring, k + 1, t.earned);
    }
  }

  lemma {:induction false} LoopGoesWell(s: GradedScript, scoring: Scoring, k: nat, earned: nat)
    requires k < |s.specs|
    ensures var p := Simulate(s, scoring, k, true, earned); !p.failed && p.allCorrect <==> GoesWell(s, k)
    decreases |s.specs| - k
  {
    hide TakeTurn, WasSent, PromptCame, QuietAtPrompt, WentAsAllowed, Passable;
    TurnGoesWell(s.specs[k], s.obs[k], s.grades[k], k == 0, k == |s.specs| - 1, scoring, earned);
    var t := TakeTurn(s.specs[k], s.obs[k], s.grades[k], k == 0, k == |s.specs| - 1, scoring, true, earned);
    if t.goOn {
      if t.allCorrect {
        LoopGoesWell(s, scoring, k + 1, t.earned);
      } else {
        WrongStaysWrong(s, scoring, k + 1, t.earned);
      }
    }
  }

  lemma {:induction false} GoesWellTo(s: GradedScript, k: nat)
    requires k <= |s.specs|
    ensures GoesWell(s, k) <==>
      exists e :: k <= e < |s.specs| && EndsWell(s, e) && forall i :: k <= i < e ==> Passed(s, i)
    decreases |s.specs| - k
  {
    hide EndsWell, Passed;
    if k < |s.specs| {
      GoesWellTo(s, k + 1);
    }
  }

  /** When a test ends correct, whatever its scoring: at some command it ends with
      nothing wrong there, having gone past all commands before and found each of them
      correct.  Commands after that one need not have run at all. */
  lemma TestIsCorrectWhen(s: GradedScript, scoring: Scoring, available: nat, penalty: nat)
    requires |s.specs| > 0
    ensures EndingOf(s, scoring, available, penalty).result == Correct <==>
      exists e :: 0 <= e < |s.specs| && EndsWell(s, e) && forall i :: 0 <= i < e ==> Passed(s, i)
  {
    hide EndsWell, Passed, Simulate, Gross, Lost;
    LoopGoesWell(s, scoring, 0, 0);
    GoesWellTo(s, 0);
  }

  /** So a test whose statistics end without an error at its first prompt is correct with
      full points, although only that command has run. */
  lemma QuietAtBootIsCorrect(s: GradedScript, available: nat, penalty: nat)
    requires |s.specs| > 1 && s.specs[0].id != "khu" && QuietAtPrompt(s.obs[0])
    ensures Simulate(s, Entire, 0, true, 0).stop == 0
    ensures EndingOf(s, Entire, available, penalty) == Ending(Correct, available, 0)
  {
    var p := Simulate(s, Entire, 0, true, 0);
    assert p == Progress(true, 0, false, 0, 0);
    assert |Seen(s, p)| == 1;
  }

  // ----- When a test is aborted -----

  /** The run went past command i, right or wrong; under entire scoring it had to be
      right. */
  ghost predicate PassedOver(s: GradedScript, scoring: Scoring, i: nat)
    requires i < |s.specs|
  {
    && WasSent(s.obs[i], i == 0) && PromptCame(s.obs[i]) && Passable(s.specs[i])
    && (scoring == Entire ==> s.grades[i].atPrompt.0)
  }

  /** Waiting for the prompt failed, and not by running out of time, reaching the end of
      the output, matching nothing or being stopped by the monitor. */
  predicate WaitFailed(o: Observation) {
    o.expectError == OtherError && o.matched && o.statError != MonitorError
  }

  /** The prompt came, but the statistics had ended with an error that is not the
      monitor's. */
  predicate StatsFailed(o: Observation) {
    o.expectError == NoError && o.matched && !o.statActive && o.statError == OtherStatError
  }

  /** The run breaks off at command k: the command was sent but statistics could not be
      turned on for it, or it has a prompt and waiting for that, or the statistics until
      then, failed. */
  predicate BreaksAt(s: GradedScript, k: nat)
    requires k < |s.specs|
  {
    var o := s.obs[k];
    || (k > 0 && !o.sendFails && o.enableFails)
    || (k < |s.specs| - 1 && WasSent(o, k == 0) && (WaitFailed(o) || StatsFailed(o)))
  }

  ghost predicate BreaksOff(s: GradedScript, scoring: Scoring, k: nat)
    requires k <= |s.specs|
    decreases |s.specs| - k
  {
    k < |s.specs| && (BreaksAt(s, k) || (PassedOver(s, scoring, k) && BreaksOff(s, scoring, k + 1)))
  }

  lemma TurnBreaks(c: Spec, o: Observation, g: Grade, first: bool, last: bool, scoring: Scoring,
                   allCorrect: bool, earned: nat)
    ensures var t := TakeTurn(c, o, g, first, last, scoring, allCorrect, earned);
      && (t.goOn <==>
            !last && WasSent(o, first) && PromptCame(o) && Passable(c) && (scoring == Entire ==> g.atPrompt.0))
      && (t.failed <==>
            || (!first && !o.sendFails && o.enableFails)
            || (!last && WasSent(o, first) && (WaitFailed(o) || StatsFailed(o))))
  {
  }

  lemma {:induction false} LoopBreaks(s: GradedScript, scoring: Scoring, k: nat, allCorrect: bool, earned: nat)
    requires k < |s.specs|
    ensures Simulate(s, scoring, k, allCorrect, earned).failed <==> BreaksOff(s, scoring, k)
    decreases |s.specs| - k
  {
    hide TakeTurn, WasSent, PromptCame, WaitFailed, StatsFailed, Passable;
    TurnBreaks(s.specs[k], s.obs[k], s.grades[k], k == 0, k == |s.specs| - 1, scoring, allCorrect, earned);
    BreakIsEnd(s, scoring, k);
    var t := TakeTurn(s.specs[k], s.obs[k], s.grades[k], k == 0, k == |s.specs| - 1, scoring, allCorrect, earned);
    if t.goOn {
      LoopBreaks(s, scoring, k + 1, t.allCorrect, t.earned);
    }
  }

  /** A run does not go past a command at which it breaks off, nor past the last. */
  lemma BreakIsEnd(s: GradedScript, scoring: Scoring, k: nat)
    requires k < |s.specs|
    ensures BreaksAt(s, k) ==> !PassedOver(s, scoring, k)
    ensures k == |s.specs| - 1 ==> !BreaksOff(s, scoring, k + 1)
  {
  }

  lemma {:induction false} BreaksOffTo(s: GradedScript, scoring: Scoring, k: nat)
    requires k <= |s.specs|
    ensures BreaksOff(s, scoring, k) <==>
      exists e :: k <= e < |s.specs| && BreaksAt(s, e) && forall i :: k <= i < e ==> PassedOver(s, scoring, i)
    decreases |s.specs| - k
  {
    hide BreaksAt, PassedOver;
    if k < |s.specs| {
      BreaksOffTo(s, scoring, k + 1);
    }
  }

  /** The run breaks off at some command, having gone past all before it. */
  ghost predicate Breaks(s: GradedScript, scoring: Scoring) {
    exists e :: 0 <= e < |s.specs| && BreaksAt(s, e) && forall i :: 0 <= i < e ==> PassedOver(s, scoring, i)
  }

  /** When a test that runs is aborted; a prompt that does not come in time, an unexpected
      shutdown and a command that cannot be sent are not among the reasons. */
  lemma TestAbortsWhen(s: GradedScript, scoring: Scoring, available: nat, penalty: nat)
    requires |s.specs| > 0
    ensures EndingOf(s, scoring, available, penalty).result == Abort <==> Breaks(s, scoring)
  {
    hide BreaksAt, PassedOver, Simulate, Gross, Lost;
    LoopBreaks(s, scoring, 0, true, 0);
    BreaksOffTo(s, scoring, 0);
  }

  /** So a test whose first prompt does not come in time is incorrect. */
  lemma TimeoutIsIncorrect(s: GradedScript, scoring: Scoring, available: nat, penalty: nat)
    requires |s.specs| > 1 && s.obs[0].expectError == TimeoutError
    ensures EndingOf(s, scoring, available, penalty).result == Incorrect
  {
    hide Gross, Lost;
    TestAbortsWhen(s, scoring, available, penalty);
    TestIsCorrectWhen(s, scoring, available, penalty);
    assert !PassedOver(s, scoring, 0) && !Passed(s, 0) && !EndsWell(s, 0) && !BreaksAt(s, 0);
  }

  // ----- Runs in which all goes well -----

  const KHU := OutputLine("khu: 7", true, "khu", None, Some(7))

  /** What a command should print, after a memory reading that is always the same. */
  function GoodOutput(c: Spec): seq<OutputLine> {
    [KHU] + seq(|c.expected|, i requires 0 <= i < |c.expected| =>
                  OutputLine(c.expected[i].text, true, c.expected[i].keyName, None, None))
  }

  predicate MustDie(c: Spec) {
    c.panic == Yes || c.timesOut == Yes
  }

  /** The command does all it should.  Where the run has to end it either ends as the
      template says, or else with the statistics over at the prompt. */
  function Good(c: Spec, judged: bool): Observation {
    Observation(false, false, if judged && MustDie(c) then EofError else NoError, true,
                judged || Passable(c), NoStatError, c.timesOut == Yes, GoodOutput(c))
  }

  ghost function GoodRun(keys: set<string>, specs: seq<Spec>, judged: bool): (s: GradedScript)
    ensures s.keys == keys && s.specs == specs && |s.obs| == |specs|
    ensures forall k :: 0 <= k < |specs| ==> s.obs[k] == Good(specs[k], judged)
  {
    Script(keys, specs, seq(|specs|, i requires 0 <= i < |specs| => Good(specs[i], judged)),
           seq(|specs|, i requires 0 <= i < |specs| => GradeOf(keys, specs[i], Good(specs[i], judged))))
  }

  lemma GoodIsFound(keys: set<string>, c: Spec)
    ensures Found(keys, c.expected, GoodOutput(c))
  {
    var at: seq<nat> := seq(|c.expected|, i requires 0 <= i < |c.expected| => i + 1);
    assert Places(keys, c.expected, GoodOutput(c), |c.expected|, |GoodOutput(c)|, at);
  }

  lemma GoodIsCorrect(s: GradedScript, k: nat, judged: bool)
    requires k < |s.specs| && s.obs[k] == Good(s.specs[k], judged)
    ensures !MustDie(s.specs[k]) ==> s.grades[k].atPrompt == (true, s.specs[k].points)
    ensures MustDie(s.specs[k]) ==> s.grades[k].atShutdown.0
  {
    hide GoodOutput, Found;
    GoodIsFound(s.keys, s.specs[k]);
    assert s.grades[k] == GradeOf(s.keys, s.specs[k], s.obs[k]);
  }

  /** The first command that a run cannot go past. */
  function FirstStop(specs: seq<Spec>, k: nat): (e: nat)
    requires k < |specs|
    ensures k <= e < |specs|
    decreases |specs| - k
  {
    if k == |specs| - 1 || !Passable(specs[k]) then k else FirstStop(specs, k + 1)
  }

  /** The points of the commands from k on that a run can go past. */
  function Passing(specs: seq<Spec>, k: nat): nat
    requires k < |specs|
    decreases |specs| - k
  {
    if k == |specs| - 1 || !Passable(specs[k]) then 0 else specs[k].points + Passing(specs, k + 1)
  }

  lemma {:induction false} GoodRunGoes(s: GradedScript, judged: bool, scoring: Scoring, k: nat, earned: nat)
    requires k < |s.specs| && forall i :: 0 <= i < |s.specs| ==> s.obs[i] == Good(s.specs[i], judged)
    ensures var e := FirstStop(s.specs, k);
      Simulate(s, scoring, k, true, earned) ==
        Progress(true, earned + if scoring == Partial then Passing(s.specs, k) else 0, false, e,
                 if judged && e < |s.specs| - 1 then e + 1 else e)
    decreases |s.specs| - k
  {
    hide GradeOf, GoodOutput;
    GoodIsCorrect(s, k, judged);
    var c, o := s.specs[k], s.obs[k];
    if k < |s.specs| - 1 && Passable(c) {
      GoodRunGoes(s, judged, scoring, k + 1, earned + if scoring == Partial then c.points else 0);
    }
  }

  /** Nothing that ran looks like a leak. */
  lemma GoodIsNotLeaky(s: GradedScript, judged: bool, p: Progress)
    requires forall i :: 0 <= i < |s.specs| ==> s.obs[i] == Good(s.specs[i], judged)
    requires p.stop < |s.specs|
    ensures !Leaky(s.keys, Ran(s, p))
  {
    forall i | 0 <= i <= p.stop ensures Reading(s.keys, Ran(s, p)[i].output) == Some(7) {
      assert GoodOutput(s.specs[i])[0] == KHU;
    }
  }

  // ----- The most a test can earn -----

  /** The most points a run of these commands can end with. */
  function Attainable(specs: seq<Spec>, scoring: Scoring, points: nat): nat
    requires |specs| > 0
  {
    match scoring
    case Entire => points
    case Partial => Passing(specs, 0)
    case Ungraded => 0
  }

  ghost predicate IsFor(s: GradedScript, keys: set<string>, specs: seq<Spec>) {
    s.keys == keys && s.specs == specs
  }

  lemma {:induction false} TallyIsPassing(s: GradedScript, k: nat, stop: nat)
    requires k <= stop < |s.specs| && forall i :: k <= i < stop ==> Passable(s.specs[i])
    ensures Tally(s.specs, s.grades, k, stop) <= Passing(s.specs, k)
    decreases stop - k
  {
    if k < stop {
      TallyIsPassing(s, k + 1, stop);
    }
  }

  lemma EarnsAtMostAttainable(s: GradedScript, scoring: Scoring, available: nat, penalty: nat)
    requires |s.specs| > 0
    ensures EndingOf(s, scoring, available, penalty).earned <= Attainable(s.specs, scoring, available)
  {
    hide Simulate, Leaky, Seen, Tally, Passing;
    LoopAccounts(s, scoring, 0, true, 0);
    TallyIsPassing(s, 0, Simulate(s, scoring, 0, true, 0).stop);
  }

  lemma GoodRunEarnsAll(keys: set<string>, specs: seq<Spec>, scoring: Scoring, available: nat, penalty: nat)
    requires |specs| > 0
    ensures EndingOf(GoodRun(keys, specs, false), scoring, available, penalty)
         == Ending(Correct, Attainable(specs, scoring, available), 0)
  {
    hide Simulate, Leaky, Passing, Good;
    var s := GoodRun(keys, specs, false);
    GoodRunGoes(s, false, scoring, 0, 0);
    var p := Simulate(s, scoring, 0, true, 0);
    GoodIsNotLeaky(s, false, p);
    assert Seen(s, p) == Ran(s, p);
  }

  /** The bound is exact: every run stays within some number of points exactly when the
      attainable points do. */
  lemma AttainableIsMaximum(keys: set<string>, specs: seq<Spec>, scoring: Scoring, available: nat, penalty: nat,
                            bound: nat)
    requires |specs| > 0
    ensures (forall s: GradedScript :: IsFor(s, keys, specs) ==>
      EndingOf(s, scoring, available, penalty).earned <= bound)
       <==> Attainable(specs, scoring, available) <= bound
  {
    hide Attainable, EndingOf;
    GoodRunEarnsAll(keys, specs, scoring, available, penalty);
    assert IsFor(GoodRun(keys, specs, false), keys, specs);
    forall s: GradedScript | IsFor(s, keys, specs)
      ensures EndingOf(s, scoring, available, penalty).earned <= Attainable(specs, scoring, available)
    {
      EarnsAtMostAttainable(s, scoring, available, penalty);
    }
  }

  /** A run can go past command i, if it gets there, and past all before it. */
  ghost predicate CanPass(specs: seq<Spec>, i: nat)
    requires i < |specs|
  {
    i < |specs| - 1 && forall j :: 0 <= j <= i ==> Passable(specs[j])
  }

  lemma {:induction false} PassingIsAll(specs: seq<Spec>, k: nat)
    requires k < |specs| && forall j :: 0 <= j < k ==> Passable(specs[j])
    ensures Passing(specs, k) <= PointsFrom(specs, k)
    ensures Passing(specs, k) == PointsFrom(specs, k) <==>
      forall i :: k <= i < |specs| && specs[i].points > 0 ==> CanPass(specs, i)
    decreases |specs| - k
  {
    if k == |specs| - 1 || !Passable(specs[k]) {
      PointsAreNone(specs, k);
    } else {
      PassingIsAll(specs, k + 1);
      assert CanPass(specs, k);
    }
  }

  lemma {:induction false} PointsAreNone(specs: seq<Spec>, k: nat)
    requires k <= |specs|
    ensures PointsFrom(specs, k) == 0 <==> forall i :: k <= i < |specs| ==> specs[i].points == 0
    decreases |specs| - k
  {
    if k < |specs| {
      PointsAreNone(specs, k + 1);
    }
  }

  /** A partially scored test can earn all of its points exactly when a run can go past
      every command that has any. */
  lemma AllAttainableWhen(specs: seq<Spec>, points: nat)
    requires |specs| > 0 && points == PointsFrom(specs, 0)
    ensures Attainable(specs, Partial, points) <= points
    ensures Attainable(specs, Partial, points) == points <==>
      forall i :: 0 <= i < |specs| && specs[i].points > 0 ==> CanPass(specs, i)
  {
    PassingIsAll(specs, 0);
  }

  /** Target files may put points where no run can earn them: here all five are for the
      command that shuts the kernel down, which is accepted, and every run ends with
      none. */
  lemma PointsOnShutdown(s: GradedScript, penalty: nat)
    requires |s.specs| == 2 && s.specs[0].id == "boot" && s.specs[1].id == "q"
    requires s.specs[0].points == 0 && s.specs[1].points == 5
    ensures Exact(["boot", "q"], TargetTest("t", true, 5, 0, [TargetCommand("q", 0, 5, [])]))
    ensures PointsFrom(s.specs, 0) == 5 && EndingOf(s, Partial, 5, penalty).earned == 0
  {
    hide EndingOf, Exact;
    ShutdownPointsAreExact();
    EarnsAtMostAttainable(s, Partial, 5, penalty);
    assert Passing(s.specs, 1) == 0;
    assert PointsFrom(s.specs, 2) == 0 && PointsFrom(s.specs, 1) == 5;
  }

  lemma ShutdownPointsAreExact()
    ensures Exact(["boot", "q"], TargetTest("t", true, 5, 0, [TargetCommand("q", 0, 5, [])]))
  {
    hide Covered;
    var ids, entries := ["boot", "q"], [TargetCommand("q", 0, 5, [])];
    QuitIsCovered();
    var plan := Plan(ids, entries);
    assert plan == [[1]];
    forall p | 0 <= p < |ids| && Mentioned(entries, ids[p]) ensures IsPlanned(plan, p) {
      assert p == 1 && p in plan[0];
    }
    assert Worth(plan, entries, 0) == 0 && |plan[0]| == 1;
    assert Worth(plan, entries, 1) == 5;
  }

  lemma QuitIsCovered()
    ensures Covered(["boot", "q"], TargetCommand("q", 0, 5, [])) == [1]
  {
    assert ["boot", "q"][..1] == ["boot"] && ["boot"][..0] == [];
    assert Instances(["boot"], "q") == Instances([], "q") + [];
    assert Instances(["boot", "q"], "q") == [1];
  }

  // ----- When a command that never ran costs points -----

  /** The run loses points though no command that ran shows a leak. */
  ghost predicate Overcharged(s: GradedScript, scoring: Scoring, available: nat, penalty: nat)
    requires |s.specs| > 0
  {
    var p := Simulate(s, scoring, 0, true, 0);
    p.stop < |s.specs| && !Leaky(s.keys, Ran(s, p)) && EndingOf(s, scoring, available, penalty).deducted > 0
  }

  /** The first command that a run cannot go past is not the last and a khu command
      follows it, and the run can have earned points that a leak would cost. */
  predicate CanOvercharge(specs: seq<Spec>, scoring: Scoring, available: nat, penalty: nat)
    requires |specs| > 0
  {
    var e := FirstStop(specs, 0);
    && e + 1 < |specs| && specs[e + 1].id == "khu"
    && available > 0 && penalty > 0 && Attainable(specs, scoring, available) > 0
  }

  lemma {:induction false} MovesOnAtStop(s: GradedScript, scoring: Scoring, k: nat, allCorrect: bool, earned: nat)
    requires k < |s.specs|
    ensures var p := Simulate(s, scoring, k, allCorrect, earned);
      && k <= p.stop < |s.specs|
      && (p.counter == p.stop + 1 && (p.allCorrect || scoring != Entire) ==>
            p.stop + 1 < |s.specs| && p.stop == FirstStop(s.specs, k))
    decreases |s.specs| - k
  {
    hide GradeOf;
    var t := TakeTurn(s.specs[k], s.obs[k], s.grades[k], k == 0, k == |s.specs| - 1, scoring, allCorrect, earned);
    if t.goOn {
      MovesOnAtStop(s, scoring, k + 1, t.allCorrect, t.earned);
    }
  }

  lemma OverchargedMeans(s: GradedScript, scoring: Scoring, available: nat, penalty: nat)
    requires |s.specs| > 0 && Overcharged(s, scoring, available, penalty)
    ensures CanOvercharge(s.specs, scoring, available, penalty)
  {
    hide Simulate, Leaky, EndsBeforeNext, FirstStop, Seen, Ran, Passing;
    var p := Simulate(s, scoring, 0, true, 0);
    LeakCheckSeesNext(s, scoring);
    CounterMovesOn(s, scoring, 0, true, 0);
    MovesOnAtStop(s, scoring, 0, true, 0);
    LoopAccounts(s, scoring, 0, true, 0);
    TallyIsPassing(s, 0, p.stop);
  }

  /** Whether a command that never ran can cost a test points is seen from its commands:
      a khu command directly follows the first one that may panic or time out, and there
      are points to lose by then. */
  lemma UnrunKhuCostsWhen(keys: set<string>, specs: seq<Spec>, scoring: Scoring, available: nat, penalty: nat)
    requires |specs| > 0
    ensures (exists s: GradedScript :: IsFor(s, keys, specs) && Overcharged(s, scoring, available, penalty))
       <==> CanOvercharge(specs, scoring, available, penalty)
  {
    hide Overcharged, CanOvercharge;
    if CanOvercharge(specs, scoring, available, penalty) {
      GoodRunIsOvercharged(keys, specs, scoring, available, penalty);
      assert IsFor(GoodRun(keys, specs, true), keys, specs);
    }
    if s: GradedScript :| IsFor(s, keys, specs) && Overcharged(s, scoring, available, penalty) {
      OverchargedMeans(s, scoring, available, penalty);
    }
  }

  lemma GoodRunIsOvercharged(keys: set<string>, specs: seq<Spec>, scoring: Scoring, available: nat, penalty: nat)
    requires |specs| > 0 && CanOvercharge(specs, scoring, available, penalty)
    ensures Overcharged(GoodRun(keys, specs, true), scoring, available, penalty)
  {
    hide Simulate, Leaky, Passing, Good, EndsBeforeNext, Seen, Ran;
    var s := GoodRun(keys, specs, true);
    GoodRunGoes(s, true, scoring, 0, 0);
    GoodIsNotLeaky(s, true, Simulate(s, scoring, 0, true, 0));
    CounterMovesOn(s, scoring, 0, true, 0);
    LeakCheckSeesNext(s, scoring);
  }
}
