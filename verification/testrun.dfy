/** Running one test: the command loop against a simulator whose behaviour is
    given, then the final result, points and memory-leak deduction. */
module TestRun {
  import opened Wrappers
  import opened Grading
  import opened Results

  datatype Scoring = Entire | Partial | Ungraded

  datatype ExpectError = NoError | TimeoutError | EofError | OtherError

  datatype StatError = NoStatError | MonitorError | OtherStatError

  /** What happens while a command runs: whether it could be sent, whether turning
      statistics on failed, what waiting for the prompt returned, the state of the
      statistics afterwards, and what the command printed. */
  datatype Observation = Observation(
    sendFails: bool, enableFails: bool,
    expectError: ExpectError, matched: bool,
    statActive: bool, statError: StatError,
    timedOut: bool, output: seq<OutputLine>)

  /** Where the loop stands: stop is the command it ends on, counter the command
      counter it leaves behind. */
  datatype Progress = Progress(allCorrect: bool, earned: nat, failed: bool, stop: nat, counter: nat)

  /** The simulator went away before the prompt. */
  predicate ShutDown(o: Observation) {
    o.expectError == EofError || !o.matched || o.statError == MonitorError
  }

  /** ... and the command's template allows for that. */
  predicate ShutDownExpected(c: Spec, o: Observation) {
    (o.statError != MonitorError && c.panic != No) || (c.timesOut != No && o.timedOut)
  }

  /** Why the loop ends at a command before evaluating it, if it does. */
  datatype Early = GoOn(eof: bool) | Wrong | Broken(failed: bool)

  function Precheck(c: Spec, o: Observation, first: bool): Early {
    if !first && o.sendFails then Wrong
    else if !first && o.enableFails then Broken(true)
    else GoOn(false)
  }

  function AfterPrompt(c: Spec, o: Observation): Early {
    if o.expectError == TimeoutError then Wrong
    else if ShutDown(o) then if ShutDownExpected(c, o) then GoOn(true) else Wrong
    else if o.expectError != NoError then Broken(true)
    else if !o.statActive then Broken(o.statError != NoStatError)
    else GoOn(false)
  }

  /** How a command would be judged at its prompt and after a shutdown. */
  datatype Grade = Grade(atPrompt: (bool, nat), atShutdown: (bool, nat))

  ghost function GradeOf(keys: set<string>, c: Spec, o: Observation): Grade {
    Grade(Verdict(keys, c, o.output, o.timedOut, false), Verdict(keys, c, o.output, o.timedOut, true))
  }

  /** A whole script for a run: the known keys, the commands, what happens while
      each one runs, and how that grades it. */
  datatype Script = Script(keys: set<string>, specs: seq<Spec>, obs: seq<Observation>, grades: seq<Grade>) {
    ghost predicate Graded() {
      && |specs| == |obs| == |grades|
      && forall k {:trigger GradeOf(keys, specs[k], obs[k])} :: 0 <= k < |grades| ==>
        grades[k] == GradeOf(keys, specs[k], obs[k])
    }
  }

  type GradedScript = s: Script | s.Graded() ghost witness Script({}, [], [], [])

  /** What one turn of the loop makes of the test: whether the loop goes on,
      whether the run has failed with an error, the flags, and whether the command
      counter moved on. */
  datatype Turn = Turn(goOn: bool, failed: bool, allCorrect: bool, earned: nat, advanced: bool)

  function TakeTurn(c: Spec, o: Observation, g: Grade, first: bool, last: bool, scoring: Scoring,
                    allCorrect: bool, earned: nat): (t: Turn)
    ensures (t.goOn ==> t.advanced) && (t.advanced ==> !last)
  {
    match Precheck(c, o, first)
    case Wrong => Turn(false, false, false, earned, false)
    case Broken(failed) => Turn(false, failed, allCorrect, earned, false)
    case GoOn(_) =>
      if last then Turn(false, false, allCorrect, earned, false)
      else match AfterPrompt(c, o)
           case Wrong => Turn(false, false, false, earned, false)
           case Broken(failed) => Turn(false, failed, allCorrect, earned, false)
           case GoOn(eof) =>
             var (correct, points) := if eof then g.atShutdown else g.atPrompt;
             var ended := eof || c.panic != No || c.timesOut != No || (!correct && scoring == Entire);
             Turn(!ended, false, allCorrect && correct,
                  if !ended && correct && scoring == Partial then earned + points else earned, true)
  }

  /** The command loop from command k on. */
  function Simulate(s: GradedScript, scoring: Scoring, k: nat, allCorrect: bool, earned: nat): Progress
    requires k < |s.specs|
    decreases |s.specs| - k
  {
    var t := TakeTurn(s.specs[k], s.obs[k], s.grades[k], k == 0, k == |s.specs| - 1, scoring, allCorrect, earned);
    if t.goOn then Simulate(s, scoring, k + 1, t.allCorrect, t.earned)
    else Progress(t.allCorrect, t.earned, t.failed, k, if t.advanced then k + 1 else k)
  }

  // ----- Memory leaks -----

  /** A command as the leak check sees it. */
  datatype Item = Item(id: string, output: seq<OutputLine>)

  predicate KhuLine(keys: set<string>, line: OutputLine) {
    ("khu" !in keys || (line.trusted && line.keyName == "khu")) && line.khu.Some?
  }

  /** The memory use a khu command reports: that of its first trusted khu line. */
  function Reading(keys: set<string>, output: seq<OutputLine>): Option<nat> {
    if output == [] then None
    else if KhuLine(keys, output[0]) then output[0].khu
    else Reading(keys, output[1..])
  }

  /** Some khu command gave no reading, or a reading differs from an earlier
      nonzero one. */
  ghost predicate Leaky(keys: set<string>, items: seq<Item>) {
    || (exists j :: 0 <= j < |items| && items[j].id == "khu" && Reading(keys, items[j].output) == None)
    || (exists i, j :: 0 <= i < j < |items| && Disagree(keys, items[i], items[j]))
  }

  ghost predicate Disagree(keys: set<string>, a: Item, b: Item) {
    && a.id == "khu" && b.id == "khu"
    && match (Reading(keys, a.output), Reading(keys, b.output))
       case (Some(m), Some(n)) => m != 0 && m != n
       case _ => false
  }

  function Min(a: nat, b: nat): nat {
    if a < b then a else b
  }

  /** The line tells the memory use, signed by khu if its key is known. */
  ghost predicate FirstReadingAt(keys: set<string>, output: seq<OutputLine>, k: nat)
    requires k < |output|
  {
    && output[k].khu.Some? && ("khu" in keys ==> output[k].trusted && output[k].keyName == "khu")
    && forall j :: 0 <= j < k && output[j].khu.Some? ==>
      "khu" in keys && !(output[j].trusted && output[j].keyName == "khu")
  }

  /** The reading is that of the first such line; without one there is none. */
  lemma {:induction false} ReadingIsFirst(keys: set<string>, output: seq<OutputLine>)
    ensures forall k :: 0 <= k < |output| && FirstReadingAt(keys, output, k) ==>
      Reading(keys, output) == output[k].khu
    ensures (forall k :: 0 <= k < |output| ==> !FirstReadingAt(keys, output, k)) ==> Reading(keys, output) == None
  {
    if output != [] {
      ReadingIsFirst(keys, output[1..]);
      if KhuLine(keys, output[0]) {
        assert FirstReadingAt(keys, output, 0);
      } else {
        forall k | 0 <= k < |output| && FirstReadingAt(keys, output, k)
          ensures k > 0 && FirstReadingAt(keys, output[1..], k - 1)
        {
          assert forall j :: 0 <= j < k - 1 ==> output[1..][j] == output[j + 1];
        }
        forall k | 0 <= k < |output[1..]| && FirstReadingAt(keys, output[1..], k)
          ensures FirstReadingAt(keys, output, k + 1)
        {
          assert forall j :: 0 < j < k + 1 ==> output[j] == output[1..][j - 1];
        }
      }
    }
  }

  /** The points a leak costs. */
  function Deduction(available: nat, earned: nat, penalty: nat): nat {
    if available > 0 then Min(earned, penalty) else 0
  }

  /** The commands the leak check looks at: those up to the command counter, which
      may include one that never ran. */
  function Seen(s: GradedScript, p: Progress): seq<Item> {
    seq(Min(p.counter + 1, |s.specs|), i requires 0 <= i < |s.specs| =>
      Item(s.specs[i].id, if i <= p.stop then s.obs[i].output else []))
  }

  /** The points before any deduction. */
  function Gross(p: Progress, scoring: Scoring, available: nat): nat {
    if !p.failed && p.allCorrect && scoring == Entire then available else p.earned
  }

  /** The points a leak takes away at the end of the run. */
  ghost function Lost(s: GradedScript, p: Progress, scoring: Scoring, available: nat, penalty: nat): nat {
    if !p.failed && Leaky(s.keys, Seen(s, p)) then Deduction(available, Gross(p, scoring, available), penalty) else 0
  }

  /** How a run of the test ends: its result, its points and what a leak took off. */
  datatype Ending = Ending(result: TestResult, earned: nat, deducted: nat)

  ghost function EndingOf(s: GradedScript, scoring: Scoring, available: nat, penalty: nat): (e: Ending)
    requires |s.specs| > 0
    ensures Ended(e.result)
  {
    var p := Simulate(s, scoring, 0, true, 0);
    var lost := Lost(s, p, scoring, available, penalty);
    Ending(if p.failed then Abort else if p.allCorrect then Correct else Incorrect,
           Gross(p, scoring, available) - lost, lost)
  }

  ghost predicate Distinct(commands: seq<Command>) {
    forall i, j :: 0 <= i < j < |commands| ==> commands[i] != commands[j]
  }

  /** What the commands bring to their evaluation. */
  ghost function Views(commands: seq<Command>): seq<Spec>
    reads commands
  {
    seq(|commands|, i requires 0 <= i < |commands| reads commands => commands[i].View())
  }

  ghost function Outputs(commands: seq<Command>): seq<seq<OutputLine>>
    reads commands
  {
    seq(|commands|, i requires 0 <= i < |commands| reads commands => commands[i].Output)
  }

  /** Exactly the first n commands have printed, each what was observed of it. */
  function Printed(obs: seq<Observation>, n: nat): seq<seq<OutputLine>> {
    seq(|obs|, i requires 0 <= i < |obs| => if i < n then obs[i].output else [])
  }

  ghost function ItemsOf(commands: seq<Command>): seq<Item>
    reads commands
  {
    seq(|commands|, i requires 0 <= i < |commands| reads commands => Item(commands[i].Id, commands[i].Output))
  }

  lemma NothingPrinted(commands: seq<Command>, obs: seq<Observation>)
    requires |obs| == |commands| && forall k :: 0 <= k < |commands| ==> commands[k].Output == []
    ensures Outputs(commands) == Printed(obs, 0)
  {
  }

  lemma PrintedMeansSeen(commands: seq<Command>, s: GradedScript, p: Progress)
    requires Views(commands) == s.specs && Outputs(commands) == Printed(s.obs, p.stop + 1) && p.counter < |commands|
    ensures ItemsOf(commands[..p.counter + 1]) == Seen(s, p)
  {
    forall i | 0 <= i < p.counter + 1
      ensures ItemsOf(commands[..p.counter + 1])[i] == Seen(s, p)[i]
    {
      assert Views(commands)[i] == s.specs[i] && Outputs(commands)[i] == Printed(s.obs, p.stop + 1)[i];
    }
  }

  class Test {
    var Commands: seq<Command>
    var PointsAvailable: nat
    var PointsEarned: nat
    var ScoringMethod: Scoring
    var MemLeakPoints: nat
    var MemLeakDeducted: nat
    var MemLeakChecked: bool
    var MemLeakBytes: int
    var Result: TestResult
    /** The target this test is graded for, "" for a mere dependency. */
    var TargetName: string
    /** The targets that need this test. */
    var requiredBy: set<string>
    var allCorrect: bool
    var commandCounter: nat

    constructor (commands: seq<Command>)
      ensures Commands == commands && PointsAvailable == PointsEarned == MemLeakPoints == MemLeakDeducted == 0
      ensures ScoringMethod == Ungraded && Result == NoResult && TargetName == "" && requiredBy == {}
    {
      TargetName, requiredBy := "", {};
      Commands, ScoringMethod, Result := commands, Ungraded, NoResult;
      PointsAvailable, PointsEarned, MemLeakPoints, MemLeakDeducted := 0, 0, 0, 0;
      MemLeakChecked, MemLeakBytes, allCorrect, commandCounter := false, 0, false, 0;
    }

    method DeductMemLeakPoints()
      modifies this`PointsEarned, this`MemLeakDeducted
      ensures PointsEarned == old(PointsEarned) - Deduction(PointsAvailable, old(PointsEarned), MemLeakPoints)
      ensures MemLeakDeducted == if PointsAvailable > 0 && MemLeakPoints > 0
                                 then Deduction(PointsAvailable, old(PointsEarned), MemLeakPoints)
                                 else old(MemLeakDeducted)
    {
      if PointsAvailable > 0 && MemLeakPoints > 0 {
        if PointsEarned < MemLeakPoints {
          MemLeakDeducted := PointsEarned;
          PointsEarned := 0;
        } else {
          PointsEarned := PointsEarned - MemLeakPoints;
          MemLeakDeducted := MemLeakPoints;
        }
      }
    }

    /** Deducts at most once, and exactly when the khu commands give a leak away. */
    method EvaluateMemLeaks(keys: set<string>)
      modifies this`PointsEarned, this`MemLeakDeducted, this`MemLeakChecked, this`MemLeakBytes
      ensures PointsEarned == old(PointsEarned) -
        if Leaky(keys, ItemsOf(Commands)) then Deduction(PointsAvailable, old(PointsEarned), MemLeakPoints) else 0
      ensures MemLeakDeducted == if Leaky(keys, ItemsOf(Commands)) && PointsAvailable > 0 && MemLeakPoints > 0
                                 then Deduction(PointsAvailable, old(PointsEarned), MemLeakPoints)
                                 else old(MemLeakDeducted)
      ensures MemLeakChecked == (old(MemLeakChecked) || HasKhu(ItemsOf(Commands), |Commands|))
      ensures BytesRecorded(keys, ItemsOf(Commands), old(MemLeakBytes), MemLeakBytes)
    {
      hide Leaky, Steady, BytesRecorded, LeakAt, Reading;
      var expectedMem: int := 0;
      ghost var items := ItemsOf(Commands);
      SteadyAtFirst(keys, items);
      for k := 0 to |Commands|
        invariant PointsEarned == old(PointsEarned) && MemLeakDeducted == old(MemLeakDeducted)
        invariant items == ItemsOf(Commands)
        invariant Steady(keys, items, k, expectedMem) && MemLeakBytes == old(MemLeakBytes)
        invariant MemLeakChecked == (old(MemLeakChecked) || HasKhu(items, k))
      {
        var c := Commands[k];
        assert items[k] == Item(c.Id, c.Output);
        if c.Id == "khu" {
          MemLeakChecked := true;
          var reading := ReadKhu(keys, c.Output);
          if reading == None {
            NoReadingLeaks(keys, items, k, expectedMem, MemLeakBytes);
            DeductMemLeakPoints();
            return;
          }
          var usedMem: int := reading.value;
          if expectedMem == 0 || expectedMem == usedMem {
            SteadyRead(keys, items, k, expectedMem, usedMem);
          }
          if expectedMem == 0 {
            expectedMem := usedMem;
          } else if expectedMem != usedMem {
            UnsteadyLeaks(keys, items, k, expectedMem, usedMem, MemLeakBytes);
            DeductMemLeakPoints();
            MemLeakBytes := usedMem - expectedMem;
            return;
          }
        } else {
          SteadySkip(keys, items, k, expectedMem);
        }
      }
      SteadyIsNotLeaky(keys, items, expectedMem, MemLeakBytes);
    }

    /** The test is about to run: nothing earned, no output, and the command list
        has the shape the compiler gives it. */
    ghost predicate Ready()
      reads this, Commands
    {
      && Shaped()
      && (forall k :: 0 <= k < |Commands| ==> Commands[k].Output == [])
      && PointsEarned == 0 && MemLeakDeducted == 0
    }

    ghost predicate Shaped()
      reads this`Commands
    {
      && |Commands| > 0 && Distinct(Commands)
      && (forall k :: 0 <= k < |Commands| ==> (Commands[k].HasPrompt <==> k < |Commands| - 1))
    }

    /** Evaluates the current command and moves on to the next if there is one. */
    method FinishCurCommand(keys: set<string>, cur: Command, eof: bool, ghost o: Observation, ghost g: Grade)
      requires cur.Output == o.output && cur.TimedOut == o.timedOut && g == GradeOf(keys, cur.View(), o)
      modifies this`commandCounter, cur`State, cur`PointsEarned
      ensures cur.State == IsCorrect || cur.State == IsIncorrect
      ensures (cur.State == IsCorrect, cur.PointsEarned) == if eof then g.atShutdown else g.atPrompt
      ensures commandCounter == old(commandCounter) + if old(commandCounter) < |Commands| - 1 then 1 else 0
    {
      cur.Evaluate(keys, eof);
      if commandCounter < |Commands| - 1 {
        commandCounter := commandCounter + 1;
      }
    }

    /** What waiting for the prompt came to; a command found wrong here is marked. */
    method AwaitPrompt(c: Command, o: Observation) returns (r: Early)
      requires c.TimedOut == o.timedOut
      modifies this`allCorrect, c`State, c`PointsEarned
      ensures r == AfterPrompt(c.View(), o)
      ensures allCorrect == (old(allCorrect) && r != Wrong)
    {
      if o.expectError == TimeoutError {
        Mark(c);
        return Wrong;
      } else if o.expectError == EofError || !o.matched || o.statError == MonitorError {
        var expected := false;
        if o.statError != MonitorError && c.Panic != No {
          expected := true;
        } else if c.TimesOut != No && c.TimedOut {
          expected := true;
        }
        if !expected {
          Mark(c);
          return Wrong;
        }
        return GoOn(true);
      } else if o.expectError != NoError {
        return Broken(true);
      } else if !o.statActive {
        return Broken(o.statError != NoStatError);
      }
      r := GoOn(false);
    }

    method Mark(c: Command)
      modifies this`allCorrect, c`State, c`PointsEarned
      ensures !allCorrect && c.State == IsIncorrect && c.PointsEarned == 0
    {
      c.State, c.PointsEarned, allCorrect := IsIncorrect, 0, false;
    }

    /** One turn of the loop. */
    method RunCommand(keys: set<string>, k: nat, o: Observation, ghost g: Grade) returns (goOn: bool, failed: bool)
      requires k < |Commands| && commandCounter == k && g == GradeOf(keys, Commands[k].View(), o)
      requires Commands[k].HasPrompt <==> k < |Commands| - 1
      modifies this`allCorrect, this`PointsEarned, this`commandCounter, Commands[k]
      ensures Commands[k].View() == old(Commands[k].View()) && Commands[k].Output == o.output
      ensures commandCounter == k || commandCounter == k + 1
      ensures Turn(goOn, failed, allCorrect, PointsEarned, commandCounter == k + 1)
           == TakeTurn(Commands[k].View(), o, g, k == 0, k == |Commands| - 1,
                       ScoringMethod, old(allCorrect), old(PointsEarned))
    {
      hide GradeOf, Verdict, AfterPrompt;
      var c := Commands[k];
      c.Output, c.TimedOut := o.output, o.timedOut;
      goOn, failed := false, false;
      if k != 0 {
        c.State := RunningNow;
        if o.sendFails {
          Mark(c);
          return;
        }
        if o.enableFails {
          failed := true;
          return;
        }
      }
      if !c.HasPrompt {
        FinishCurCommand(keys, c, false, o, g);
        return;
      }
      var prompt := AwaitPrompt(c, o);
      if !prompt.GoOn? {
        failed := prompt.Broken? && prompt.failed;
        return;
      }
      var eof := prompt.eof;
      FinishCurCommand(keys, c, eof, o, g);
      if c.State == IsIncorrect {
        allCorrect := false;
      }
      if eof || c.Panic != No || c.TimesOut != No {
        return;
      } else if c.State == IsIncorrect {
        if ScoringMethod == Entire {
          return;
        }
      } else if ScoringMethod == Partial {
        PointsEarned := PointsEarned + c.PointsEarned;
      }
      goOn := true;
    }

    /** One turn, seen from the whole list: the other commands stay as they are. */
    method TurnAt(keys: set<string>, k: nat, obs: seq<Observation>, ghost s: GradedScript)
      returns (goOn: bool, failed: bool)
      requires k < |Commands| && commandCounter == k && Shaped()
      requires Views(Commands) == s.specs && Outputs(Commands) == Printed(obs, k) && s.keys == keys && s.obs == obs
      modifies this`allCorrect, this`PointsEarned, this`commandCounter, Commands
      ensures Views(Commands) == s.specs && Outputs(Commands) == Printed(obs, k + 1)
      ensures k <= commandCounter < |Commands| && (goOn ==> commandCounter == k + 1)
      ensures Simulate(s, ScoringMethod, k, old(allCorrect), old(PointsEarned)) ==
        if goOn then Simulate(s, ScoringMethod, k + 1, allCorrect, PointsEarned)
        else Progress(allCorrect, PointsEarned, failed, k, commandCounter)
    {
      assert s.grades[k] == GradeOf(keys, s.specs[k], obs[k]) && s.specs[k] == Views(Commands)[k];
      ghost var views, outputs := Views(Commands), Outputs(Commands);
      goOn, failed := RunCommand(keys, k, obs[k], s.grades[k]);
      assert Views(Commands) == views[k := views[k]];
      assert Outputs(Commands) == outputs[k := obs[k].output] == Printed(obs, k + 1);
    }

    /** Runs the commands in order until one of them ends the test. */
    method RunCommands(keys: set<string>, obs: seq<Observation>, ghost s: GradedScript)
      returns (failed: bool, ghost stop: nat)
      requires Ready() && Views(Commands) == s.specs && s.keys == keys && s.obs == obs
      modifies this`allCorrect, this`PointsEarned, this`commandCounter, Commands
      ensures stop <= commandCounter < |Commands| && Views(Commands) == s.specs
        && Outputs(Commands) == Printed(obs, stop + 1)
      ensures Progress(allCorrect, PointsEarned, failed, stop, commandCounter)
           == Simulate(s, ScoringMethod, 0, true, 0)
    {
      hide Simulate, Outputs, Printed, Distinct;
      NothingPrinted(Commands, obs);
      commandCounter, allCorrect := 0, true;
      ghost var outcome := Simulate(s, ScoringMethod, 0, true, 0);
      var k, goOn := 0, true;
      failed, stop := false, 0;
      while goOn
        invariant goOn ==> commandCounter == k
        invariant k <= commandCounter < |Commands| && (!goOn ==> stop <= commandCounter)
        invariant Views(Commands) == s.specs && Outputs(Commands) == Printed(obs, if goOn then k else stop + 1)
        invariant outcome == if goOn then Simulate(s, ScoringMethod, k, allCorrect, PointsEarned)
                             else Progress(allCorrect, PointsEarned, failed, stop, commandCounter)
        decreases goOn, |Commands| - k
      {
        goOn, failed := TurnAt(keys, k, obs, s);
        stop := k;
        if goOn {
          k := k + 1;
        }
      }
    }

    /** Sets the result and, under entire scoring, the points; then looks for leaks. */
    method FinishAndEvaluate(keys: set<string>)
      modifies this`Result, this`PointsEarned, this`MemLeakDeducted, this`MemLeakChecked, this`MemLeakBytes
      ensures Result == if allCorrect then Correct else Incorrect
      ensures var gross := if allCorrect && ScoringMethod == Entire then PointsAvailable else old(PointsEarned);
        PointsEarned == gross -
          if Leaky(keys, ItemsOf(Commands)) then Deduction(PointsAvailable, gross, MemLeakPoints) else 0
      ensures var gross := if allCorrect && ScoringMethod == Entire then PointsAvailable else old(PointsEarned);
        old(MemLeakDeducted) == 0 ==> PointsEarned + MemLeakDeducted == gross
    {
      if allCorrect {
        Result := Correct;
        if ScoringMethod == Entire {
          PointsEarned := PointsAvailable;
        }
      } else {
        Result := Incorrect;
      }
      EvaluateMemLeaks(keys);
    }

    /** A whole run of the test. */
    method Run(keys: set<string>, obs: seq<Observation>, ghost s: GradedScript)
      requires Ready() && Views(Commands) == s.specs && s.keys == keys && s.obs == obs
      modifies this, Commands
      ensures PointsAvailable == old(PointsAvailable) && ScoringMethod == old(ScoringMethod)
      ensures TargetName == old(TargetName) && requiredBy == old(requiredBy)
      ensures Ending(Result, PointsEarned, MemLeakDeducted)
           == EndingOf(s, ScoringMethod, PointsAvailable, old(MemLeakPoints))
    {
      hide Simulate, Leaky, Printed, Distinct;
      Result := Running;
      var failed; ghost var stop;
      failed, stop := RunCommands(keys, obs, s);
      ghost var p := Simulate(s, ScoringMethod, 0, true, 0);
      PrintedMeansSeen(Commands, s, p);
      Commands := Commands[..commandCounter + 1];
      if failed {
        Result := Abort;
      } else {
        FinishAndEvaluate(keys);
      }
    }
  }

  /** All of the test's commands together are worth. */
  function PointsFrom(specs: seq<Spec>, k: nat): nat
    requires k <= |specs|
    decreases |specs| - k
  {
    if k == |specs| then 0 else specs[k].points + PointsFrom(specs, k + 1)
  }

  /** What the commands in [k, stop) that were correct at their prompt are worth. */
  ghost function Tally(specs: seq<Spec>, grades: seq<Grade>, k: nat, stop: nat): nat
    requires k <= stop <= |specs| == |grades|
    decreases stop - k
  {
    if k == stop then 0
    else (if grades[k].atPrompt.0 then specs[k].points else 0) + Tally(specs, grades, k + 1, stop)
  }

  /** Every command the loop went past was judged at its prompt and could neither
      panic nor time out; under entire scoring each was correct.  A partially scored
      test has earned exactly the points of those that were correct, and the test
      stays all-correct only if they all were. */
  lemma {:induction false} LoopAccounts(s: GradedScript, scoring: Scoring, k: nat, allCorrect: bool, earned: nat)
    requires k < |s.specs|
    ensures var p := Simulate(s, scoring, k, allCorrect, earned);
      && k <= p.stop < |s.specs| && p.stop <= p.counter <= p.stop + 1
      && p.earned == earned + (if scoring == Partial then Tally(s.specs, s.grades, k, p.stop) else 0)
      && (forall i :: k <= i < p.stop ==> s.specs[i].panic == No && s.specs[i].timesOut == No)
      && (p.allCorrect ==> allCorrect && forall i :: k <= i < p.stop ==> s.grades[i].atPrompt.0)
      && (scoring == Entire ==> forall i :: k <= i < p.stop ==> s.grades[i].atPrompt.0)
    decreases |s.specs| - k
  {
    var t := TakeTurn(s.specs[k], s.obs[k], s.grades[k], k == 0, k == |s.specs| - 1, scoring, allCorrect, earned);
    if t.goOn {
      LoopAccounts(s, scoring, k + 1, t.allCorrect, t.earned);
      CorrectGradeIsFull(s, k);
    }
  }

  lemma CorrectGradeIsFull(s: GradedScript, k: nat)
    requires k < |s.specs|
    ensures s.grades[k].atPrompt.0 ==> s.grades[k].atPrompt.1 == s.specs[k].points
  {
    assert s.grades[k] == GradeOf(s.keys, s.specs[k], s.obs[k]);
    if s.grades[k].atPrompt.0 {
      CorrectEarnsAll(s.keys, s.specs[k], s.obs[k].output, s.obs[k].timedOut, false);
    }
  }

  lemma {:induction false} TallyFits(specs: seq<Spec>, grades: seq<Grade>, k: nat, stop: nat)
    requires k <= stop <= |specs| == |grades|
    ensures Tally(specs, grades, k, stop) <= PointsFrom(specs, k)
    decreases stop - k
  {
    if k < stop {
      TallyFits(specs, grades, k + 1, stop);
    }
  }

  /** Whatever the simulator does, a test whose commands are worth no more than the
      test ends with no more points than it has, before and after the deduction,
      and loses at most the penalty. */
  lemma PointsStayInBounds(s: GradedScript, scoring: Scoring, available: nat, penalty: nat)
    requires |s.specs| > 0 && (scoring == Partial ==> PointsFrom(s.specs, 0) <= available)
    ensures var p := Simulate(s, scoring, 0, true, 0);
      var gross, lost := Gross(p, scoring, available), Lost(s, p, scoring, available, penalty);
      && lost <= gross <= available && lost <= penalty
      && (scoring == Ungraded ==> gross == 0)
      && (scoring == Entire ==> gross == if !p.failed && p.allCorrect then available else 0)
  {
    LoopAccounts(s, scoring, 0, true, 0);
    TallyFits(s.specs, s.grades, 0, Simulate(s, scoring, 0, true, 0).stop);
  }

  /** What a leak costs a test that has points: the penalty, or all that was earned if that
      is less; without a leak, or when the run was aborted, nothing. */
  lemma LeakCosts(s: GradedScript, scoring: Scoring, available: nat, penalty: nat)
    requires |s.specs| > 0
    ensures var p, e := Simulate(s, scoring, 0, true, 0), EndingOf(s, scoring, available, penalty);
      && e.earned + e.deducted == Gross(p, scoring, available)
      && (e.result != Abort && available > 0 && Leaky(s.keys, Seen(s, p)) ==>
            e.deducted <= penalty && (e.deducted == penalty || e.earned == 0))
      && (e.result == Abort || available == 0 || !Leaky(s.keys, Seen(s, p)) ==> e.deducted == 0)
  {
    hide Simulate, Leaky, Seen;
  }

  ghost predicate Reads(keys: set<string>, item: Item, mem: int) {
    item.id == "khu" && Reading(keys, item.output).Some? && Reading(keys, item.output).value == mem
  }

  /** The first k items show no leak: their readings are 0 until the expected
      value first appears and equal to it from then on. */
  ghost predicate Steady(keys: set<string>, items: seq<Item>, k: nat, mem: int)
    requires k <= |items|
  {
    && (forall j :: 0 <= j < k && items[j].id == "khu" ==> Reads(keys, items[j], 0) || Reads(keys, items[j], mem))
    && (forall i, j :: 0 <= i < j < k ==> !Disagree(keys, items[i], items[j]))
    && (mem != 0 ==> exists i :: 0 <= i < k && Reads(keys, items[i], mem))
  }

  lemma SteadySkip(keys: set<string>, items: seq<Item>, k: nat, mem: int)
    requires k < |items| && Steady(keys, items, k, mem) && items[k].id != "khu"
    ensures Steady(keys, items, k + 1, mem)
  {
    if mem != 0 {
      var i :| 0 <= i < k && Reads(keys, items[i], mem);
      assert 0 <= i < k + 1 && Reads(keys, items[i], mem);
    }
  }

  lemma SteadyRead(keys: set<string>, items: seq<Item>, k: nat, mem: int, used: int)
    requires k < |items| && Steady(keys, items, k, mem) && Reads(keys, items[k], used) && (mem == 0 || mem == used)
    ensures Steady(keys, items, k + 1, used)
  {
  }

  lemma SteadyAtFirst(keys: set<string>, items: seq<Item>)
    ensures Steady(keys, items, 0, 0)
  {
  }

  /** Some of the first k commands is a khu command. */
  ghost predicate HasKhu(items: seq<Item>, k: nat)
    requires k <= |items|
  {
    exists i :: 0 <= i < k && items[i].id == "khu"
  }

  /** The check first sees a leak at j. */
  ghost predicate LeakAt(keys: set<string>, items: seq<Item>, j: nat)
    requires j < |items|
  {
    items[j].id == "khu" && Leaky(keys, items[..j + 1]) && !Leaky(keys, items[..j])
  }

  /** The recorded size of a leak is the difference between the reading at which it
      is seen and the earlier ones; it stays as it was without a leak or reading. */
  ghost predicate BytesRecorded(keys: set<string>, items: seq<Item>, before: int, after: int) {
    && (!Leaky(keys, items) ==> after == before)
    && forall j :: 0 <= j < |items| && LeakAt(keys, items, j) ==>
      match Reading(keys, items[j].output)
      case None => after == before
      case Some(used) =>
        && (exists i :: 0 <= i < j && Disagree(keys, items[i], items[j]))
        && forall i :: 0 <= i < j && Disagree(keys, items[i], items[j]) ==>
          after == used - Reading(keys, items[i].output).value
  }

  lemma LeakyStays(keys: set<string>, items: seq<Item>, i: nat, j: nat)
    requires i <= j <= |items| && Leaky(keys, items[..i])
    ensures Leaky(keys, items[..j])
  {
    var short, long := items[..i], items[..j];
    assert forall k :: 0 <= k < i ==> long[k] == short[k];
    if a, b :| 0 <= a < b < i && Disagree(keys, short[a], short[b]) {
      assert Disagree(keys, long[a], long[b]);
    }
  }

  /** A leak is first seen at one place only. */
  lemma LeakAtIsUnique(keys: set<string>, items: seq<Item>, i: nat, j: nat)
    requires i < |items| && j < |items| && LeakAt(keys, items, i) && LeakAt(keys, items, j)
    ensures i == j
  {
    if i < j {
      LeakyStays(keys, items, i + 1, j);
    } else if j < i {
      LeakyStays(keys, items, j + 1, i);
    }
  }

  lemma SteadyPrefix(keys: set<string>, items: seq<Item>, k: nat, mem: int)
    requires k <= |items| && Steady(keys, items, k, mem)
    ensures !Leaky(keys, items[..k])
  {
    forall i, j | 0 <= i < j < k ensures !Disagree(keys, items[..k][i], items[..k][j]) {
      assert !Disagree(keys, items[i], items[j]);
    }
  }

  lemma LeaksWhole(keys: set<string>, items: seq<Item>, k: nat)
    requires k <= |items| && Leaky(keys, items[..k])
    ensures Leaky(keys, items)
  {
    LeakyStays(keys, items, k, |items|);
    assert items[..|items|] == items;
  }

  lemma NoReadingLeaks(keys: set<string>, items: seq<Item>, k: nat, mem: int, bytes: int)
    requires k < |items| && Steady(keys, items, k, mem)
    requires items[k].id == "khu" && Reading(keys, items[k].output) == None
    ensures Leaky(keys, items) && BytesRecorded(keys, items, bytes, bytes)
  {
    hide Steady, LeakAt;
    SteadyPrefix(keys, items, k, mem);
    assert items[..k + 1][k] == items[k];
    assert Leaky(keys, items[..k + 1]);
    LeaksWhole(keys, items, k + 1);
    NowLeaks(keys, items, k);
    forall j | 0 <= j < |items| && LeakAt(keys, items, j) ensures j == k {
      LeakAtIsUnique(keys, items, j, k);
    }
  }

  lemma NowLeaks(keys: set<string>, items: seq<Item>, k: nat)
    requires k < |items| && items[k].id == "khu" && Leaky(keys, items[..k + 1]) && !Leaky(keys, items[..k])
    ensures LeakAt(keys, items, k)
  {
  }

  lemma UnsteadyLeaks(keys: set<string>, items: seq<Item>, k: nat, mem: int, used: int, bytes: int)
    requires k < |items| && Steady(keys, items, k, mem) && Reads(keys, items[k], used) && mem != 0 && mem != used
    ensures Leaky(keys, items) && BytesRecorded(keys, items, bytes, used - mem)
  {
    hide LeakAt;
    var i :| 0 <= i < k && Reads(keys, items[i], mem);
    assert Disagree(keys, items[..k + 1][i], items[..k + 1][k]);
    SteadyPrefix(keys, items, k, mem);
    LeaksWhole(keys, items, k + 1);
    NowLeaks(keys, items, k);
    forall j | 0 <= j < |items| && LeakAt(keys, items, j) ensures j == k {
      LeakAtIsUnique(keys, items, j, k);
    }
    assert Disagree(keys, items[i], items[k]);
    forall e | 0 <= e < k && Disagree(keys, items[e], items[k]) ensures Reading(keys, items[e].output).value == mem {
      assert Reads(keys, items[e], 0) || Reads(keys, items[e], mem);
    }
  }

  lemma SteadyIsNotLeaky(keys: set<string>, items: seq<Item>, mem: int, bytes: int)
    requires Steady(keys, items, |items|, mem)
    ensures !Leaky(keys, items) && BytesRecorded(keys, items, bytes, bytes)
  {
    SteadyPrefix(keys, items, |items|, mem);
    assert items[..|items|] == items;
    forall j | 0 <= j < |items| ensures !LeakAt(keys, items, j) {
      if Leaky(keys, items[..j + 1]) {
        LeaksWhole(keys, items, j + 1);
      }
    }
  }

  method ReadKhu(keys: set<string>, output: seq<OutputLine>) returns (r: Option<nat>)
    ensures r == Reading(keys, output)
  {
    for k := 0 to |output|
      invariant Reading(keys, output) == Reading(keys, output[k..])
    {
      assert output[k..][0] == output[k] && output[k..][1..] == output[k + 1..];
      if KhuLine(keys, output[k]) {
        return output[k].khu;
      }
    }
    r := None;
  }

  // ----- A command that never ran -----

  /** The commands that ran, as the leak check sees them. */
  function Ran(s: GradedScript, p: Progress): seq<Item>
    requires p.stop < |s.specs|
  {
    seq(p.stop + 1, i requires 0 <= i <= p.stop => Item(s.specs[i].id, s.obs[i].output))
  }

  /** The run ended after a command that was waited for and judged, with another one
      still to come: its shutdown or panic was allowed for, it could have panicked or
      timed out, or it was wrong under entire scoring. */
  predicate EndsBeforeNext(s: GradedScript, stop: nat)
    requires stop < |s.specs|
  {
    && stop + 1 < |s.specs|
    && Precheck(s.specs[stop], s.obs[stop], stop == 0).GoOn?
    && AfterPrompt(s.specs[stop], s.obs[stop]).GoOn?
  }

  lemma {:induction false} CounterMovesOn(s: GradedScript, scoring: Scoring, k: nat, allCorrect: bool, earned: nat)
    requires k < |s.specs|
    ensures var p := Simulate(s, scoring, k, allCorrect, earned);
      && k <= p.stop < |s.specs| && p.counter < |s.specs|
      && p.counter == if EndsBeforeNext(s, p.stop) then p.stop + 1 else p.stop
    decreases |s.specs| - k
  {
    hide Precheck, AfterPrompt;
    var t := TakeTurn(s.specs[k], s.obs[k], s.grades[k], k == 0, k == |s.specs| - 1, scoring, allCorrect, earned);
    if t.goOn {
      CounterMovesOn(s, scoring, k + 1, t.allCorrect, t.earned);
    }
  }

  /** The leak check finds a leak exactly when the commands that ran show one, or the
      run ended with a next command still to come and that one, which never ran, is
      a khu command. */
  lemma LeakCheckSeesNext(s: GradedScript, scoring: Scoring)
    requires |s.specs| > 0
    ensures var p := Simulate(s, scoring, 0, true, 0);
      && p.stop < |s.specs|
      && (Leaky(s.keys, Seen(s, p)) <==>
            Leaky(s.keys, Ran(s, p)) || (EndsBeforeNext(s, p.stop) && s.specs[p.stop + 1].id == "khu"))
  {
    hide Simulate, EndsBeforeNext, Leaky;
    CounterMovesOn(s, scoring, 0, true, 0);
    var p := Simulate(s, scoring, 0, true, 0);
    if p.counter == p.stop {
      assert Seen(s, p) == Ran(s, p);
    } else {
      var next := Item(s.specs[p.stop + 1].id, []);
      assert Seen(s, p) == Ran(s, p) + [next];
      LeakyWithUnrun(s.keys, Ran(s, p), next);
    }
  }

  lemma LeakyWithUnrun(keys: set<string>, items: seq<Item>, next: Item)
    requires next.output == []
    ensures Leaky(keys, items + [next]) <==> Leaky(keys, items) || next.id == "khu"
  {
    var more := items + [next];
    assert more[..|items|] == items && more[..|more|] == more;
    if Leaky(keys, items) {
      LeakyStays(keys, more, |items|, |more|);
    }
    if next.id == "khu" {
      assert more[|items|] == next;
    }
    if Leaky(keys, more) && next.id != "khu" {
      if j :| 0 <= j < |more| && more[j].id == "khu" && Reading(keys, more[j].output) == None {
        assert items[j] == more[j];
      } else {
        var i, j :| 0 <= i < j < |more| && Disagree(keys, more[i], more[j]);
        assert Disagree(keys, items[i], items[j]);
      }
    }
  }

  const PLAIN := Spec("", 0, No, No, [])
  const CALM := Observation(false, false, NoError, true, true, NoStatError, false, [])

  /** A memory check that reads 7, a command that panics as it should, and another
      memory check that is never reached. */
  ghost function PanicBetweenChecks(): (s: GradedScript)
    ensures s.keys == {} && |s.specs| == 5
    ensures s.specs == [PLAIN.(id := "boot"), PLAIN.(id := "khu"), PLAIN.(id := "panic", panic := Yes),
                        PLAIN.(id := "khu"), PLAIN.(id := "q")]
    ensures s.obs == [CALM, CALM.(output := [OutputLine("khu: 7", false, "", None, Some(7))]),
                      CALM.(expectError := EofError), CALM, CALM]
  {
    var specs := [PLAIN.(id := "boot"), PLAIN.(id := "khu"), PLAIN.(id := "panic", panic := Yes),
                  PLAIN.(id := "khu"), PLAIN.(id := "q")];
    var obs := [CALM, CALM.(output := [OutputLine("khu: 7", false, "", None, Some(7))]),
                CALM.(expectError := EofError), CALM, CALM];
    Script({}, specs, obs, seq(5, i requires 0 <= i < 5 => GradeOf({}, specs[i], obs[i])))
  }

  /** A command that expects no output is judged by how it ended alone. */
  lemma NothingExpected(s: GradedScript, k: nat)
    requires k < |s.specs| && s.specs[k].expected == []
    ensures s.grades[k].atPrompt.0 == EndedAsAllowed(s.specs[k], s.obs[k].timedOut, false)
    ensures s.grades[k].atShutdown.0 == EndedAsAllowed(s.specs[k], s.obs[k].timedOut, true)
  {
    EmbedsNone(s.keys, [], s.obs[k].output, |s.obs[k].output|);
    assert Found(s.keys, s.specs[k].expected, s.obs[k].output);
    assert s.grades[k] == GradeOf(s.keys, s.specs[k], s.obs[k]);
  }

  lemma PanicEndsRun()
    ensures Simulate(PanicBetweenChecks(), Entire, 0, true, 0) == Progress(true, 0, false, 2, 3)
  {
    hide Verdict, GradeOf, PanicBetweenChecks;
    var s := PanicBetweenChecks();
    NothingExpected(s, 0);
    NothingExpected(s, 1);
    NothingExpected(s, 2);
    assert Simulate(s, Entire, 2, true, 0) == Progress(true, 0, false, 2, 3);
    assert Simulate(s, Entire, 1, true, 0) == Simulate(s, Entire, 2, true, 0);
  }

  lemma ChecksRanAreFine(items: seq<Item>)
    requires |items| == 3 && items[0].id == "boot" && items[2].id == "panic"
    requires items[1].output == [OutputLine("khu: 7", false, "", None, Some(7))]
    ensures !Leaky({}, items)
  {
    assert Reading({}, items[1].output) == Some(7);
  }

  /** A correct run loses points to a memory check that never ran: after a khu command
      the test ends, as it should, with a panic, and the khu command after that is
      charged with giving no reading. */
  lemma UnrunCommandCosts()
    ensures var s := PanicBetweenChecks(); var p := Simulate(s, Entire, 0, true, 0);
      && p.stop < |s.specs|
      && !Leaky(s.keys, Ran(s, p)) && EndsBeforeNext(s, p.stop)
      && EndingOf(s, Entire, 10, 4) == Ending(Correct, 6, 4)
  {
    hide Simulate, Leaky, PanicBetweenChecks, Seen;
    var s := PanicBetweenChecks();
    PanicEndsRun();
    ChecksRanAreFine(Ran(s, Simulate(s, Entire, 0, true, 0)));
    LeakCheckSeesNext(s, Entire);
  }
}
