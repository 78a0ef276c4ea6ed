/** A submission that scores more points than it has available. */
module Overpaid {
  import opened Wrappers
  import opened Text
  import opened Digraph
  import opened Results
  import opened Sums
  import opened Grading
  import opened TestRun
  import opened Assignment
  import opened Targets
  import opened Instances
  import opened Submissions
  import opened Loading
  import opened EndToEnd
  import Groups
  import Arguments
  import R = Runner
  import CL = CommandList

  // ----- A test file with the one line "q" -----

  predicate IsWord(line: string) {
    forall k :: 0 <= k < |line| ==> line[k] != ' ' && line[k] != '"' && line[k] != '\\'
  }

  lemma {:induction false} WordIsOnePiece(line: string, pos: nat)
    requires IsWord(line) && 0 < |line| && pos <= |line|
    ensures Arguments.SplitFrom(line, pos, 0, Arguments.OUTSIDE) == [line]
    decreases |line| - pos
  {
    if pos < |line| {
      WordIsOnePiece(line, pos + 1);
    } else {
      assert line[0..] == line;
    }
  }

  lemma WordParses(line: string)
    requires IsWord(line) && 0 < |line|
    ensures Arguments.Parse(line) == Some(Arguments.Parsed("", line, []))
  {
    WordIsOnePiece(line, 0);
    if |line| >= 2 {
      assert line[..2][1] == line[1];
    }
    assert [line][1..] == [];
  }

  /** It compiles to booting and shutting down. */
  lemma QuitCompiles()
    ensures CL.Compile([], ["q"]).Ok? && Compiled(CL.Compile([], ["q"]).value) == [CL.BOOT, CL.QUIT]
  {
    hide CL.Compile;
    assert ["q"][1..] == [];
    CleanTrim("q");
    assert CL.LineError("q") == None && CL.Quits("q") && !CL.IsShellLine("q");
    assert CL.Expected(["q"], false) == Ok([CL.QUIT]) by {
      assert [] + [CL.Own("q")] == [CL.QUIT];
    }
    CL.CompilesAsExpected(["q"]);
  }

  function Plain(id: string): Setting {
    Setting(No, No, [])
  }

  /** The test "t" is ready and consists of these two commands. */
  ghost predicate IsQuitTest(group: map<string, Test>, boot: Command, quit: Command)
    reads group.Values, boot, quit
  {
    && group.Keys == {"t"} && group["t"].Commands == [boot, quit] && boot != quit
    && group["t"].PointsEarned == group["t"].MemLeakDeducted == 0
    && boot.HasPrompt && boot.Output == [] && boot.View() == Spec("boot", boot.PointsAvailable, No, No, [])
    && !quit.HasPrompt && quit.Output == [] && quit.View() == Spec("q", quit.PointsAvailable, No, No, [])
  }

  method LoadQuitTest() returns (library: map<string, Test>, boot: Command, quit: Command)
    ensures fresh(boot) && fresh(quit) && library.Keys == {"t"} && fresh(library["t"])
    ensures IsQuitTest(library, boot, quit) && Loaded(library, {boot, quit}, map["t" := {}])
  {
    hide CL.Compile, Arguments.Parse, Cyclic, Closed, Pristine;
    var loaded := LoadTest([], ["q"], Plain);
    QuitCompiles();
    var test := loaded.value;
    boot, quit := test.Commands[0], test.Commands[1];
    assert MadeFrom(boot, CL.BOOT, Plain) && MadeFrom(quit, CL.QUIT, Plain);
    WordParses("boot");
    WordParses("q");
    library := map["t" := test];
    AloneIsAcyclic(map["t" := {}], "t");
    PristineIsOnTrack(test);
  }

  lemma PristineIsOnTrack(test: Test)
    requires Pristine(test)
    ensures OnTrack(test, UNMARKED, false)
  {
  }

  lemma AloneIsAcyclic(deps: Edges, t: string)
    requires deps == map[t := {}]
    ensures Closed(deps) && !Cyclic(deps)
  {
    hide Cyclic, Elements;
    assert TopOrder(deps, [t]) by {
      assert Elements([t]) == {t} by {
        AloneInList(t);
      }
    }
    OrderedIsAcyclic(deps, [t]);
  }

  lemma AloneInList(t: string)
    ensures Elements([t]) == {t}
  {
  }

  lemma AloneIsClosed(deps: Edges, t: string)
    requires deps == map[t := {}]
    ensures Groups.Closure(deps, {t}) == {t} && Groups.Restrict(deps, {t}) == deps
  {
    hide Reaches;
    ReachesSelf(deps, t);
    forall x | Reaches(deps, t, x) ensures x == t {
      Groups.ReachesOneStep(deps, t, x);
    }
  }

  // ----- Its instance -----

  /** What an instance for the one test looks like. */
  lemma QuitIsExact(library: map<string, Test>, t: Target)
    requires library.Keys == {"t"} && t.Points == 5 && t.Tests == [TargetTest("t", false, 5, 0, [])]
    ensures Pick(library, {"t"}) == library && AllEntries([t]) == [Entry(TargetTest("t", false, 5, 0, []), t.Name)]
    ensures UniqueIds(AllEntries([t])) && IdList(AllEntries([t])) == ["t"] && AllGradable(library, [t])
  {
    assert [t][..0] == [] && t.Tests[..0] == [];
    assert AllEntries([t]) == Entries(t);
    assert Entries(t) == [Entry(TargetTest("t", false, 5, 0, []), t.Name)];
    assert Exact(IdsOf(library["t"].Commands), t.Tests[0]);
    assert TestPoints(t.Tests) == 5;
  }

  method MakeQuitGroup(t: Target)
    returns (group: map<string, Test>, boot: Command, quit: Command,
             ghost commands: set<Command>, ghost deps: Edges, ghost requested: set<string>)
    requires AllTargets(t) == [t] && t.Points == 5 && t.Tests == [TargetTest("t", false, 5, 0, [])]
    ensures fresh(commands) && fresh(group.Values) && commands == {boot, quit} && deps == map["t" := {}]
    ensures group.Keys == {"t"} && IsQuitTest(group, boot, quit) && IsInstanceOf(group, commands, [t], deps, requested)
    ensures AllEntries([t]) == [Entry(TargetTest("t", false, 5, 0, []), t.Name)]
  {
    hide Loaded, UniqueIds, AllEntries, IdList, IsInstanceOf, AllGradable, Pick, Groups.Closure, Cyclic, Closed;
    var library;
    library, boot, quit := LoadQuitTest();
    var edges: Edges := map["t" := {}];
    deps, commands := edges, {boot, quit};
    AloneIsAcyclic(deps, "t");
    AloneIsClosed(deps, "t");
    QuitIsExact(library, t);
    var made;
    made, requested := Instance(t, library, edges, ids => if ids == ["t"] then Some({"t"}) else None, commands);
    group := made.value;
  }

  lemma QuitIsMarked(group: map<string, Test>, commands: set<Command>, t: Target, deps: Edges, requested: set<string>)
    requires IsInstanceOf(group, commands, [t], deps, requested) && group.Keys == {"t"}
    requires AllEntries([t]) == [Entry(TargetTest("t", false, 5, 0, []), t.Name)]
    ensures MarkOn(group["t"]) == Mark(5, t.Name, Entire, 0)
  {
    hide Marked, Ids, UniqueIds, AllEntries, IsInstanceOf, SumOver, PointsOfTargets, Separate, Within, Consistent;
    var marks := InstanceAddsUp(group, commands, [t], deps, requested);
    InstanceIsConsistent(group, commands, [t], deps, requested);
    assert UniqueIds(AllEntries([t]));
    MarkedAt(Blank(group.Keys), AllEntries([t]), "t");
    assert [Entry(TargetTest("t", false, 5, 0, []), t.Name)][0] in AllEntries([t]);
  }

  // ----- Its run -----

  /** The kernel boots and shuts down. */
  function QuitScript(atBoot: nat, atQuit: nat): (s: GradedScript)
    ensures s.keys == {} && s.specs == [Spec("boot", atBoot, No, No, []), Spec("q", atQuit, No, No, [])]
    ensures s.obs == [CALM, CALM] && s.grades[0].atPrompt.0
  {
    CalmIsGraded("boot", atBoot);
    CalmIsGraded("q", atQuit);
    Script({}, [Spec("boot", atBoot, No, No, []), Spec("q", atQuit, No, No, [])], [CALM, CALM],
           [Grade((true, atBoot), (false, 0)), Grade((true, atQuit), (false, 0))])
  }

  lemma CalmIsGraded(id: string, points: nat)
    ensures GradeOf({}, Spec(id, points, No, No, []), CALM) == Grade((true, points), (false, 0))
  {
    EmbedsNone({}, [], [], 0);
    assert Found({}, [], []);
  }

  lemma QuitEarnsAll(atBoot: nat, atQuit: nat)
    ensures EndingOf(QuitScript(atBoot, atQuit), Entire, 5, 0) == Ending(Correct, 5, 0)
  {
    var s := QuitScript(atBoot, atQuit);
    assert Simulate(s, Entire, 1, true, 0) == Progress(true, 0, false, 1, 1);
    assert Simulate(s, Entire, 0, true, 0) == Progress(true, 0, false, 1, 1);
  }

  function QuitFates(atBoot: nat, atQuit: nat): map<string, Fate> {
    map["t" := Runs(QuitScript(atBoot, atQuit))]
  }

  lemma QuitIsPrepared(group: map<string, Test>, boot: Command, quit: Command, commands: set<Command>)
    requires IsQuitTest(group, boot, quit) && Within(group, commands)
    ensures Prepared(group, {}, QuitFates(boot.PointsAvailable, quit.PointsAvailable), commands)
  {
    assert group["t"].Ready();
    assert Views(group["t"].Commands) == [boot.View(), quit.View()];
  }

  /** The runner's table when the group is this one test. */
  function Lone(capacity: nat): R.Config {
    R.Config(map["t" := {}], capacity, map["t" := Correct])
  }

  /** The only way it can end, and what that comes to. */
  lemma QuitIsForetold(sheet: Sheet, name: string, atBoot: nat, atQuit: nat, capacity: nat)
    requires sheet.marks == map["t" := Mark(5, name, Entire, 0)] && sheet.fates == QuitFates(atBoot, atQuit)
    ensures Foretold(Lone(capacity), sheet) && Lone(capacity).deps == map["t" := {}]
    ensures R.IsVerdict(Lone(capacity), map["t" := Correct]) && ScoreOf(sheet, map["t" := Correct]) == 5
  {
    QuitEarnsAll(atBoot, atQuit);
    hide EndingOf, SumOver, QuitScript;
    assert sheet.End("t") == Ending(Correct, 5, 0);
    var r := map["t" := Correct];
    assert R.Typed(Lone(capacity)) && R.AllCorrect(Lone(capacity), r, "t");
    assert R.IsVerdict(Lone(capacity), r);
    assert sheet.marks.Keys == {"t"} && |{"t"}| == 1;
    SumConstant({"t"}, Gains(sheet, r), 5);
  }

  /** A submission that scores 5 points with only 3 available, whatever the schedule: the
      test file compiles, the environment links, the instance is made, and the only test
      is correct. */
  method UnflaggedMetaTargetOverpays(capacity: nat, labels: seq<R.Label>) returns (sub: Submission)
    requires R.IsComplete(Lone(capacity), labels)
    ensures sub.Score == 5 && sub.PointsAvailable == 3
  {
    hide *;
    var env, n := UnflaggedMetaTarget();
    var group, boot, quit; ghost var commands, deps, requested;
    group, boot, quit, commands, deps, requested := MakeQuitGroup(env[n]);
    var fates := QuitFates(boot.PointsAvailable, quit.PointsAvailable);
    InstanceIsConsistent(group, commands, [env[n]], deps, requested);
    QuitIsPrepared(group, boot, quit, commands);
    QuitIsMarked(group, commands, env[n], deps, requested);
    SheetOfGroup(group, fates);
    AloneIsClosed(deps, "t");
    QuitIsForetold(SheetOf(group, fates), env[n].Name, boot.PointsAvailable, quit.PointsAvailable, capacity);
    var splits;
    sub, splits := Submit(env, n, "build", group, {}, fates, Lone(capacity), labels, commands, deps, requested);
  }
}
