/** From the lines of a test file to a test that is ready to be graded and run. */
module Loading {
  import opened Wrappers
  import opened Text
  import opened Results
  import opened Grading
  import opened TestRun
  import opened Assignment
  import opened Instances
  import Arguments
  import CL = CommandList
  import T = Templates

  // ----- Every compiled line has a base command -----

  lemma {:induction false} SplitFromSome(line: string, pos: nat, start: nat, s: Arguments.Scan)
    requires start <= pos <= |line| && start < |line|
    ensures Arguments.SplitFrom(line, pos, start, s) != []
    decreases |line| - pos
  {
    if pos < |line| && !Arguments.Separates(s, line[pos]) {
      SplitFromSome(line, pos + 1, start, Arguments.After(s, line[pos]));
    }
  }

  /** Splitting panics on nothing but an empty line and a bare prefix. */
  lemma ParsesExactlyWhen(line: string)
    ensures Arguments.Parse(line).Some? <==> line != "" && line != "p "
  {
    var rest := if Arguments.HasRunPrefix(line) then line[2..] else line;
    if |rest| > 0 {
      SplitFromSome(rest, 0, 0, Arguments.OUTSIDE);
    }
  }

  /** The body of a line is never empty and never ends in space. */
  lemma BodyParses(confs: seq<CL.CommandConf>, line: string)
    requires TrimSpace(line) != ""
    ensures Arguments.Parse(CL.ConfFromLine(confs, TrimSpace(line)).0).Some?
  {
    var t := TrimSpace(line);
    var body := CL.SplitPrefix(t).1;
    TrimIsClean(line);
    CleanTrim(t);
    if body != t {
      TrimIsClean(t[1..]);
      TrimKeepsEnd(t[1..]);
    }
    assert Clean(body) && |body| > 0;
    ParsesExactlyWhen(body);
  }

  ghost predicate Parsing(emitted: seq<CL.Emitted>) {
    forall k :: 0 <= k < |emitted| ==> Arguments.Parse(emitted[k].command.line).Some?
  }

  lemma StepKeepsParsing(confs: seq<CL.CommandConf>, m: CL.Machine)
    requires Parsing(m.emitted) && CL.Step(confs, m).Continue?
    ensures Parsing(CL.Step(confs, m).next.emitted)
  {
    hide Arguments.Parse, TrimSpace, CL.Retop, CL.IsUserCommand, CL.PromptOf, CL.ConfFromLine;
    if |m.pending| > 0 {
      BodyParses(confs, m.pending[0].text);
    }
  }

  lemma {:induction false} LoopKeepsParsing(confs: seq<CL.CommandConf>, m: CL.Machine, i: nat)
    requires Parsing(m.emitted) && CL.Loop(confs, m, i).Ok?
    ensures Parsing(CL.Loop(confs, m, i).value)
    decreases CL.MAX_EXPANSION_LOOPS - i
  {
    hide CL.Step, Parsing;
    if CL.Step(confs, m).Continue? {
      StepKeepsParsing(confs, m);
      LoopKeepsParsing(confs, CL.Step(confs, m).next, i + 1);
    }
  }

  function Compiled(e: seq<CL.Emitted>): seq<CL.Command> {
    [CL.BOOT] + CL.Commands(e)
  }

  /** Whatever compiles has a base command in every line, so that splitting a command of
      a test never panics. */
  lemma CompiledParses(confs: seq<CL.CommandConf>, lines: seq<string>)
    requires CL.Compile(confs, lines).Ok?
    ensures forall k :: 0 <= k < |Compiled(CL.Compile(confs, lines).value)| ==>
      Arguments.Parse(Compiled(CL.Compile(confs, lines).value)[k].line).Some?
  {
    hide CL.Loop, Arguments.Parse;
    var e := CL.Compile(confs, lines).value;
    LoopKeepsParsing(confs, CL.Start(lines), 0);
    ParsesExactlyWhen("boot");
    forall k | 0 <= k < |Compiled(e)| ensures Arguments.Parse(Compiled(e)[k].line).Some? {
      if k > 0 {
        assert Compiled(e)[k] == e[k - 1].command;
      }
    }
  }

  // ----- The test -----

  /** What templates and overrides say of a command. */
  datatype Setting = Setting(panic: CmdOpt, timesOut: CmdOpt, expected: seq<T.ExpectedLine>)

  /** The command as compiled, with the id its line begins with. */
  ghost predicate MadeFrom(c: Command, from: CL.Command, settings: string -> Setting)
    reads c
  {
    && Arguments.Parse(from.line).Some? && c.Id == Arguments.Parse(from.line).value.base
    && c.Input == from.line && (c.HasPrompt <==> from.prompt.Some?) && c.Output == []
    && c.View() == Spec(c.Id, 0, settings(c.Id).panic, settings(c.Id).timesOut, settings(c.Id).expected)
  }

  ghost predicate AllMadeFrom(commands: seq<Command>, from: seq<CL.Command>, settings: string -> Setting)
    reads commands
  {
    |commands| == |from| && forall k :: 0 <= k < |commands| ==> MadeFrom(commands[k], from[k], settings)
  }

  method MakeCommands(compiled: seq<CL.Command>, settings: string -> Setting) returns (commands: seq<Command>)
    requires forall k :: 0 <= k < |compiled| ==> Arguments.Parse(compiled[k].line).Some?
    ensures fresh(commands) && Distinct(commands) && AllMadeFrom(commands, compiled, settings)
  {
    hide Arguments.Parse;
    commands := [];
    for k := 0 to |compiled|
      invariant fresh(commands) && Distinct(commands) && AllMadeFrom(commands, compiled[..k], settings)
    {
      var parsed := Arguments.SplitCommand(compiled[k].line);
      var id := parsed.value.base;
      var s := settings(id);
      var c := new Command(id, compiled[k].line, compiled[k].prompt.Some?, s.panic, s.timesOut, s.expected);
      commands := commands + [c];
    }
    assert compiled[..|compiled|] == compiled;
  }

  /** Compiles the lines and makes the test.  It has what a run of the test asks for:
      exactly the last command is without prompt, and nothing has been printed or
      earned; and what grading asks for: each command's id is the base of its line. */
  method LoadTest(confs: seq<CL.CommandConf>, lines: seq<string>, settings: string -> Setting)
    returns (r: Result<Test, CL.ConfError>)
    ensures r.Ok? <==> CL.Compile(confs, lines).Ok?
    ensures r.Err? ==> r.error == CL.Compile(confs, lines).error
    ensures r.Ok? ==> fresh(r.value) && fresh(r.value.Commands)
    ensures r.Ok? ==> AllMadeFrom(r.value.Commands, Compiled(CL.Compile(confs, lines).value), settings)
    ensures r.Ok? ==> r.value.Ready() && Pristine(r.value) && r.value.requiredBy == {}
  {
    hide CL.Compile, CL.Commands, Arguments.Parse, MadeFrom, Distinct;
    var compiled := CL.InitCommands(confs, lines);
    if compiled.Err? {
      return Err(compiled.error);
    }
    assert compiled.value == Compiled(CL.Compile(confs, lines).value);
    CompiledParses(confs, lines);
    CL.ShutdownIsLast(confs, lines);
    var commands := MakeCommands(compiled.value, settings);
    var test := new Test(commands);
    MadeHasShape(commands, compiled.value, settings);
    MadeIsGradable(commands, compiled.value, settings);
    r := Ok(test);
  }

  lemma MadeHasShape(commands: seq<Command>, from: seq<CL.Command>, settings: string -> Setting)
    requires AllMadeFrom(commands, from, settings)
    ensures forall k :: 0 <= k < |commands| ==>
      (commands[k].HasPrompt <==> from[k].prompt.Some?) && commands[k].Output == []
  {
    hide Arguments.Parse;
    forall k | 0 <= k < |commands|
      ensures (commands[k].HasPrompt <==> from[k].prompt.Some?) && commands[k].Output == []
    {
      assert MadeFrom(commands[k], from[k], settings);
    }
  }

  lemma MadeIsGradable(commands: seq<Command>, from: seq<CL.Command>, settings: string -> Setting)
    requires AllMadeFrom(commands, from, settings)
    ensures Identified(commands) && AllZero(PointsOf(commands))
  {
    hide Arguments.Parse;
    forall k | 0 <= k < |commands| ensures PointsOf(commands)[k] == 0 {
      PointsAndInputsAt(commands, k);
      assert MadeFrom(commands[k], from[k], settings);
    }
    forall k | 0 <= k < |commands|
      ensures Arguments.Parse(commands[k].Input).Some?
        && Arguments.Parse(commands[k].Input).value.base == commands[k].Id
    {
      assert MadeFrom(commands[k], from[k], settings);
    }
  }
}
