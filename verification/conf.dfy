/** The command-list compiler: turns the lines of a test file into the commands
    to send, inserting the commands that enter and leave shells. */
module CommandList {
  import opened Wrappers
  import opened Text

  datatype CommandConf = CommandConf(prefix: string, prompt: string, start: string, end: string)

  const KERNEL := CommandConf("", "OS/161 kernel [? for menu]: ", "", "q")
  const SHELL := CommandConf("$", "OS/161$ ", "s", "exit")

  const MAX_EXPANSION_LOOPS := 1024

  /** A pointer to a configuration.  The two built-in configurations are global
      variables; every other pointer is to a copy made on the spot, so it equals
      no pointer taken earlier. */
  datatype ConfRef = Global(conf: CommandConf) | Fresh(conf: CommandConf)

  datatype ConfError = PrematureExit | EmptyCommand | InvalidPrefix | InfiniteLoop

  /** A compiled command; prompt None is the nil pattern of the final command. */
  datatype Command = Command(user: bool, line: string, prompt: Option<string>)

  const BOOT := Command(false, "boot", Some(KERNEL.prompt))

  predicate IsPrefixChar(c: char) {
    c in "!@#$%^&*"
  }

  /** Splits off a one-character prefix followed by a space. */
  function SplitPrefix(commandLine: string): (string, string) {
    var t := TrimSpace(commandLine);
    if |t| >= 2 && IsPrefixChar(t[0]) && t[1] == ' ' && |commandLine| > 0 then
      (t[..1], TrimSpace(commandLine[1..]))
    else ("", t)
  }

  function FindConf(confs: seq<CommandConf>, prefix: string): Option<ConfRef> {
    if confs == [] then None
    else if confs[0].prefix == prefix then Some(Fresh(confs[0]))
    else FindConf(confs[1..], prefix)
  }

  /** The body of a line and the configuration its prefix names. */
  function ConfFromLine(confs: seq<CommandConf>, commandLine: string): (string, Option<ConfRef>) {
    var (prefix, body) := SplitPrefix(commandLine);
    (body,
     if prefix == "" then Some(Global(KERNEL))
     else if prefix == "$" then Some(Global(SHELL))
     else FindConf(confs, prefix))
  }

  /** The line that leaves an environment. */
  function ExitLine(conf: CommandConf): string {
    TrimSpace(conf.prefix + " " + conf.end)
  }

  /** The configuration, if any, that a command typed in an environment starts. */
  function Started(all: seq<CommandConf>, current: CommandConf, body: string): Option<CommandConf> {
    if all == [] then None
    else if all[0].start == TrimSpace(current.prefix + " " + body) then Some(all[0])
    else Started(all[1..], current, body)
  }

  function AllConfs(confs: seq<CommandConf>): seq<CommandConf> {
    confs + [SHELL, KERNEL]
  }

  predicate HasUserPrefix(body: string) {
    |body| >= 2 && body[..2] == "p "
  }

  // ----- The loop as a machine -----

  /** A pending line; origin is the index of the user's line, or -1 for a line
      the compiler inserted. */
  datatype Line = Line(text: string, origin: int)

  /** An emitted command with the environment it is typed in. */
  datatype Emitted = Emitted(command: Command, env: CommandConf, origin: int)

  datatype Machine = Machine(stack: seq<ConfRef>, pending: seq<Line>, emitted: seq<Emitted>)

  datatype Outcome = Continue(next: Machine) | Finished | Failed(error: ConfError)

  function Inserted(text: string): Line {
    Line(text, -1)
  }

  /** The stack after a command typed in the environment on top. */
  function Retop(confs: seq<CommandConf>, stack: seq<ConfRef>, body: string): seq<ConfRef>
    requires |stack| > 0
  {
    if body == stack[0].conf.end then stack[1..]
    else match Started(AllConfs(confs), stack[0].conf, body)
         case None => stack
         case Some(conf) => [Fresh(conf)] + stack
  }

  function PromptOf(stack: seq<ConfRef>): Option<string> {
    if |stack| == 0 then None else Some(stack[0].conf.prompt)
  }

  /** A command that starts an environment is typed as that environment's. */
  function IsUserCommand(before: seq<ConfRef>, after: seq<ConfRef>, body: string): bool
    requires |before| > 0
  {
    var conf := if |after| > |before| then after[0].conf else before[0].conf;
    conf.prefix != "" || HasUserPrefix(body)
  }

  function Emit(confs: seq<CommandConf>, m: Machine, body: string): Machine
    requires |m.stack| > 0 && |m.pending| > 0
  {
    var after := Retop(confs, m.stack, body);
    var command := Command(IsUserCommand(m.stack, after, body), body, PromptOf(after));
    Machine(after, m.pending[1..], m.emitted + [Emitted(command, m.stack[0].conf, m.pending[0].origin)])
  }

  function Step(confs: seq<CommandConf>, m: Machine): Outcome {
    if |m.stack| == 0 then
      if |m.pending| != 0 then Failed(PrematureExit) else Finished
    else
      var current := m.stack[0].conf;
      if |m.pending| == 0 then Continue(m.(pending := [Inserted(ExitLine(current))]))
      else
        var line := TrimSpace(m.pending[0].text);
        if line == "" then Failed(EmptyCommand)
        else
          var (body, target) := ConfFromLine(confs, line);
          match target
          case None => Failed(InvalidPrefix)
          case Some(ref) =>
            if current != ref.conf then
              var inserted := if ref.Global? && ref in m.stack then ExitLine(current) else ref.conf.start;
              Continue(m.(pending := [Inserted(inserted)] + m.pending))
            else Continue(Emit(confs, m, body))
  }

  /** The loop from its i-th iteration on. */
  function Loop(confs: seq<CommandConf>, m: Machine, i: nat): Result<seq<Emitted>, ConfError>
    decreases MAX_EXPANSION_LOOPS - i
  {
    if i >= MAX_EXPANSION_LOOPS then Err(InfiniteLoop)
    else match Step(confs, m)
         case Continue(next) => Loop(confs, next, i + 1)
         case Finished => Ok(m.emitted)
         case Failed(error) => Err(error)
  }

  function UserLines(lines: seq<string>): seq<Line> {
    seq(|lines|, i requires 0 <= i < |lines| => Line(lines[i], i))
  }

  function Start(lines: seq<string>): Machine {
    Machine([Global(KERNEL)], UserLines(lines), [])
  }

  function Compile(confs: seq<CommandConf>, lines: seq<string>): Result<seq<Emitted>, ConfError> {
    Loop(confs, Start(lines), 0)
  }

  function Commands(emitted: seq<Emitted>): seq<Command> {
    seq(|emitted|, i requires 0 <= i < |emitted| => emitted[i].command)
  }

  function Texts(pending: seq<Line>): seq<string> {
    seq(|pending|, i requires 0 <= i < |pending| => pending[i].text)
  }

  // ----- The loop itself -----

  /** Builds t.Commands.  lines are the test's command lines after the khu and
      multiplier prefixes have been expanded. */
  method InitCommands(confs: seq<CommandConf>, lines: seq<string>) returns (r: Result<seq<Command>, ConfError>)
    ensures var c := Compile(confs, lines);
      r == if c.Ok? then Ok([BOOT] + Commands(c.value)) else Err(c.error)
  {
    var commandConfStack := [Global(KERNEL)];
    var commands := [BOOT];
    var commandLines := lines;
    ghost var m := Start(lines);
    assert Texts(UserLines(lines)) == lines;
    var i := 0;
    while true
      invariant i <= MAX_EXPANSION_LOOPS
      invariant Loop(confs, m, i) == Compile(confs, lines)
      invariant m.stack == commandConfStack && Texts(m.pending) == commandLines
      invariant [BOOT] + Commands(m.emitted) == commands
      decreases MAX_EXPANSION_LOOPS - i
    {
      if i == MAX_EXPANSION_LOOPS {
        return Err(InfiniteLoop);
      }
      i := i + 1;
      if |commandConfStack| == 0 {
        if |commandLines| != 0 {
          return Err(PrematureExit);
        }
        break;
      }
      var currentConf := commandConfStack[0].conf;
      if |commandLines| == 0 {
        commandLines := [ExitLine(currentConf)];
        TextsOfInserted(ExitLine(currentConf), []);
        m := m.(pending := [Inserted(ExitLine(currentConf))]);
        continue;
      }
      var commandLine := TrimSpace(commandLines[0]);
      if commandLine == "" {
        return Err(EmptyCommand);
      }
      var (body, commandConf) := ConfFromLine(confs, commandLine);
      if commandConf == None {
        return Err(InvalidPrefix);
      }
      if currentConf != commandConf.value.conf {
        var found := commandConf.value.Global? && commandConf.value in commandConfStack;
        var text := if found then ExitLine(currentConf) else commandConf.value.conf.start;
        commandLines := [text] + commandLines;
        TextsOfInserted(text, m.pending);
        m := m.(pending := [Inserted(text)] + m.pending);
      } else {
        var newCmd;
        commandConfStack, newCmd := NewCommand(confs, commandConfStack, body);
        commands := commands + [newCmd];
        commandLines := commandLines[1..];
        EmitAppends(confs, m, body);
        m := Emit(confs, m, body);
      }
    }
    return Ok(commands);
  }

  lemma TextsOfInserted(text: string, pending: seq<Line>)
    ensures Texts([Inserted(text)] + pending) == [text] + Texts(pending)
  {
  }

  lemma EmitAppends(confs: seq<CommandConf>, m: Machine, body: string)
    requires |m.stack| > 0 && |m.pending| > 0
    ensures var m' := Emit(confs, m, body);
      && Texts(m'.pending) == Texts(m.pending)[1..]
      && Commands(m'.emitted) == Commands(m.emitted)
         + [Command(IsUserCommand(m.stack, m'.stack, body), body, PromptOf(m'.stack))]
  {
  }

  /** Pops or pushes an environment as the command does and builds the command. */
  method NewCommand(confs: seq<CommandConf>, stack: seq<ConfRef>, commandLine: string)
    returns (commandConfStack: seq<ConfRef>, newCmd: Command)
    requires |stack| > 0
    ensures commandConfStack == Retop(confs, stack, commandLine)
    ensures newCmd == Command(IsUserCommand(stack, commandConfStack, commandLine), commandLine,
      PromptOf(commandConfStack))
  {
    commandConfStack := stack;
    var currentConf := stack[0].conf;
    var typeConf, nextConf := currentConf, Some(currentConf);
    if commandLine == currentConf.end {
      commandConfStack := stack[1..];
      nextConf := if |commandConfStack| > 0 then Some(commandConfStack[0].conf) else None;
    } else {
      var started := FindStarted(confs, currentConf, commandLine);
      if started.Some? {
        commandConfStack := [Fresh(started.value)] + stack;
        typeConf, nextConf := started.value, started;
      }
    }
    var prompt := if nextConf.Some? then Some(nextConf.value.prompt) else None;
    newCmd := Command(typeConf.prefix != "" || HasUserPrefix(commandLine), commandLine, prompt);
  }

  method FindStarted(confs: seq<CommandConf>, current: CommandConf, body: string) returns (r: Option<CommandConf>)
    ensures r == Started(AllConfs(confs), current, body)
  {
    var all := AllConfs(confs);
    for k := 0 to |all|
      invariant Started(all, current, body) == Started(all[k..], current, body)
    {
      assert all[k..][1..] == all[k + 1..];
      if all[k].start == TrimSpace(current.prefix + " " + body) {
        return Some(all[k]);
      }
    }
    r := None;
  }

  // ----- What the emitted commands do to the environment stack -----

  /** Typing the commands at a machine whose environments are nested as in stack:
      each is typed in the environment on top and pops, pushes or keeps it, its
      prompt is that of the new top, absent when nothing is left, and it counts as
      a user command when its environment, or the one it starts, has a prefix. */
  ghost predicate Replays(confs: seq<CommandConf>, stack: seq<CommandConf>, emitted: seq<Emitted>,
                          final: seq<CommandConf>)
    decreases |emitted|
  {
    if emitted == [] then stack == final
    else
      && |stack| > 0
      && Fits(confs, stack, emitted[0])
      && Replays(confs, EnvAfter(confs, stack, emitted[0].command.line), emitted[1..], final)
  }

  ghost predicate Fits(confs: seq<CommandConf>, stack: seq<CommandConf>, e: Emitted)
    requires |stack| > 0
  {
    var after := EnvAfter(confs, stack, e.command.line);
    && e.env == stack[0]
    && e.command.prompt == (if |after| == 0 then None else Some(after[0].prompt))
    && (e.command.user <==>
          (if |after| > |stack| then after[0].prefix != "" else stack[0].prefix != "") || HasUserPrefix(e.command.line))
  }

  function EnvAfter(confs: seq<CommandConf>, stack: seq<CommandConf>, line: string): seq<CommandConf>
    requires |stack| > 0
  {
    if line == stack[0].end then stack[1..]
    else match Started(AllConfs(confs), stack[0], line)
         case None => stack
         case Some(conf) => [conf] + stack
  }

  ghost function Confs(stack: seq<ConfRef>): seq<CommandConf> {
    seq(|stack|, i requires 0 <= i < |stack| => stack[i].conf)
  }

  lemma {:induction false} ReplaysMore(confs: seq<CommandConf>, stack: seq<CommandConf>, emitted: seq<Emitted>,
                                      mid: seq<CommandConf>, e: Emitted)
    requires Replays(confs, stack, emitted, mid) && |mid| > 0 && Fits(confs, mid, e)
    ensures Replays(confs, stack, emitted + [e], EnvAfter(confs, mid, e.command.line))
    decreases |emitted|
  {
    if emitted == [] {
      assert ([] + [e])[1..] == [];
    } else {
      assert (emitted + [e])[1..] == emitted[1..] + [e];
      ReplaysMore(confs, EnvAfter(confs, stack, emitted[0].command.line), emitted[1..], mid, e);
    }
  }

  /** What the loop keeps: the emitted commands replay to the current stack, each
      in the environment on top at its turn; and the user's lines, emitted or
      pending, are all there in order. */
  ghost predicate Faithful(confs: seq<CommandConf>, lines: seq<string>, m: Machine) {
    && Replays(confs, [KERNEL], m.emitted, Confs(m.stack))
    && Origins(m.emitted) + PendingOrigins(m.pending) == Indices(|lines|)
    && (forall k :: 0 <= k < |m.emitted| && m.emitted[k].origin >= 0 ==> CarriesUserLine(confs, lines, m.emitted[k]))
    && (forall k :: 0 <= k < |m.pending| && m.pending[k].origin >= 0 ==>
          m.pending[k].origin < |lines| && m.pending[k].text == lines[m.pending[k].origin])
  }

  /** The command is the body of a user line, typed in the environment that the
      line's prefix names. */
  ghost predicate CarriesUserLine(confs: seq<CommandConf>, lines: seq<string>, e: Emitted) {
    && 0 <= e.origin < |lines|
    && var (body, target) := ConfFromLine(confs, TrimSpace(lines[e.origin]));
      target.Some? && e.env == target.value.conf && e.command.line == body
  }

  ghost function Indices(n: nat): seq<int> {
    seq(n, i => i)
  }

  ghost function Origins(emitted: seq<Emitted>): seq<int> {
    if emitted == [] then []
    else
      var last := |emitted| - 1;
      Origins(emitted[..last]) + if emitted[last].origin >= 0 then [emitted[last].origin] else []
  }

  ghost function PendingOrigins(pending: seq<Line>): seq<int> {
    if pending == [] then []
    else (if pending[0].origin >= 0 then [pending[0].origin] else []) + PendingOrigins(pending[1..])
  }

  lemma {:induction false} PendingOriginsOfUserLines(lines: seq<string>, k: nat)
    requires k <= |lines|
    ensures PendingOrigins(UserLines(lines)[k..]) == Indices(|lines|)[k..]
    decreases |lines| - k
  {
    if k < |lines| {
      PendingOriginsOfUserLines(lines, k + 1);
      assert UserLines(lines)[k..][1..] == UserLines(lines)[k + 1..];
      assert Indices(|lines|)[k..] == [k] + Indices(|lines|)[k + 1..];
    }
  }

  lemma StartIsFaithful(confs: seq<CommandConf>, lines: seq<string>)
    ensures Faithful(confs, lines, Start(lines))
  {
    PendingOriginsOfUserLines(lines, 0);
    assert UserLines(lines)[0..] == UserLines(lines) && Indices(|lines|)[0..] == Indices(|lines|);
    assert Confs([Global(KERNEL)]) == [KERNEL];
  }

  lemma InsertKeepsFaithful(confs: seq<CommandConf>, lines: seq<string>, m: Machine, text: string)
    requires Faithful(confs, lines, m)
    ensures Faithful(confs, lines, m.(pending := [Inserted(text)] + m.pending))
  {
    assert ([Inserted(text)] + m.pending)[1..] == m.pending;
  }

  lemma EmitReplays(confs: seq<CommandConf>, m: Machine, body: string)
    requires |m.stack| > 0 && |m.pending| > 0
    requires Replays(confs, [KERNEL], m.emitted, Confs(m.stack))
    ensures var m' := Emit(confs, m, body); Replays(confs, [KERNEL], m'.emitted, Confs(m'.stack))
  {
    var m' := Emit(confs, m, body);
    assert Confs(m'.stack) == EnvAfter(confs, Confs(m.stack), body);
    ReplaysMore(confs, [KERNEL], m.emitted, Confs(m.stack), m'.emitted[|m.emitted|]);
  }

  lemma EmitKeepsFaithful(confs: seq<CommandConf>, lines: seq<string>, m: Machine, body: string)
    requires Faithful(confs, lines, m) && |m.stack| > 0 && |m.pending| > 0
    requires var (b, target) := ConfFromLine(confs, TrimSpace(m.pending[0].text));
      b == body && target.Some? && target.value.conf == m.stack[0].conf
    ensures Faithful(confs, lines, Emit(confs, m, body))
  {
    hide Replays, EnvAfter, TrimSpace;
    var m' := Emit(confs, m, body);
    EmitReplays(confs, m, body);
    assert m'.emitted[..|m.emitted|] == m.emitted;
    var o := m.pending[0].origin;
    assert Origins(m'.emitted) + PendingOrigins(m'.pending) == Origins(m.emitted) + PendingOrigins(m.pending);
  }

  lemma StepKeepsFaithful(confs: seq<CommandConf>, lines: seq<string>, m: Machine)
    requires Faithful(confs, lines, m) && Step(confs, m).Continue?
    ensures Faithful(confs, lines, Step(confs, m).next)
  {
    var current := m.stack[0].conf;
    if |m.pending| == 0 {
      assert m.pending == [];
      InsertKeepsFaithful(confs, lines, m, ExitLine(current));
    } else {
      var (body, target) := ConfFromLine(confs, TrimSpace(m.pending[0].text));
      if current == target.value.conf {
        EmitKeepsFaithful(confs, lines, m, body);
      } else {
        InsertKeepsFaithful(confs, lines, m, Step(confs, m).next.pending[0].text);
      }
    }
  }

  lemma {:induction false} LoopKeepsFaithful(confs: seq<CommandConf>, lines: seq<string>, m: Machine, i: nat,
                                             e: seq<Emitted>)
    requires Faithful(confs, lines, m) && Loop(confs, m, i) == Ok(e)
    ensures Faithful(confs, lines, Machine([], [], e))
    decreases MAX_EXPANSION_LOOPS - i
  {
    hide Step, Faithful;
    if Step(confs, m).Continue? {
      StepKeepsFaithful(confs, lines, m);
      LoopKeepsFaithful(confs, lines, Step(confs, m).next, i + 1, e);
    } else {
      FinishedIsEmpty(confs, m, i, e);
    }
  }

  lemma FinishedIsEmpty(confs: seq<CommandConf>, m: Machine, i: nat, e: seq<Emitted>)
    requires Loop(confs, m, i) == Ok(e) && !Step(confs, m).Continue?
    ensures m == Machine([], [], e)
  {
  }

  /** Whenever compilation succeeds, the commands after boot are a balanced run
      from the kernel prompt to shutdown; what is left after erasing the inserted
      commands is the user's lines, in order, each in the environment it names. */
  lemma CompiledIsFaithful(confs: seq<CommandConf>, lines: seq<string>)
    requires Compile(confs, lines).Ok?
    ensures var e := Compile(confs, lines).value;
      && Replays(confs, [KERNEL], e, [])
      && Origins(e) == Indices(|lines|)
      && forall k :: 0 <= k < |e| && e[k].origin >= 0 ==> CarriesUserLine(confs, lines, e[k])
  {
    StartIsFaithful(confs, lines);
    LoopKeepsFaithful(confs, lines, Start(lines), 0, Compile(confs, lines).value);
    assert Confs([]) == [];
  }

  lemma {:induction false} OnlyLastPromptAbsent(confs: seq<CommandConf>, stack: seq<CommandConf>, emitted: seq<Emitted>)
    requires Replays(confs, stack, emitted, []) && emitted != []
    ensures forall k :: 0 <= k < |emitted| ==> (emitted[k].command.prompt == None <==> k == |emitted| - 1)
    decreases |emitted|
  {
    var after := EnvAfter(confs, stack, emitted[0].command.line);
    if |emitted| > 1 {
      OnlyLastPromptAbsent(confs, after, emitted[1..]);
      forall k | 0 < k < |emitted| ensures emitted[k].command.prompt == None <==> k == |emitted| - 1 {
        assert emitted[k] == emitted[1..][k - 1];
      }
    } else {
      assert emitted[1..] == [];
    }
  }

  lemma NothingLeavesKernel(confs: seq<CommandConf>, e: seq<Emitted>)
    requires Replays(confs, [KERNEL], e, [])
    ensures e != []
  {
  }

  /** The shape the run loop relies on: exactly the last command has no prompt. */
  lemma ShutdownIsLast(confs: seq<CommandConf>, lines: seq<string>)
    requires Compile(confs, lines).Ok?
    ensures var commands := [BOOT] + Commands(Compile(confs, lines).value);
      |commands| > 1 && forall k :: 0 <= k < |commands| ==> (commands[k].prompt == None <==> k == |commands| - 1)
  {
    hide Compile, Replays, Origins, CarriesUserLine;
    CompiledIsFaithful(confs, lines);
    var e := Compile(confs, lines).value;
    assert e != [] by {
      NothingLeavesKernel(confs, e);
    }
    OnlyLastPromptAbsent(confs, [KERNEL], e);
    forall k | 0 < k < |e| + 1 ensures ([BOOT] + Commands(e))[k].prompt == None <==> k == |e| {
      assert ([BOOT] + Commands(e))[k] == e[k - 1].command;
    }
  }

  // ----- Kernel and shell only: what exactly comes out, and how soon -----

  predicate IsShellLine(line: string) {
    SplitPrefix(TrimSpace(line)).0 == "$"
  }

  function BodyOf(line: string): string {
    SplitPrefix(TrimSpace(line)).1
  }

  /** What is wrong with a line when no extra environments are configured. */
  function LineError(line: string): Option<ConfError> {
    if TrimSpace(line) == "" then Some(EmptyCommand)
    else if SplitPrefix(TrimSpace(line)).0 !in ["", "$"] then Some(InvalidPrefix)
    else None
  }

  const ENTER := Command(true, "s", Some(SHELL.prompt))
  const LEAVE := Command(true, "exit", Some(KERNEL.prompt))
  const QUIT := Command(false, "q", None)

  /** What the line itself compiles to. */
  function Own(line: string): Command {
    var body := BodyOf(line);
    if IsShellLine(line) then
      if body == "exit" then LEAVE else Command(true, body, Some(SHELL.prompt))
    else if body == "s" then ENTER
    else if body == "q" then QUIT
    else Command(HasUserPrefix(body), body, Some(KERNEL.prompt))
  }

  /** Whether the shell is on top after the line. */
  predicate InShellAfter(line: string) {
    if IsShellLine(line) then BodyOf(line) != "exit" else BodyOf(line) == "s"
  }

  predicate Quits(line: string) {
    !IsShellLine(line) && BodyOf(line) == "q"
  }

  /** The switch between kernel and shell a line needs first. */
  function Switch(line: string, inShell: bool): seq<Command> {
    if IsShellLine(line) == inShell then [] else if inShell then [LEAVE] else [ENTER]
  }

  /** The commands for lines[k..] starting in the kernel or the shell: each line
      preceded by the switch it needs, then whatever it takes to shut down. */
  function Expected(lines: seq<string>, inShell: bool): Result<seq<Command>, ConfError> {
    if lines == [] then Ok((if inShell then [LEAVE] else []) + [QUIT])
    else match LineError(lines[0])
         case Some(error) => Err(error)
         case None =>
           var here := Switch(lines[0], inShell) + [Own(lines[0])];
           if Quits(lines[0]) then
             if |lines| == 1 then Ok(here) else Err(PrematureExit)
           else match Expected(lines[1..], InShellAfter(lines[0]))
                case Err(error) => Err(error)
                case Ok(rest) => Ok(here + rest)
  }

  const IN_KERNEL := [Global(KERNEL)]
  const IN_SHELL := [Fresh(SHELL), Global(KERNEL)]

  function StackFor(inShell: bool): seq<ConfRef> {
    if inShell then IN_SHELL else IN_KERNEL
  }

  lemma BuiltInLines()
    ensures ExitLine(KERNEL) == "q" && ExitLine(SHELL) == "$ exit"
    ensures TrimSpace("q") == "q" && TrimSpace("s") == "s" && TrimSpace("$ exit") == "$ exit"
    ensures ConfFromLine([], "q") == ("q", Some(Global(KERNEL)))
    ensures ConfFromLine([], "s") == ("s", Some(Global(KERNEL)))
    ensures ConfFromLine([], "$ exit") == ("exit", Some(Global(SHELL)))
  {
    assert KERNEL.prefix + " " + KERNEL.end == " " + "q";
    SpaceTrim("q");
    assert SHELL.prefix + " " + SHELL.end == "$ exit";
    CleanTrim("q");
    CleanTrim("s");
    CleanTrim("$ exit");
    assert "$ exit"[1..] == " " + "exit";
    SpaceTrim("exit");
    assert "$ exit"[..1] == "$";
  }

  lemma BodyIsClean(line: string)
    requires LineError(line) == None
    ensures Clean(BodyOf(line)) && |BodyOf(line)| > 0
    ensures ConfFromLine([], TrimSpace(line))
         == (BodyOf(line), Some(Global(if IsShellLine(line) then SHELL else KERNEL)))
  {
    var t := TrimSpace(line);
    TrimIsClean(line);
    CleanTrim(t);
    if SplitPrefix(t).0 != "" {
      TrimIsClean(t[1..]);
      TrimKeepsEnd(t[1..]);
    }
  }

  /** In the kernel "q" leaves and "s" starts the shell; in the shell only
      "exit" does anything to the stack. */
  lemma RetopBuiltIn(inShell: bool, body: string)
    requires Clean(body) && |body| > 0
    ensures Retop([], StackFor(inShell), body) ==
      if inShell then (if body == "exit" then IN_KERNEL else IN_SHELL)
      else (if body == "q" then [] else if body == "s" then IN_SHELL else IN_KERNEL)
  {
    var all := AllConfs([]);
    assert all == [SHELL, KERNEL] && all[1..] == [KERNEL] && all[1..][1..] == [];
    if inShell {
      assert SHELL.prefix + " " + body == "$ " + body;
      assert Clean("$ " + body);
      CleanTrim("$ " + body);
      assert ("$ " + body)[0] == '$' && "s"[0] == 's';
      assert Started(all[1..], SHELL, body) == None;
      assert Started(all, SHELL, body) == None;
    } else {
      assert KERNEL.prefix + " " + body == " " + body;
      SpaceTrim(body);
      assert Started(all[1..], KERNEL, body) == None;
    }
  }

  lemma LoopTakes(m: Machine, i: nat, next: Machine)
    requires Step([], m) == Continue(next)
    ensures Loop([], m, i) == Loop([], next, i + 1)
  {
  }

  ghost function WithPending(inShell: bool, pending: seq<Line>, emitted: seq<Emitted>): Machine {
    Machine(StackFor(inShell), pending, emitted)
  }

  /** Entering or leaving the shell takes two iterations and emits one command. */
  lemma SwitchTakesTwo(line: Line, rest: seq<Line>, emitted: seq<Emitted>, i: nat) returns (e: Emitted)
    requires LineError(line.text) == None
    ensures var inShell := !IsShellLine(line.text);
      && e.command == (if inShell then LEAVE else ENTER)
      && Loop([], WithPending(inShell, [line] + rest, emitted), i)
         == Loop([], WithPending(!inShell, [line] + rest, emitted + [e]), i + 2)
  {
    hide Loop;
    var inShell := !IsShellLine(line.text);
    var pending := [line] + rest;
    var m := WithPending(inShell, pending, emitted);
    BuiltInLines();
    BodyIsClean(line.text);
    assert Global(KERNEL) in IN_SHELL && Global(SHELL) !in IN_KERNEL;
    var m1 := m.(pending := [Inserted(if inShell then "$ exit" else "s")] + pending);
    LoopTakes(m, i, m1);
    RetopBuiltIn(inShell, if inShell then "exit" else "s");
    assert m1.pending[1..] == pending;
    var m2 := Emit([], m1, if inShell then "exit" else "s");
    LoopTakes(m1, i + 1, m2);
    e := m2.emitted[|emitted|];
  }

  /** A line already in its environment takes one iteration. */
  lemma LineTakesOne(line: Line, rest: seq<Line>, emitted: seq<Emitted>, i: nat) returns (e: Emitted)
    requires LineError(line.text) == None
    ensures e.command == Own(line.text)
    ensures Loop([], WithPending(IsShellLine(line.text), [line] + rest, emitted), i)
         == Loop([], AfterLine(line.text, rest, emitted + [e]), i + 1)
  {
    hide Loop;
    var inShell := IsShellLine(line.text);
    var m := WithPending(inShell, [line] + rest, emitted);
    BodyIsClean(line.text);
    RetopBuiltIn(inShell, BodyOf(line.text));
    assert m.pending[1..] == rest;
    var m1 := Emit([], m, BodyOf(line.text));
    LoopTakes(m, i, m1);
    e := m1.emitted[|emitted|];
  }

  /** With no lines left the line that leaves the environment on top takes two
      iterations. */
  lemma LeavingTakesTwo(inShell: bool, emitted: seq<Emitted>, i: nat) returns (e: Emitted)
    ensures e.command == if inShell then LEAVE else QUIT
    ensures Loop([], WithPending(inShell, [], emitted), i)
         == Loop([], Machine(if inShell then IN_KERNEL else [], [], emitted + [e]), i + 2)
  {
    hide Loop;
    BuiltInLines();
    var m := WithPending(inShell, [], emitted);
    var body := if inShell then "exit" else "q";
    RetopBuiltIn(inShell, body);
    var m1 := m.(pending := [Inserted(if inShell then "$ exit" else "q")]);
    LoopTakes(m, i, m1);
    var m2 := Emit([], m1, body);
    LoopTakes(m1, i + 1, m2);
    assert m2.pending == [];
    e := m2.emitted[|emitted|];
  }

  /** So the compiler leaves the shell and quits. */
  lemma Shutdown(inShell: bool, emitted: seq<Emitted>, i: nat)
    ensures Matches(Loop([], WithPending(inShell, [], emitted), i), emitted, i + Cost([], inShell),
                    Expected([], inShell))
    decreases inShell
  {
    hide Loop;
    var e := LeavingTakesTwo(inShell, emitted, i);
    if inShell {
      Shutdown(false, emitted + [e], i + 2);
      assert Expected([], true).value == [LEAVE] + Expected([], false).value;
    } else {
      QuitEnds([], emitted + [e], i + 2);
    }
  }

  lemma QuitEnds(rest: seq<Line>, emitted: seq<Emitted>, i: nat)
    ensures Loop([], Machine([], rest, emitted), i) ==
      if i >= MAX_EXPANSION_LOOPS then Err(InfiniteLoop)
      else if |rest| == 0 then Ok(emitted)
      else Err(PrematureExit)
  {
  }

  /** The iterations the loop needs, the one that ends it included. */
  function Cost(lines: seq<string>, inShell: bool): nat {
    if lines == [] then if inShell then 5 else 3
    else if LineError(lines[0]) != None then 1
    else
      2 * |Switch(lines[0], inShell)| + 1 +
      if Quits(lines[0]) then 1 else Cost(lines[1..], InShellAfter(lines[0]))
  }

  /** The loop ends as expected if it ends by iteration last, and otherwise
      reports an infinite loop. */
  ghost predicate Matches(r: Result<seq<Emitted>, ConfError>, emitted: seq<Emitted>, last: nat,
                          expected: Result<seq<Command>, ConfError>) {
    if last > MAX_EXPANSION_LOOPS then r == Err(InfiniteLoop)
    else match expected
         case Err(error) => r == Err(error)
         case Ok(commands) => r.Ok? && Commands(r.value) == Commands(emitted) + commands
  }

  /** Where the loop stands after a line that needed no switch or got it. */
  function AfterLine(line: string, rest: seq<Line>, emitted: seq<Emitted>): Machine {
    if Quits(line) then Machine([], rest, emitted)
    else Machine(StackFor(InShellAfter(line)), rest, emitted)
  }

  lemma SwitchThenLine(line: Line, rest: seq<Line>, emitted: seq<Emitted>, i: nat) returns (after: seq<Emitted>)
    requires LineError(line.text) == None
    ensures Commands(after) == Commands(emitted) + (Switch(line.text, !IsShellLine(line.text)) + [Own(line.text)])
    ensures Loop([], WithPending(!IsShellLine(line.text), [line] + rest, emitted), i)
         == Loop([], AfterLine(line.text, rest, after), i + 3)
  {
    hide Loop, LineError, IsShellLine, AfterLine, WithPending, Commands, Own;
    var switch := SwitchTakesTwo(line, rest, emitted, i);
    var e := LineTakesOne(line, rest, emitted + [switch], i + 2);
    after := emitted + [switch] + [e];
    CommandsMore(emitted, after, Switch(line.text, !IsShellLine(line.text)) + [Own(line.text)]);
  }

  /** A line takes at most three iterations: the switch if needed, then the line. */
  lemma LineTakesThree(line: Line, rest: seq<Line>, inShell: bool, emitted: seq<Emitted>, i: nat)
    returns (after: seq<Emitted>, j: nat)
    requires LineError(line.text) == None
    ensures j == i + 2 * |Switch(line.text, inShell)| + 1
    ensures Commands(after) == Commands(emitted) + (Switch(line.text, inShell) + [Own(line.text)])
    ensures Loop([], WithPending(inShell, [line] + rest, emitted), i) == Loop([], AfterLine(line.text, rest, after), j)
  {
    if IsShellLine(line.text) == inShell {
      var e := LineTakesOne(line, rest, emitted, i);
      after, j := emitted + [e], i + 1;
      CommandsMore(emitted, after, [Own(line.text)]);
      assert [] + [Own(line.text)] == [Own(line.text)];
    } else {
      after := SwitchThenLine(line, rest, emitted, i);
      j := i + 3;
    }
  }

  lemma CommandsMore(before: seq<Emitted>, after: seq<Emitted>, commands: seq<Command>)
    requires |after| == |before| + |commands| && before <= after
    requires forall k :: 0 <= k < |commands| ==> after[|before| + k].command == commands[k]
    ensures Commands(after) == Commands(before) + commands
  {
  }

  lemma MatchesMore(r: Result<seq<Emitted>, ConfError>, emitted: seq<Emitted>, after: seq<Emitted>, last: nat,
                    here: seq<Command>, expected: Result<seq<Command>, ConfError>)
    requires Commands(after) == Commands(emitted) + here && Matches(r, after, last, expected)
    ensures Matches(r, emitted, last, if expected.Ok? then Ok(here + expected.value) else expected)
  {
  }

  lemma BadLineFails(pending: seq<Line>, inShell: bool, emitted: seq<Emitted>, i: nat)
    requires |pending| > 0 && LineError(pending[0].text).Some?
    ensures Loop([], WithPending(inShell, pending, emitted), i) ==
      if i >= MAX_EXPANSION_LOOPS then Err(InfiniteLoop) else Err(LineError(pending[0].text).value)
  {
    assert FindConf([], SplitPrefix(TrimSpace(pending[0].text)).0) == None;
  }

  lemma {:induction false} LoopMatches(pending: seq<Line>, lines: seq<string>, inShell: bool, emitted: seq<Emitted>,
                                       i: nat)
    requires Texts(pending) == lines
    ensures Matches(Loop([], WithPending(inShell, pending, emitted), i), emitted, i + Cost(lines, inShell),
                    Expected(lines, inShell))
    decreases |lines|
  {
    hide Loop, Own, LineError, Switch, IsShellLine, InShellAfter, StackFor;
    if lines == [] {
      Shutdown(inShell, emitted, i);
    } else {
      var line, rest := pending[0], pending[1..];
      assert pending == [line] + rest && lines[0] == line.text;
      if LineError(line.text) == None {
        var after, j := LineTakesThree(line, rest, inShell, emitted, i);
        if Quits(line.text) {
          QuitEnds(rest, after, j);
        } else {
          assert Texts(rest) == lines[1..];
          LoopMatches(rest, lines[1..], InShellAfter(line.text), after, j);
          MatchesMore(Loop([], WithPending(InShellAfter(line.text), rest, after), j), emitted, after,
                      i + Cost(lines, inShell),
                      Switch(line.text, inShell) + [Own(line.text)], Expected(lines[1..], InShellAfter(line.text)));
        }
      } else {
        BadLineFails(pending, inShell, emitted, i);
      }
    }
  }

  /** With the kernel and shell alone the compiler produces exactly the expected
      commands or error when the loop can end within its limit, and reports an
      infinite loop when it cannot. */
  lemma CompilesAsExpected(lines: seq<string>)
    ensures Cost(lines, false) > MAX_EXPANSION_LOOPS ==> Compile([], lines) == Err(InfiniteLoop)
    ensures Cost(lines, false) <= MAX_EXPANSION_LOOPS ==>
      match Expected(lines, false)
      case Err(error) => Compile([], lines) == Err(error)
      case Ok(commands) => Compile([], lines).Ok? && Commands(Compile([], lines).value) == commands
  {
    hide Loop, Cost, Expected;
    assert Texts(UserLines(lines)) == lines;
    assert Compile([], lines) == Loop([], WithPending(false, UserLines(lines), []), 0);
    LoopMatches(UserLines(lines), lines, false, [], 0);
    assert Commands([]) == [];
    hide Commands, Compile;
    if Expected(lines, false).Ok? {
      assert Commands([]) + Expected(lines, false).value == Expected(lines, false).value;
    }
  }

  lemma {:induction false} CostIsBounded(lines: seq<string>, inShell: bool)
    ensures Cost(lines, inShell) <= 3 * |lines| + 5
  {
    if lines != [] {
      CostIsBounded(lines[1..], InShellAfter(lines[0]));
    }
  }

  lemma {:induction false} ExpectedStops(lines: seq<string>, inShell: bool)
    ensures Expected(lines, inShell) != Err(InfiniteLoop)
  {
    if lines != [] {
      ExpectedStops(lines[1..], InShellAfter(lines[0]));
    }
  }

  /** n lines need at most 3n+5 iterations, so up to 339 lines never hit the limit. */
  lemma FewLinesNeverLoop(lines: seq<string>)
    requires |lines| <= 339
    ensures Compile([], lines) != Err(InfiniteLoop)
  {
    CompilesAsExpected(lines);
    CostIsBounded(lines, false);
    ExpectedStops(lines, false);
  }

  /** 339 is the largest such number: a shell command followed by 339 lines that
      each start a new shell needs 1025 iterations. */
  lemma LimitIsSharp()
    ensures var lines := ["$ a"] + Repeat("s", 339);
      |lines| == 340 && Compile([], lines) == Err(InfiniteLoop)
  {
    var lines := ["$ a"] + Repeat("s", 339);
    BuiltInLines();
    CleanTrim("$ a");
    assert "$ a"[1..] == " " + "a" && "$ a"[..1] == "$";
    SpaceTrim("a");
    assert lines[1..] == Repeat("s", 339);
    RestartsCostThree(339);
    CompilesAsExpected(lines);
  }

  function Repeat(line: string, n: nat): seq<string> {
    seq(n, _ => line)
  }

  lemma StartsShell()
    ensures LineError("s") == None && !Quits("s") && InShellAfter("s") && Switch("s", true) == [LEAVE]
  {
    BuiltInLines();
  }

  lemma {:induction false} RestartsCostThree(n: nat)
    ensures Cost(Repeat("s", n), true) == 3 * n + 5
  {
    hide LineError, Quits, Switch, InShellAfter;
    StartsShell();
    if n > 0 {
      assert Repeat("s", n)[1..] == Repeat("s", n - 1);
      RestartsCostThree(n - 1);
    }
  }

  /** Compilation succeeds exactly when every line has a body and a known prefix
      and no line but the last quits the kernel. */
  lemma {:induction false} ExpectedSucceeds(lines: seq<string>, inShell: bool)
    ensures Expected(lines, inShell).Ok? <==>
      forall k :: 0 <= k < |lines| ==> LineError(lines[k]) == None && (k < |lines| - 1 ==> !Quits(lines[k]))
  {
    if lines != [] {
      ExpectedSucceeds(lines[1..], InShellAfter(lines[0]));
      assert forall k :: 0 < k < |lines| ==> lines[k] == lines[1..][k - 1];
      assert forall k :: 0 <= k < |lines| - 1 ==> lines[1..][k] == lines[k + 1];
    }
  }

  /** With kernel and shell only, a list of at most 339 lines compiles exactly when
      every line has a body and a known prefix and no line but the last quits the
      kernel; a longer one may also hit the limit. */
  lemma CompilesExactlyWhen(lines: seq<string>)
    ensures Compile([], lines).Ok? <==>
      && Cost(lines, false) <= MAX_EXPANSION_LOOPS
      && forall k :: 0 <= k < |lines| ==> LineError(lines[k]) == None && (k < |lines| - 1 ==> !Quits(lines[k]))
    ensures |lines| <= 339 ==> Cost(lines, false) <= MAX_EXPANSION_LOOPS
  {
    hide Compile, Cost, Expected, LineError, Quits;
    CompilesAsExpected(lines);
    ExpectedSucceeds(lines, false);
    CostIsBounded(lines, false);
  }

  // ----- Pointer identity -----

  /** Only the bottom of the stack is a global: everything pushed is a copy. */
  ghost predicate Rooted(stack: seq<ConfRef>) {
    forall k :: 0 <= k < |stack| ==>
      (stack[k].Global? <==> k == |stack| - 1) && (stack[k].Global? ==> stack[k] == Global(KERNEL))
  }

  lemma StepKeepsRooted(confs: seq<CommandConf>, m: Machine)
    requires Rooted(m.stack) && Step(confs, m).Continue?
    ensures Rooted(Step(confs, m).next.stack)
  {
  }

  /** Where the loop stands after n iterations, if it gets that far. */
  ghost function Reached(confs: seq<CommandConf>, lines: seq<string>, n: nat): Option<Machine> {
    if n == 0 then Some(Start(lines))
    else match Reached(confs, lines, n - 1)
         case None => None
         case Some(m) => if Step(confs, m).Continue? then Some(Step(confs, m).next) else None
  }

  lemma {:induction false} ReachedIsRooted(confs: seq<CommandConf>, lines: seq<string>, n: nat)
    requires Reached(confs, lines, n).Some?
    ensures Rooted(Reached(confs, lines, n).value.stack)
  {
    hide Step, Rooted;
    if n == 0 {
      StartIsRooted(lines);
    } else {
      ReachedIsRooted(confs, lines, n - 1);
      StepKeepsRooted(confs, Reached(confs, lines, n - 1).value);
    }
  }

  lemma StartIsRooted(lines: seq<string>)
    ensures Rooted(Start(lines).stack)
  {
  }

  /** So in every machine the loop reaches the search of the stack finds the kernel
      and nothing else: a line for a shell that is on the stack, but not on top,
      starts that shell again. */
  lemma OnlyKernelIsFound(confs: seq<CommandConf>, lines: seq<string>, n: nat)
    requires Reached(confs, lines, n).Some?
    ensures var m := Reached(confs, lines, n).value;
      |m.stack| > 0 && |m.pending| > 0 && TrimSpace(m.pending[0].text) != "" ==>
        var (_, target) := ConfFromLine(confs, TrimSpace(m.pending[0].text));
        target.Some? && target.value.conf != m.stack[0].conf ==>
          Step(confs, m) == Continue(m.(pending := [Inserted(
            if target.value == Global(KERNEL) then ExitLine(m.stack[0].conf)
            else target.value.conf.start)] + m.pending))
  {
    hide Reached, ConfFromLine;
    ReachedIsRooted(confs, lines, n);
    var m := Reached(confs, lines, n).value;
    if |m.stack| > 0 && |m.pending| > 0 {
      var (_, target) := ConfFromLine(confs, TrimSpace(m.pending[0].text));
      if target == Some(Global(KERNEL)) {
        assert m.stack[|m.stack| - 1] == target.value;
      }
    }
  }
}
