/** Entering and leaving configured environments: what the compiled commands are when
    shells other than the built-in one are configured. */
module Environments {
  import opened Wrappers
  import opened Text
  import opened CommandList
  import opened ConfCheck

  /** The environment a prefix names. */
  function Named(confs: seq<CommandConf>, prefix: string): Option<CommandConf> {
    if prefix == "" then Some(KERNEL)
    else if prefix == "$" then Some(SHELL)
    else match FindConf(confs, prefix)
         case None => None
         case Some(ref) => Some(ref.conf)
  }

  /** The environment one is in when typing the start line of c. */
  function Parent(confs: seq<CommandConf>, c: CommandConf): Option<CommandConf> {
    Named(confs, PrefixOf(c.start))
  }

  function StartBody(c: CommandConf): string {
    SplitPrefix(c.start).1
  }

  predicate Known(confs: seq<CommandConf>, c: CommandConf) {
    c == SHELL || c in confs
  }

  // ----- What typing a start line does -----

  /** The start line is its prefix and its body with one space between, or the body
      alone. */
  predicate Canonical(c: CommandConf) {
    c.start == if PrefixOf(c.start) == "" then StartBody(c) else PrefixOf(c.start) + " " + StartBody(c)
  }

  lemma {:induction false} StartedIsFirst(all: seq<CommandConf>, current: CommandConf, body: string)
    ensures var line := TrimSpace(current.prefix + " " + body);
      match Started(all, current, body)
      case None => forall k :: 0 <= k < |all| ==> all[k].start != line
      case Some(c) => exists k :: 0 <= k < |all| && all[k] == c && c.start == line
                        && forall j :: 0 <= j < k ==> all[j].start != line
  {
    var line := TrimSpace(current.prefix + " " + body);
    if all != [] && all[0].start != line {
      StartedIsFirst(all[1..], current, body);
      match Started(all, current, body) {
        case None =>
          forall k | 0 <= k < |all| ensures all[k].start != line {
            assert k > 0 ==> all[k] == all[1..][k - 1];
          }
        case Some(c) =>
          var k :| 0 <= k < |all| - 1 && all[1..][k] == c && c.start == line
            && forall j :: 0 <= j < k ==> all[1..][j].start != line;
          forall j | 0 <= j < k + 1 ensures all[j].start != line {
            assert j > 0 ==> all[j] == all[1..][j - 1];
          }
          assert all[k + 1] == c;
      }
    }
  }

  /** Trimming takes a part out of the line. */
  lemma {:induction false} TrimRightIsPart(s: string)
    ensures exists n :: 0 <= n <= |s| && TrimRight(s) == s[..n]
  {
    if |s| > 0 && IsSpace(s[|s| - 1]) {
      TrimRightIsPart(s[..|s| - 1]);
      var n :| 0 <= n <= |s| - 1 && TrimRight(s) == s[..|s| - 1][..n];
      assert s[..|s| - 1][..n] == s[..n];
    } else {
      assert s[..|s|] == s;
    }
  }

  /** A line with something on it does not trim to nothing. */
  lemma {:induction false} TrimKeepsSome(s: string, k: nat)
    requires k < |s| && !IsSpace(s[k])
    ensures TrimSpace(s) != ""
  {
    if IsSpace(s[0]) {
      TrimKeepsSome(s[1..], k - 1);
    } else {
      TrimRightProperties(s);
    }
  }

  lemma {:induction false} TrimFindsSome(s: string) returns (k: nat)
    requires |TrimSpace(s)| > 1
    ensures 0 < k < |s| && !IsSpace(s[k])
  {
    if IsSpace(s[0]) {
      k := TrimFindsSome(s[1..]);
      k := k + 1;
    } else {
      TrimRightProperties(s);
      k := |TrimSpace(s)| - 1;
    }
  }

  /** The body of a line is clean, and empty only if the line is blank. */
  lemma BodyIsSolid(line: string)
    ensures Clean(SplitPrefix(line).1)
    ensures TrimSpace(line) != "" ==> SplitPrefix(line).1 != ""
  {
    TrimIsClean(line);
    if SplitPrefix(line).0 != "" {
      TrimIsClean(line[1..]);
      var k := TrimFindsSome(line);
      TrimKeepsSome(line[1..], k - 1);
    }
  }

  lemma SpacedIsClean(prefix: string, body: string)
    requires |prefix| == 1 && IsPrefixChar(prefix[0]) && Clean(body) && body != ""
    ensures Clean(prefix + " " + body) && TrimSpace(prefix + " " + body) == prefix + " " + body
    ensures SplitPrefix(prefix + " " + body) == (prefix, body)
  {
    var line := prefix + " " + body;
    assert line[0] == prefix[0] && line[1] == ' ' && line[|line| - 1] == body[|body| - 1];
    CleanTrim(line);
    assert line[..1] == prefix && line[1..] == " " + body;
    SpaceTrim(body);
  }

  lemma PrefixIsShort(line: string)
    ensures PrefixOf(line) == "" || (|PrefixOf(line)| == 1 && IsPrefixChar(PrefixOf(line)[0]))
  {
    PrefixLength(line);
  }

  lemma {:induction false} FoundHasPrefix(confs: seq<CommandConf>, prefix: string)
    ensures FindConf(confs, prefix).Some? ==>
      FindConf(confs, prefix).value.conf.prefix == prefix && FindConf(confs, prefix).value.conf in confs
  {
    if confs != [] {
      FoundHasPrefix(confs[1..], prefix);
    }
  }

  lemma NamedHasPrefix(confs: seq<CommandConf>, prefix: string)
    ensures Named(confs, prefix).Some? ==> Named(confs, prefix).value.prefix == prefix
  {
    FoundHasPrefix(confs, prefix);
  }

  /** The line that is compared with the start lines when the body of c's is typed where
      its prefix says. */
  lemma TypedStart(confs: seq<CommandConf>, c: CommandConf)
    requires Parent(confs, c).Some?
    ensures TrimSpace(Parent(confs, c).value.prefix + " " + StartBody(c)) == c.start <==> Canonical(c)
  {
    var p, b := PrefixOf(c.start), StartBody(c);
    NamedHasPrefix(confs, p);
    BodyIsSolid(c.start);
    PrefixIsShort(c.start);
    if p == "" {
      assert "" + " " + b == " " + b;
      SpaceTrim(b);
    } else {
      SpacedIsClean(p, b);
    }
  }

  /** Typed in the environment that its prefix names, the start line of an accepted
      configuration puts a copy of that configuration on top exactly when the line is
      canonical, does not leave that environment, and starts no earlier
      configuration. */
  lemma StartEnters(confs: seq<CommandConf>, k: nat, stack: seq<ConfRef>)
    requires Acceptable(confs) && k < |confs| && |stack| > 0
    requires Parent(confs, confs[k]) == Some(stack[0].conf)
    ensures Retop(confs, stack, StartBody(confs[k])) == [Fresh(confs[k])] + stack <==>
      && Canonical(confs[k]) && StartBody(confs[k]) != stack[0].conf.end
      && forall j :: 0 <= j < k ==> confs[j].start != confs[k].start
  {
    hide Started, TrimSpace, SplitPrefix, Canonical, Named;
    var c, env, body := confs[k], stack[0].conf, StartBody(confs[k]);
    var all := AllConfs(confs);
    StartedIsFirst(all, env, body);
    TypedStart(confs, c);
    assert all[k] == c && IsSound(c);
    forall j | 0 <= j < |all| && all[j] == c ensures j == k {
      assert j < |confs| ==> all[j] == confs[j];
    }
    assert forall j :: 0 <= j < k ==> all[j] == confs[j];
  }

  // ----- Stacks of environments -----

  /** The way from the kernel to an environment, each entered from the one before;
      None if it takes more than n steps. */
  function PathTo(confs: seq<CommandConf>, c: CommandConf, n: nat): Option<seq<CommandConf>>
    decreases n
  {
    if c == KERNEL then Some([KERNEL])
    else if n == 0 || Parent(confs, c) == None then None
    else match PathTo(confs, Parent(confs, c).value, n - 1)
         case None => None
         case Some(path) => Some(path + [c])
  }

  /** The environment can be entered from the kernel, and left again. */
  ghost predicate Works(confs: seq<CommandConf>, c: CommandConf) {
    && Clean(c.end) && c.end != ""
    && Canonical(c) && Parent(confs, c).Some? && StartBody(c) != Parent(confs, c).value.end
    && PathTo(confs, c, |confs| + 1).Some?
  }

  /** Accepted configurations in which each environment can be entered and left. */
  ghost predicate Regular(confs: seq<CommandConf>) {
    && Acceptable(confs)
    && (forall i :: 0 <= i < |confs| ==> Works(confs, confs[i]) && confs[i].start != SHELL.start)
    && (forall i, j :: 0 <= i < j < |confs| ==> confs[i].start != confs[j].start)
  }

  /** Environments one inside the other, the kernel at the bottom. */
  ghost predicate Nested(confs: seq<CommandConf>, env: seq<CommandConf>) {
    && |env| > 0 && env[|env| - 1] == KERNEL
    && forall i :: 0 <= i < |env| - 1 ==> Known(confs, env[i])
  }

  /** The stack of pointers for them: only the kernel's is to the original. */
  function StackOf(env: seq<CommandConf>): seq<ConfRef> {
    seq(|env|, i requires 0 <= i < |env| => if i == |env| - 1 then Global(env[i]) else Fresh(env[i]))
  }

  function At(env: seq<CommandConf>, pending: seq<Line>, emitted: seq<Emitted>): Machine {
    Machine(StackOf(env), pending, emitted)
  }

  /** The command that typing a body in the environment on top makes. */
  function Typed(confs: seq<CommandConf>, env: seq<CommandConf>, body: string): Command
    requires |env| > 0
  {
    var after := EnvAfter(confs, env, body);
    Command((if |after| > |env| then after[0].prefix else env[0].prefix) != "" || HasUserPrefix(body), body,
            if after == [] then None else Some(after[0].prompt))
  }

  lemma ShellWorks(confs: seq<CommandConf>)
    ensures Works(confs, SHELL) && Parent(confs, SHELL) == Some(KERNEL) && StartBody(SHELL) == "s"
    ensures PathTo(confs, SHELL, |confs| + 1) == Some([KERNEL, SHELL])
  {
    CleanTrim("s");
    CleanTrim("exit");
    assert [KERNEL] + [SHELL] == [KERNEL, SHELL];
  }

  lemma KnownIsNotKernel(confs: seq<CommandConf>, c: CommandConf)
    requires Acceptable(confs) && Known(confs, c)
    ensures c != KERNEL && c.prefix != "" && |c.prefix| == 1 && IsPrefixChar(c.prefix[0]) && c.start != ""
  {
    if c in confs {
      var i :| 0 <= i < |confs| && confs[i] == c;
      assert IsSound(confs[i]);
    }
  }

  lemma KnownWorks(confs: seq<CommandConf>, c: CommandConf)
    requires Regular(confs) && Known(confs, c)
    ensures Works(confs, c) && Named(confs, c.prefix) == Some(c)
  {
    hide Works;
    ShellWorks(confs);
    if c in confs && c != SHELL {
      var i :| 0 <= i < |confs| && confs[i] == c;
      PrefixNamesConf(confs, i);
      assert IsSound(confs[i]);
    }
  }

  lemma NamedIsKnown(confs: seq<CommandConf>, prefix: string)
    ensures Named(confs, prefix).Some? ==>
      Named(confs, prefix).value == KERNEL || Known(confs, Named(confs, prefix).value)
  {
    FoundHasPrefix(confs, prefix);
  }

  /** Only the kernel's own line finds its environment on the stack. */
  lemma FoundOnStack(confs: seq<CommandConf>, env: seq<CommandConf>, ref: ConfRef)
    requires Acceptable(confs) && Nested(confs, env) && (ref.Global? ==> ref.conf == KERNEL || ref.conf == SHELL)
    ensures ref.Global? && ref in StackOf(env) <==> ref == Global(KERNEL)
  {
    var stack := StackOf(env);
    assert stack[|env| - 1] == Global(KERNEL);
    if ref.Global? && ref in stack {
      var i :| 0 <= i < |stack| && stack[i] == ref;
      assert i == |env| - 1;
    }
  }

  // ----- Single steps -----

  /** What is asked of the next line: it is not blank and its prefix names c. */
  ghost predicate IsFor(confs: seq<CommandConf>, line: Line, c: CommandConf) {
    TrimSpace(line.text) != "" && Named(confs, SplitPrefix(TrimSpace(line.text)).0) == Some(c)
  }

  function BodyOfLine(line: Line): string {
    SplitPrefix(TrimSpace(line.text)).1
  }

  lemma LineNames(confs: seq<CommandConf>, line: Line, c: CommandConf)
    requires Acceptable(confs) && IsFor(confs, line, c)
    ensures var (body, target) := ConfFromLine(confs, TrimSpace(line.text));
      && body == BodyOfLine(line) && target.Some? && target.value.conf == c
      && (target.value.Global? ==> c == KERNEL || c == SHELL) && (c == KERNEL ==> target.value.Global?)
  {
    hide TrimSpace, SplitPrefix;
    var p := SplitPrefix(TrimSpace(line.text)).0;
    FoundHasPrefix(confs, p);
    if p != "" && p != "$" {
      FoundIsFresh(confs, p);
      KnownIsNotKernel(confs, c);
    }
  }

  lemma {:induction false} FoundIsFresh(confs: seq<CommandConf>, prefix: string)
    ensures FindConf(confs, prefix).Some? ==> FindConf(confs, prefix).value.Fresh?
  {
    if confs != [] {
      FoundIsFresh(confs[1..], prefix);
    }
  }

  /** A line for another environment makes the compiler insert one. */
  lemma Inserts(confs: seq<CommandConf>, env: seq<CommandConf>, pending: seq<Line>, emitted: seq<Emitted>,
                c: CommandConf)
    requires Acceptable(confs) && Nested(confs, env) && |pending| > 0 && IsFor(confs, pending[0], c) && c != env[0]
    ensures Step(confs, At(env, pending, emitted)) ==
      Continue(At(env, [Inserted(if c == KERNEL then ExitLine(env[0]) else c.start)] + pending, emitted))
  {
    hide TrimSpace, ConfFromLine, ExitLine, Acceptable, Named, IsFor;
    LineNames(confs, pending[0], c);
    LineIsThere(confs, pending[0], c);
    var (body, target) := ConfFromLine(confs, TrimSpace(pending[0].text));
    FoundOnStack(confs, env, target.value);
    assert StackOf(env)[0].conf == env[0];
  }

  lemma LineIsThere(confs: seq<CommandConf>, line: Line, c: CommandConf)
    requires IsFor(confs, line, c)
    ensures TrimSpace(line.text) != ""
  {
  }

  lemma RetopIs(confs: seq<CommandConf>, env: seq<CommandConf>, body: string)
    requires |env| > 0
    ensures Retop(confs, StackOf(env), body) == StackOf(EnvAfter(confs, env, body))
  {
    hide Started;
    assert StackOf(env)[0].conf == env[0];
    assert StackOf(env)[1..] == StackOf(env[1..]);
    match Started(AllConfs(confs), env[0], body)
    case None =>
    case Some(c) => assert [Fresh(c)] + StackOf(env) == StackOf([c] + env);
  }

  /** A line for the environment on top is typed there. */
  lemma Types(confs: seq<CommandConf>, env: seq<CommandConf>, pending: seq<Line>, emitted: seq<Emitted>)
    returns (e: Emitted)
    requires Acceptable(confs) && Nested(confs, env) && |pending| > 0 && IsFor(confs, pending[0], env[0])
    ensures e.command == Typed(confs, env, BodyOfLine(pending[0]))
    ensures Step(confs, At(env, pending, emitted)) ==
      Continue(At(EnvAfter(confs, env, BodyOfLine(pending[0])), pending[1..], emitted + [e]))
  {
    hide TrimSpace, ConfFromLine, ExitLine, Acceptable, Named, IsFor, Retop, EnvAfter;
    LineNames(confs, pending[0], env[0]);
    LineIsThere(confs, pending[0], env[0]);
    var body := BodyOfLine(pending[0]);
    var after := EnvAfter(confs, env, body);
    RetopIs(confs, env, body);
    assert StackOf(env)[0].conf == env[0] && (after != [] ==> StackOf(after)[0].conf == after[0]);
    e := Emitted(Typed(confs, env, body), env[0], pending[0].origin);
  }

  // ----- Leaving and entering -----

  /** The line that leaves an environment is for that environment, and its body is the
      command that leaves. */
  lemma ExitLineIsFor(confs: seq<CommandConf>, c: CommandConf, origin: int)
    requires Regular(confs) && (c == KERNEL || Known(confs, c))
    ensures IsFor(confs, Line(ExitLine(c), origin), c) && BodyOfLine(Line(ExitLine(c), origin)) == c.end
  {
    hide Works, Named, TrimSpace;
    if c == KERNEL {
      BuiltInLines();
      NamedKernel(confs);
    } else {
      KnownWorks(confs, c);
      KnownIsNotKernel(confs, c);
      EndIsClean(confs, c);
      SpacedIsClean(c.prefix, c.end);
    }
  }

  lemma NamedKernel(confs: seq<CommandConf>)
    ensures Named(confs, "") == Some(KERNEL)
  {
  }

  lemma EndIsClean(confs: seq<CommandConf>, c: CommandConf)
    requires Works(confs, c)
    ensures Clean(c.end) && c.end != ""
  {
  }

  /** Typing it takes the environment off. */
  lemma EndLeaves(confs: seq<CommandConf>, env: seq<CommandConf>)
    requires |env| > 0
    ensures EnvAfter(confs, env, env[0].end) == env[1..]
  {
  }

  lemma StepThenLoop(confs: seq<CommandConf>, m: Machine, i: nat, next: Machine)
    requires Step(confs, m) == Continue(next)
    ensures Loop(confs, m, i) == Loop(confs, next, i + 1)
  {
  }

  lemma NestedBelow(confs: seq<CommandConf>, env: seq<CommandConf>)
    requires Nested(confs, env) && |env| > 1
    ensures Nested(confs, env[1..]) && Known(confs, env[0]) && env[1..][|env| - 2] == env[|env| - 1]
  {
  }

  /** A line for the kernel takes one environment off in two iterations. */
  lemma LeaveTakesTwo(confs: seq<CommandConf>, env: seq<CommandConf>, pending: seq<Line>, emitted: seq<Emitted>, i: nat)
    returns (e: Emitted)
    requires Regular(confs) && Nested(confs, env) && |env| > 1 && |pending| > 0 && IsFor(confs, pending[0], KERNEL)
    ensures e.command == Typed(confs, env, env[0].end)
    ensures Loop(confs, At(env, pending, emitted), i) == Loop(confs, At(env[1..], pending, emitted + [e]), i + 2)
  {
    hide Loop, Step, IsFor, Works, Typed, ExitLine;
    NestedBelow(confs, env);
    KnownIsNotKernel(confs, env[0]);
    var leave := Inserted(ExitLine(env[0]));
    Inserts(confs, env, pending, emitted, KERNEL);
    ExitLineIsFor(confs, env[0], -1);
    e := Types(confs, env, [leave] + pending, emitted);
    assert ([leave] + pending)[1..] == pending;
    EndLeaves(confs, env);
    StepThenLoop(confs, At(env, pending, emitted), i, At(env, [leave] + pending, emitted));
    StepThenLoop(confs, At(env, [leave] + pending, emitted), i + 1, At(env[1..], pending, emitted + [e]));
  }

  /** The commands that leave all environments but the kernel. */
  function Leaving(confs: seq<CommandConf>, env: seq<CommandConf>): seq<Command> {
    if |env| <= 1 then [] else [Typed(confs, env, env[0].end)] + Leaving(confs, env[1..])
  }

  lemma {:induction false} UnwindTakes(confs: seq<CommandConf>, env: seq<CommandConf>, pending: seq<Line>,
                                       emitted: seq<Emitted>, i: nat)
    returns (es: seq<Emitted>)
    requires Regular(confs) && Nested(confs, env) && |pending| > 0 && IsFor(confs, pending[0], KERNEL)
    ensures Commands(es) == Leaving(confs, env)
    ensures Loop(confs, At(env, pending, emitted), i)
         == Loop(confs, At([KERNEL], pending, emitted + es), i + 2 * |es|)
    decreases |env|
  {
    hide Loop, IsFor, Regular, Typed;
    if |env| == 1 {
      es := [];
      assert env == [KERNEL] && emitted + [] == emitted;
    } else {
      var e := LeaveTakesTwo(confs, env, pending, emitted, i);
      NestedBelow(confs, env);
      var rest := UnwindTakes(confs, env[1..], pending, emitted + [e], i + 2);
      es := [e] + rest;
      assert emitted + es == emitted + [e] + rest;
      assert Commands(es) == [e.command] + Commands(rest);
    }
  }

  /** The start line of an environment is for its parent, and typing its body there puts
      the environment on top. */
  lemma StartLineIsFor(confs: seq<CommandConf>, c: CommandConf, origin: int)
    requires Regular(confs) && Known(confs, c)
    ensures Parent(confs, c).Some? && IsFor(confs, Line(c.start, origin), Parent(confs, c).value)
    ensures BodyOfLine(Line(c.start, origin)) == StartBody(c)
  {
    KnownWorks(confs, c);
    KnownIsNotKernel(confs, c);
    hide Named, Regular, PathTo, SplitPrefix;
    StartIsTrimmed(c);
  }

  lemma StartIsTrimmed(c: CommandConf)
    requires Canonical(c) && c.start != ""
    ensures TrimSpace(c.start) == c.start
  {
    PrefixIsShort(c.start);
    BodyIsSolid(c.start);
    if PrefixOf(c.start) == "" {
      CleanTrim(c.start);
    } else {
      assert c.start[0] == PrefixOf(c.start)[0];
      SpacedIsClean(PrefixOf(c.start), StartBody(c));
    }
  }

  lemma EnterPuts(confs: seq<CommandConf>, c: CommandConf, env: seq<CommandConf>)
    requires Regular(confs) && Known(confs, c) && |env| > 0 && Parent(confs, c) == Some(env[0])
    ensures EnvAfter(confs, env, StartBody(c)) == [c] + env
  {
    hide Started, TrimSpace, SplitPrefix, Canonical, Named, PathTo;
    KnownWorks(confs, c);
    KnownIsNotKernel(confs, c);
    TypedStart(confs, c);
    var all := AllConfs(confs);
    StartedIsFirst(all, env[0], StartBody(c));
    OnlyItsStart(confs, c);
  }

  lemma StartsDiffer(confs: seq<CommandConf>, i: nat, j: nat)
    requires Regular(confs) && i < j < |AllConfs(confs)|
    ensures AllConfs(confs)[i].start != AllConfs(confs)[j].start
  {
    hide Works;
    if i < |confs| {
      assert IsSound(confs[i]);
    }
  }

  lemma OnlyItsStart(confs: seq<CommandConf>, c: CommandConf)
    requires Regular(confs) && Known(confs, c)
    ensures c in AllConfs(confs) && forall d :: d in AllConfs(confs) && d.start == c.start ==> d == c
  {
    hide Regular;
    var all := AllConfs(confs);
    assert all[|confs|] == SHELL;
    assert c in all;
    var i :| 0 <= i < |all| && all[i] == c;
    forall d | d in all && d.start == c.start ensures d == c {
      var j :| 0 <= j < |all| && all[j] == d;
      if i < j {
        StartsDiffer(confs, i, j);
      } else if j < i {
        StartsDiffer(confs, j, i);
      }
    }
  }

  // ----- From one environment to another -----

  /** How to get to the last environment of a path: not at all when it is on top;
      otherwise get to the one before it, in the end by leaving everything, and type its
      start line there.  The commands, and the environments then. */
  function Route(confs: seq<CommandConf>, env: seq<CommandConf>, path: seq<CommandConf>)
    : (seq<Command>, seq<CommandConf>)
    requires |path| > 0 && |env| > 0
    ensures |Route(confs, env, path).1| > 0
  {
    var k := |path| - 1;
    if env[0] == path[k] then ([], env)
    else if k == 0 then (Leaving(confs, env), [KERNEL])
    else
      var (commands, there) := Route(confs, env, path[..k]);
      (commands + [Typed(confs, there, StartBody(path[k]))], [path[k]] + there)
  }

  /** Each environment of the path is entered from the one before. */
  ghost predicate IsPathOf(confs: seq<CommandConf>, path: seq<CommandConf>) {
    && |path| > 0 && path[0] == KERNEL
    && forall i :: 0 < i < |path| ==> Known(confs, path[i]) && Parent(confs, path[i]) == Some(path[i - 1])
  }

  lemma {:induction false} PathIsPath(confs: seq<CommandConf>, c: CommandConf, n: nat)
    requires (c == KERNEL || Known(confs, c)) && PathTo(confs, c, n).Some?
    ensures var path := PathTo(confs, c, n).value; IsPathOf(confs, path) && path[|path| - 1] == c
    decreases n
  {
    hide Named;
    if c != KERNEL {
      NamedIsKnown(confs, PrefixOf(c.start));
      PathIsPath(confs, Parent(confs, c).value, n - 1);
    }
  }

  lemma PathPrefix(confs: seq<CommandConf>, path: seq<CommandConf>)
    requires IsPathOf(confs, path) && |path| > 1
    ensures IsPathOf(confs, path[..|path| - 1])
    ensures Known(confs, path[|path| - 1]) && Parent(confs, path[|path| - 1]) == Some(path[..|path| - 1][|path| - 2])
  {
  }

  lemma NestedAbove(confs: seq<CommandConf>, c: CommandConf, env: seq<CommandConf>)
    requires Nested(confs, env) && Known(confs, c)
    ensures Nested(confs, [c] + env)
  {
  }

  lemma InsertsStart(confs: seq<CommandConf>, c: CommandConf, env: seq<CommandConf>, pending: seq<Line>,
                     emitted: seq<Emitted>, i: nat)
    requires Regular(confs) && Nested(confs, env) && Known(confs, c)
    requires |env| > 0 && env[0] != c && |pending| > 0 && IsFor(confs, pending[0], c)
    ensures Loop(confs, At(env, pending, emitted), i)
      == Loop(confs, At(env, [Inserted(c.start)] + pending, emitted), i + 1)
  {
    hide Loop, Step, IsFor, Regular, Nested, At;
    RegularIsAcceptable(confs);
    KnownIsNotKernel(confs, c);
    Inserts(confs, env, pending, emitted, c);
    StepThenLoop(confs, At(env, pending, emitted), i, At(env, [Inserted(c.start)] + pending, emitted));
  }

  lemma TypesStartLine(confs: seq<CommandConf>, c: CommandConf, env: seq<CommandConf>, pending: seq<Line>,
                       emitted: seq<Emitted>, i: nat)
    returns (e: Emitted)
    requires Regular(confs) && Nested(confs, env) && Known(confs, c)
    requires |env| > 0 && Parent(confs, c) == Some(env[0])
    ensures e.command == Typed(confs, env, StartBody(c)) && Nested(confs, [c] + env)
    ensures Loop(confs, At(env, [Inserted(c.start)] + pending, emitted), i)
         == Loop(confs, At([c] + env, pending, emitted + [e]), i + 1)
  {
    hide Loop, Step, IsFor, Regular, Nested, At, Typed, EnvAfter;
    RegularIsAcceptable(confs);
    StartLineIsFor(confs, c, -1);
    e := Types(confs, env, [Inserted(c.start)] + pending, emitted);
    EnterPuts(confs, c, env);
    NestedAbove(confs, c, env);
    assert ([Inserted(c.start)] + pending)[1..] == pending;
    StepThenLoop(confs, At(env, [Inserted(c.start)] + pending, emitted), i, At([c] + env, pending, emitted + [e]));
  }

  /** The compiler takes the route, in two iterations for each of its commands. */
  lemma {:induction false} RouteIsTaken(confs: seq<CommandConf>, env: seq<CommandConf>, path: seq<CommandConf>,
                                        pending: seq<Line>, emitted: seq<Emitted>, i: nat)
    returns (es: seq<Emitted>)
    requires Regular(confs) && Nested(confs, env) && IsPathOf(confs, path)
    requires |pending| > 0 && IsFor(confs, pending[0], path[|path| - 1])
    ensures var (commands, there) := Route(confs, env, path);
      && Commands(es) == commands && Nested(confs, there) && there[0] == path[|path| - 1]
      && Loop(confs, At(env, pending, emitted), i) == Loop(confs, At(there, pending, emitted + es), i + 2 * |es|)
    decreases |path|
  {
    hide Loop, Step, IsFor, Regular, IsPathOf, Typed, Nested, EnvAfter, At, StartBody, Parent, Known, Leaving;
    var k := |path| - 1;
    PathStart(confs, path);
    NestedHasTop(confs, env);
    if env[0] == path[k] {
      es := [];
      assert emitted + [] == emitted;
    } else if k == 0 {
      es := UnwindTakes(confs, env, pending, emitted, i);
      OnlyKernel(confs);
    } else {
      var c := path[k];
      PathPrefix(confs, path);
      InsertsStart(confs, c, env, pending, emitted, i);
      StartLineIsFor(confs, c, -1);
      var before := RouteIsTaken(confs, env, path[..k], [Inserted(c.start)] + pending, emitted, i + 1);
      var there := Route(confs, env, path[..k]).1;
      var e := TypesStartLine(confs, c, there, pending, emitted + before, i + 1 + 2 * |before|);
      es := before + [e];
      assert emitted + before + [e] == emitted + es;
      assert Commands(es) == Commands(before) + [e.command];
    }
  }

  lemma RegularIsAcceptable(confs: seq<CommandConf>)
    requires Regular(confs)
    ensures Acceptable(confs)
  {
  }

  lemma PathStart(confs: seq<CommandConf>, path: seq<CommandConf>)
    requires IsPathOf(confs, path)
    ensures |path| > 0 && path[0] == KERNEL
  {
  }

  lemma NestedHasTop(confs: seq<CommandConf>, env: seq<CommandConf>)
    requires Nested(confs, env)
    ensures |env| > 0
  {
  }

  lemma OnlyKernel(confs: seq<CommandConf>)
    ensures Nested(confs, [KERNEL])
  {
  }

  // ----- Whole lists of lines -----

  /** What is wrong with a line. */
  function Problem(confs: seq<CommandConf>, line: string): Option<ConfError> {
    if TrimSpace(line) == "" then Some(EmptyCommand)
    else if Named(confs, SplitPrefix(TrimSpace(line)).0) == None then Some(InvalidPrefix)
    else None
  }

  /** The way to the environment a line is for. */
  function WayTo(confs: seq<CommandConf>, line: string): (path: seq<CommandConf>)
    ensures |path| > 0
  {
    match Named(confs, SplitPrefix(TrimSpace(line)).0)
    case None => [KERNEL]
    case Some(c) =>
      match PathTo(confs, c, |confs| + 1)
      case None => [KERNEL]
      case Some(path) => if path == [] then [KERNEL] else path
  }

  /** What a line yields: the route to its environment and the line typed there; and
      the environments after it. */
  function Yield(confs: seq<CommandConf>, env: seq<CommandConf>, line: string)
    : (r: (seq<Command>, seq<CommandConf>))
    requires |env| > 0
    ensures |r.0| > 0
  {
    var (commands, there) := Route(confs, env, WayTo(confs, line));
    var body := SplitPrefix(TrimSpace(line)).1;
    (commands + [Typed(confs, there, body)], EnvAfter(confs, there, body))
  }

  /** The commands for the lines, starting in given environments: what each line yields,
      then what leaves everything, the kernel last. */
  function Output(confs: seq<CommandConf>, lines: seq<string>, env: seq<CommandConf>): Result<seq<Command>, ConfError>
    requires |env| > 0
  {
    if lines == [] then Ok(Leaving(confs, env) + [QUIT])
    else if Problem(confs, lines[0]).Some? then Err(Problem(confs, lines[0]).value)
    else
      var (here, after) := Yield(confs, env, lines[0]);
      if after == [] then if |lines| == 1 then Ok(here) else Err(PrematureExit)
      else match Output(confs, lines[1..], after)
           case Err(error) => Err(error)
           case Ok(rest) => Ok(here + rest)
  }

  /** The iterations that takes. */
  function Iterations(confs: seq<CommandConf>, lines: seq<string>, env: seq<CommandConf>): nat
    requires |env| > 0
  {
    if lines == [] then 2 * |env| + 1
    else if Problem(confs, lines[0]).Some? then 1
    else
      var (here, after) := Yield(confs, env, lines[0]);
      2 * |here| - 1 + if after == [] then 1 else Iterations(confs, lines[1..], after)
  }

  /** What is left after typing something is nothing or again nested. */
  lemma AfterIsNested(confs: seq<CommandConf>, env: seq<CommandConf>, body: string)
    requires Acceptable(confs) && Nested(confs, env) && Clean(body) && body != ""
    ensures var after := EnvAfter(confs, env, body);
      (after == [] <==> |env| == 1 && body == KERNEL.end) && (after != [] ==> Nested(confs, after))
  {
    hide Started, TrimSpace, Acceptable;
    if body == env[0].end {
      if |env| > 1 {
        NestedBelow(confs, env);
      }
    } else {
      var all := AllConfs(confs);
      StartedIsFirst(all, env[0], body);
      match Started(all, env[0], body)
      case None =>
      case Some(c) =>
        TrimKeepsSome(env[0].prefix + " " + body, |env[0].prefix| + 1);
        var k :| 0 <= k < |all| && all[k] == c;
        assert c != KERNEL;
        assert k < |confs| ==> c == confs[k];
        NestedAbove(confs, c, env);
    }
  }

  lemma FineLine(confs: seq<CommandConf>, line: Line)
    requires Regular(confs) && Problem(confs, line.text) == None
    ensures var path := WayTo(confs, line.text);
      IsPathOf(confs, path) && IsFor(confs, line, path[|path| - 1])
    ensures Clean(BodyOfLine(line)) && BodyOfLine(line) != ""
  {
    hide Works, TrimSpace, SplitPrefix;
    var p := SplitPrefix(TrimSpace(line.text)).0;
    NamedIsKnown(confs, p);
    TrimTwice(line.text);
    BodyIsSolid(TrimSpace(line.text));
    var c := Named(confs, p).value;
    if c != KERNEL {
      KnownWorks(confs, c);
      WorksHasPath(confs, c);
    }
    PathIsPath(confs, c, |confs| + 1);
  }

  lemma WorksHasPath(confs: seq<CommandConf>, c: CommandConf)
    requires Works(confs, c)
    ensures PathTo(confs, c, |confs| + 1).Some?
  {
  }

  lemma TrimTwice(line: string)
    ensures TrimSpace(TrimSpace(line)) == TrimSpace(line)
  {
    TrimIsClean(line);
    CleanTrim(TrimSpace(line));
  }

  lemma YieldIsTaken(confs: seq<CommandConf>, env: seq<CommandConf>, line: Line, rest: seq<Line>,
                     emitted: seq<Emitted>, i: nat)
    returns (es: seq<Emitted>)
    requires Regular(confs) && Nested(confs, env) && Problem(confs, line.text) == None
    ensures var (here, after) := Yield(confs, env, line.text);
      && Commands(es) == here && (after != [] ==> Nested(confs, after))
      && Loop(confs, At(env, [line] + rest, emitted), i)
         == Loop(confs, At(after, rest, emitted + es), i + 2 * |here| - 1)
  {
    hide Loop, Step, IsFor, Regular, IsPathOf, Typed, Nested, EnvAfter, WayTo, Problem, Route;
    var path, pending := WayTo(confs, line.text), [line] + rest;
    FineLine(confs, line);
    PathStart(confs, path);
    NestedHasTop(confs, env);
    RegularIsAcceptable(confs);
    var before := RouteIsTaken(confs, env, path, pending, emitted, i);
    var there := Route(confs, env, path).1;
    var e := Types(confs, there, pending, emitted + before);
    AfterIsNested(confs, there, BodyOfLine(line));
    es := before + [e];
    assert pending[1..] == rest && emitted + before + [e] == emitted + es;
    StepThenLoop(confs, At(there, pending, emitted + before), i + 2 * |before|,
                 At(EnvAfter(confs, there, BodyOfLine(line)), rest, emitted + es));
    assert Commands(es) == Commands(before) + [e.command];
  }

  /** With no lines left the environment on top is left in two iterations. */
  lemma LeavesTop(confs: seq<CommandConf>, env: seq<CommandConf>, emitted: seq<Emitted>, i: nat) returns (e: Emitted)
    requires Regular(confs) && Nested(confs, env)
    ensures |env| > 0 && e.command == Typed(confs, env, env[0].end)
    ensures Loop(confs, At(env, [], emitted), i) == Loop(confs, At(env[1..], [], emitted + [e]), i + 2)
  {
    hide Loop, IsFor, Regular, Typed, ExitLine;
    NestedHasTop(confs, env);
    RegularIsAcceptable(confs);
    if |env| > 1 {
      NestedBelow(confs, env);
    }
    var leave := Inserted(ExitLine(env[0]));
    ExitLineIsFor(confs, env[0], -1);
    e := Types(confs, env, [leave], emitted);
    EndLeaves(confs, env);
    assert [leave][1..] == [];
    InsertsLeave(confs, env, emitted);
    StepThenLoop(confs, At(env, [], emitted), i, At(env, [leave], emitted));
    StepThenLoop(confs, At(env, [leave], emitted), i + 1, At(env[1..], [], emitted + [e]));
  }

  /** So everything is left, the kernel last. */
  lemma {:induction false} FinishTakes(confs: seq<CommandConf>, env: seq<CommandConf>, emitted: seq<Emitted>, i: nat)
    requires Regular(confs) && Nested(confs, env)
    ensures Matches(Loop(confs, At(env, [], emitted), i), emitted, i + 2 * |env| + 1,
                    Ok(Leaving(confs, env) + [QUIT]))
    decreases |env|
  {
    hide Loop, Regular, Typed, At;
    var e := LeavesTop(confs, env, emitted, i);
    CommandsMore(emitted, emitted + [e], [e.command]);
    if |env| == 1 {
      assert env == [KERNEL] && env[1..] == [];
      QuitIsTyped(confs);
      Finishes(confs, emitted + [e], i + 2);
      assert [] + [QUIT] == [QUIT];
    } else {
      NestedBelow(confs, env);
      FinishTakes(confs, env[1..], emitted + [e], i + 2);
      var expected := Ok(Leaving(confs, env[1..]) + [QUIT]);
      MatchesMore(Loop(confs, At(env[1..], [], emitted + [e]), i + 2), emitted, emitted + [e], i + 2 * |env| + 1,
                  [e.command], expected);
      assert [e.command] + (Leaving(confs, env[1..]) + [QUIT]) == Leaving(confs, env) + [QUIT];
    }
  }

  lemma InsertsLeave(confs: seq<CommandConf>, env: seq<CommandConf>, emitted: seq<Emitted>)
    requires |env| > 0
    ensures Step(confs, At(env, [], emitted)) == Continue(At(env, [Inserted(ExitLine(env[0]))], emitted))
  {
    assert StackOf(env)[0].conf == env[0];
  }

  lemma QuitIsTyped(confs: seq<CommandConf>)
    ensures Typed(confs, [KERNEL], KERNEL.end) == QUIT
  {
  }

  lemma Finishes(confs: seq<CommandConf>, emitted: seq<Emitted>, i: nat)
    ensures Loop(confs, At([], [], emitted), i) == if i >= MAX_EXPANSION_LOOPS then Err(InfiniteLoop) else Ok(emitted)
  {
    assert StackOf([]) == [];
  }

  lemma Prematurely(confs: seq<CommandConf>, rest: seq<Line>, emitted: seq<Emitted>, i: nat)
    requires |rest| > 0
    ensures Loop(confs, At([], rest, emitted), i)
         == if i >= MAX_EXPANSION_LOOPS then Err(InfiniteLoop) else Err(PrematureExit)
  {
    assert StackOf([]) == [];
  }

  lemma ProblemFails(confs: seq<CommandConf>, env: seq<CommandConf>, pending: seq<Line>, emitted: seq<Emitted>, i: nat)
    requires |env| > 0 && |pending| > 0 && Problem(confs, pending[0].text).Some?
    ensures Loop(confs, At(env, pending, emitted), i)
         == if i >= MAX_EXPANSION_LOOPS then Err(InfiniteLoop) else Err(Problem(confs, pending[0].text).value)
  {
    hide TrimSpace, SplitPrefix, FindConf;
    assert StackOf(env) != [];
  }

  lemma {:induction false} OutputIsMade(confs: seq<CommandConf>, pending: seq<Line>, lines: seq<string>,
                                        env: seq<CommandConf>, emitted: seq<Emitted>, i: nat)
    requires Regular(confs) && Nested(confs, env) && Texts(pending) == lines
    ensures Matches(Loop(confs, At(env, pending, emitted), i), emitted, i + Iterations(confs, lines, env),
                    Output(confs, lines, env))
    decreases |lines|
  {
    hide Loop, Regular, Nested, Yield, Problem;
    NestedHasTop(confs, env);
    if lines == [] {
      assert pending == [];
      FinishTakes(confs, env, emitted, i);
    } else {
      var line, rest := pending[0], pending[1..];
      assert pending == [line] + rest && lines[0] == line.text;
      if Problem(confs, line.text).Some? {
        ProblemFails(confs, env, pending, emitted, i);
      } else {
        var es := YieldIsTaken(confs, env, line, rest, emitted, i);
        var (here, after) := Yield(confs, env, line.text);
        var j := i + 2 * |here| - 1;
        CommandsMore(emitted, emitted + es, here);
        if after == [] {
          if rest == [] {
            Finishes(confs, emitted + es, j);
          } else {
            Prematurely(confs, rest, emitted + es, j);
          }
        } else {
          assert Texts(rest) == lines[1..];
          OutputIsMade(confs, rest, lines[1..], after, emitted + es, j);
          MatchesMore(Loop(confs, At(after, rest, emitted + es), j), emitted, emitted + es,
                      i + Iterations(confs, lines, env), here, Output(confs, lines[1..], after));
        }
      }
    }
  }

  /** With any regular configuration the compiler produces exactly these commands or
      this error when the loop can end within its limit, and reports an infinite loop
      when it cannot. */
  lemma CompilesAsRouted(confs: seq<CommandConf>, lines: seq<string>)
    requires Regular(confs)
    ensures Iterations(confs, lines, [KERNEL]) > MAX_EXPANSION_LOOPS ==> Compile(confs, lines) == Err(InfiniteLoop)
    ensures Iterations(confs, lines, [KERNEL]) <= MAX_EXPANSION_LOOPS ==>
      match Output(confs, lines, [KERNEL])
      case Err(error) => Compile(confs, lines) == Err(error)
      case Ok(commands) => Compile(confs, lines).Ok? && Commands(Compile(confs, lines).value) == commands
  {
    hide Loop, Regular, Iterations, Output;
    assert Texts(UserLines(lines)) == lines;
    assert StackOf([KERNEL]) == [Global(KERNEL)];
    assert Compile(confs, lines) == Loop(confs, At([KERNEL], UserLines(lines), []), 0);
    OnlyKernel(confs);
    OutputIsMade(confs, UserLines(lines), lines, [KERNEL], [], 0);
    assert Commands([]) == [];
    hide Commands, Compile;
    if Output(confs, lines, [KERNEL]).Ok? {
      assert Commands([]) + Output(confs, lines, [KERNEL]).value == Output(confs, lines, [KERNEL]).value;
    }
  }

  // ----- When it succeeds, and what it then looks like -----

  /** The line shuts the kernel down. */
  predicate ShutsDown(line: string) {
    SplitPrefix(TrimSpace(line)) == ("", "q")
  }

  lemma YieldEnds(confs: seq<CommandConf>, env: seq<CommandConf>, line: string)
    requires Regular(confs) && Nested(confs, env) && Problem(confs, line) == None
    ensures var (here, after) := Yield(confs, env, line);
      (after == [] <==> ShutsDown(line)) && (after != [] ==> Nested(confs, after))
  {
    hide Loop, Step, Regular, IsPathOf, Typed, EnvAfter, TrimSpace, SplitPrefix, Named, WayTo, Route;
    var it := Line(line, 0);
    var path := WayTo(confs, line);
    FineLine(confs, it);
    PathStart(confs, path);
    RegularIsAcceptable(confs);
    var es := RouteIsTaken(confs, env, path, [it], [], 0);
    var there := Route(confs, env, path).1;
    AfterIsNested(confs, there, BodyOfLine(it));
    NamedHasPrefix(confs, SplitPrefix(TrimSpace(line)).0);
    KernelIsBottom(confs, there);
  }

  lemma KernelIsBottom(confs: seq<CommandConf>, env: seq<CommandConf>)
    requires Acceptable(confs) && Nested(confs, env)
    ensures |env| > 0 && (|env| == 1 <==> env[0].prefix == "")
  {
    if |env| > 1 {
      KnownIsNotKernel(confs, env[0]);
    }
  }

  lemma {:induction false} OutputSucceeds(confs: seq<CommandConf>, lines: seq<string>, env: seq<CommandConf>)
    requires Regular(confs) && Nested(confs, env)
    ensures Output(confs, lines, env).Ok? <==> forall k :: 0 <= k < |lines| ==>
      Problem(confs, lines[k]) == None && (k < |lines| - 1 ==> !ShutsDown(lines[k]))
    decreases |lines|
  {
    hide Regular, Problem, ShutsDown, Yield;
    if lines != [] && Problem(confs, lines[0]) == None {
      YieldEnds(confs, env, lines[0]);
      var after := Yield(confs, env, lines[0]).1;
      if after != [] {
        OutputSucceeds(confs, lines[1..], after);
        assert forall k :: 0 < k < |lines| ==> lines[k] == lines[1..][k - 1];
        assert forall k :: 0 <= k < |lines| - 1 ==> lines[1..][k] == lines[k + 1];
      }
    }
  }

  /** With a regular configuration a list of lines compiles exactly when each line has a
      body and a known prefix, none but the last shuts the kernel down, and the
      iterations fit the limit. */
  lemma CompilesRoutedWhen(confs: seq<CommandConf>, lines: seq<string>)
    requires Regular(confs)
    ensures Compile(confs, lines).Ok? <==>
      && Iterations(confs, lines, [KERNEL]) <= MAX_EXPANSION_LOOPS
      && forall k :: 0 <= k < |lines| ==>
        Problem(confs, lines[k]) == None && (k < |lines| - 1 ==> !ShutsDown(lines[k]))
  {
    hide Regular, Compile, Iterations, Output, Problem, ShutsDown;
    CompilesAsRouted(confs, lines);
    OnlyKernel(confs);
    OutputSucceeds(confs, lines, [KERNEL]);
  }

  /** What leaves an environment is its end command, answered by the prompt of the one
      below. */
  lemma {:induction false} LeavingIsEnds(confs: seq<CommandConf>, env: seq<CommandConf>, k: nat)
    requires Acceptable(confs) && Nested(confs, env) && k < |env| - 1
    ensures |Leaving(confs, env)| == |env| - 1
    ensures Leaving(confs, env)[k] == Command(true, env[k].end, Some(env[k + 1].prompt))
    decreases |env|
  {
    hide Acceptable, EnvAfter;
    NestedBelow(confs, env);
    EndLeaves(confs, env);
    KnownIsNotKernel(confs, env[0]);
    if |env| > 2 {
      LeavingIsEnds(confs, env[1..], if k == 0 then 0 else k - 1);
    }
  }

  /** The command is the start line of c, answered by c's prompt. */
  ghost predicate TypesStart(command: Command, c: CommandConf) {
    command.line == StartBody(c) && command.prompt == Some(c.prompt) && command.user
  }

  ghost predicate TypesStarts(commands: seq<Command>, path: seq<CommandConf>) {
    |commands| == |path| && forall i :: 0 <= i < |path| ==> TypesStart(commands[i], path[i])
  }

  lemma StartIsTyped(confs: seq<CommandConf>, env: seq<CommandConf>, c: CommandConf)
    requires Regular(confs) && Known(confs, c) && |env| > 0 && Parent(confs, c) == Some(env[0])
    ensures TypesStart(Typed(confs, env, StartBody(c)), c)
  {
    hide Regular, EnvAfter, StartBody;
    EnterPuts(confs, c, env);
    RegularIsAcceptable(confs);
    KnownIsNotKernel(confs, c);
  }

  /** What a route is made of: from an environment on the path the start lines of the rest
      of it; from any other what leaves everything above the kernel, then the start lines
      of the whole path. */
  ghost predicate LeavesThenStarts(confs: seq<CommandConf>, commands: seq<Command>, env: seq<CommandConf>,
                                   path: seq<CommandConf>)
    requires |env| > 0 && |path| > 0
  {
    if env[0] in path then
      exists j :: 0 <= j < |path| && path[j] == env[0] && TypesStarts(commands, path[j + 1..])
    else
      exists starts :: commands == Leaving(confs, env) + starts && TypesStarts(starts, path[1..])
  }

  lemma OneMoreStart(confs: seq<CommandConf>, commands: seq<Command>, env: seq<CommandConf>, path: seq<CommandConf>,
                     command: Command, c: CommandConf)
    requires |env| > 0 && |path| > 0 && env[0] != c
    requires LeavesThenStarts(confs, commands, env, path) && TypesStart(command, c)
    ensures LeavesThenStarts(confs, commands + [command], env, path + [c])
  {
    hide TypesStart, Leaving;
    if env[0] in path {
      var j :| 0 <= j < |path| && path[j] == env[0] && TypesStarts(commands, path[j + 1..]);
      assert (path + [c])[j] == env[0] && (path + [c])[j + 1..] == path[j + 1..] + [c];
      assert TypesStarts(commands + [command], (path + [c])[j + 1..]);
    } else {
      var starts :| commands == Leaving(confs, env) + starts && TypesStarts(starts, path[1..]);
      assert (path + [c])[1..] == path[1..] + [c];
      assert commands + [command] == Leaving(confs, env) + (starts + [command]);
      assert TypesStarts(starts + [command], (path + [c])[1..]);
    }
  }

  lemma AlreadyThere(confs: seq<CommandConf>, env: seq<CommandConf>, path: seq<CommandConf>)
    requires |env| > 0 && |path| > 0
    ensures env[0] == path[|path| - 1] ==> LeavesThenStarts(confs, [], env, path)
    ensures |path| == 1 && env[0] != path[0] ==> LeavesThenStarts(confs, Leaving(confs, env), env, path)
  {
    if env[0] == path[|path| - 1] {
      assert TypesStarts([], path[|path| - 1 + 1..]);
    } else if |path| == 1 {
      assert Leaving(confs, env) == Leaving(confs, env) + [] && TypesStarts([], path[1..]);
    }
  }

  lemma {:induction false} RouteIsStarts(confs: seq<CommandConf>, env: seq<CommandConf>, path: seq<CommandConf>)
    requires Regular(confs) && Nested(confs, env) && IsPathOf(confs, path)
    ensures var (commands, there) := Route(confs, env, path);
      LeavesThenStarts(confs, commands, env, path) && Nested(confs, there) && there[0] == path[|path| - 1]
    decreases |path|
  {
    hide Regular, IsPathOf, Nested, Typed, LeavesThenStarts, StartBody, Leaving;
    var k := |path| - 1;
    PathStart(confs, path);
    NestedHasTop(confs, env);
    AlreadyThere(confs, env, path);
    if env[0] != path[k] {
      OnlyKernel(confs);
      if k > 0 {
        PathPrefix(confs, path);
        RouteIsStarts(confs, env, path[..k]);
        var (before, below) := Route(confs, env, path[..k]);
        StartIsTyped(confs, below, path[k]);
        NestedAbove(confs, path[k], below);
        OneMoreStart(confs, before, env, path[..k], Typed(confs, below, StartBody(path[k])), path[k]);
        assert path == path[..k] + [path[k]];
      }
    }
  }

  // ----- A shell entered from the shell -----

  const BANG := CommandConf("!", "OS/161$ ", "$ /testbin/shll -p 30", "exit")

  lemma BangStart()
    ensures SplitPrefix(BANG.start) == ("$", "/testbin/shll -p 30")
  {
    hide TrimSpace, SplitPrefix;
    assert "$" + " " + "/testbin/shll -p 30" == BANG.start;
    SpacedIsClean("$", "/testbin/shll -p 30");
  }

  lemma BangEnd()
    ensures SplitPrefix("exit") == ("", "exit")
  {
    CleanTrim("exit");
  }

  lemma BangLine()
    ensures SplitPrefix("! exit") == ("!", "exit") && TrimSpace("! exit") == "! exit"
  {
    hide TrimSpace, SplitPrefix;
    assert "!" + " " + "exit" == "! exit";
    SpacedIsClean("!", "exit");
  }

  lemma BangIsAcceptable()
    ensures Acceptable([BANG]) && Named([BANG], "!") == Some(BANG) && Parent([BANG], BANG) == Some(SHELL)
  {
    hide TrimSpace, SplitPrefix;
    BangStart();
    BangEnd();
    assert IsSound([BANG][0]) && Enterable([BANG], [BANG][0]);
  }

  lemma BangPath()
    ensures PathTo([BANG], BANG, 2) == Some([KERNEL, SHELL, BANG])
  {
    hide TrimSpace, SplitPrefix, Parent;
    BangIsAcceptable();
    ShellWorks([BANG]);
    assert [KERNEL] + [SHELL] == [KERNEL, SHELL] && [KERNEL, SHELL] + [BANG] == [KERNEL, SHELL, BANG];
    assert PathTo([BANG], SHELL, 1) == Some([KERNEL, SHELL]);
  }

  lemma BangText()
    ensures "$" + " " + "/testbin/shll -p 30" == BANG.start
  {
  }

  lemma BangIsCanonical()
    ensures Canonical(BANG) && StartBody(BANG) == "/testbin/shll -p 30" && StartBody(BANG) != SHELL.end
  {
    hide TrimSpace, SplitPrefix;
    BangStart();
    BangText();
  }

  lemma BangWorks()
    ensures Works([BANG], BANG)
  {
    hide TrimSpace, SplitPrefix, Parent, PathTo, Acceptable, Canonical, StartBody;
    BangIsCanonical();
    BangIsAcceptable();
    BangPath();
    assert !IsSpace('e') && !IsSpace('t');
  }

  lemma OneIsRegular(c: CommandConf)
    requires Acceptable([c]) && Works([c], c) && c.start != SHELL.start
    ensures Regular([c]) && Known([c], c)
  {
    hide Works, Acceptable;
  }

  lemma BangIsRegular()
    ensures Regular([BANG]) && Known([BANG], BANG) && StartBody(BANG) == "/testbin/shll -p 30"
  {
    hide Works, Acceptable, StartBody, Regular, Known;
    BangIsAcceptable();
    BangIsCanonical();
    BangWorks();
    OneIsRegular(BANG);
  }

  const STARTS_BANG := Command(true, "/testbin/shll -p 30", Some(BANG.prompt))

  lemma ShellRoute()
    ensures Route([BANG], [KERNEL], [KERNEL, SHELL]) == ([ENTER], [SHELL, KERNEL])
  {
    hide Regular, EnvAfter, StartBody, Parent, Leaving, Works, PathTo, Acceptable;
    BangIsRegular();
    ShellWorks([BANG]);
    EnterPuts([BANG], SHELL, [KERNEL]);
    assert [KERNEL, SHELL][..1] == [KERNEL];
    assert Route([BANG], [KERNEL], [KERNEL]) == ([], [KERNEL]);
    assert [SHELL] + [KERNEL] == [SHELL, KERNEL] && [] + [ENTER] == [ENTER];
  }

  lemma BangRoute()
    ensures Route([BANG], [KERNEL], [KERNEL, SHELL, BANG]) == ([ENTER, STARTS_BANG], [BANG, SHELL, KERNEL])
  {
    hide Regular, EnvAfter, StartBody, Parent, Leaving, Works, PathTo, Acceptable;
    BangIsRegular();
    BangIsAcceptable();
    ShellRoute();
    EnterPuts([BANG], BANG, [SHELL, KERNEL]);
    assert [KERNEL, SHELL, BANG][..2] == [KERNEL, SHELL];
    assert [BANG] + [SHELL, KERNEL] == [BANG, SHELL, KERNEL] && [ENTER] + [STARTS_BANG] == [ENTER, STARTS_BANG];
  }

  lemma BangOutput()
    ensures Output([BANG], ["! exit"], [KERNEL]) ==
      Ok([ENTER, STARTS_BANG, Command(true, "exit", Some(SHELL.prompt)), LEAVE, QUIT])
    ensures Iterations([BANG], ["! exit"], [KERNEL]) == 10
  {
    hide TrimSpace, SplitPrefix, Named, PathTo, Route, EnvAfter;
    BangLine();
    BangIsAcceptable();
    BangPath();
    BangRoute();
    var there, below := [BANG, SHELL, KERNEL], [SHELL, KERNEL];
    EndLeaves([BANG], there);
    EndLeaves([BANG], below);
    assert there[1..] == below && below[1..] == [KERNEL] && ["! exit"][1..] == [];
    var leave := Command(true, "exit", Some(SHELL.prompt));
    assert [ENTER, STARTS_BANG] + [leave] == [ENTER, STARTS_BANG, leave];
    assert Yield([BANG], [KERNEL], "! exit") == ([ENTER, STARTS_BANG, leave], below);
    assert Leaving([BANG], [KERNEL]) == [] && [LEAVE] + [] == [LEAVE];
    assert Leaving([BANG], below) == [LEAVE] && [LEAVE] + [QUIT] == [LEAVE, QUIT];
    assert Output([BANG], [], below) == Ok([LEAVE, QUIT]);
    assert Iterations([BANG], [], below) == 5;
    assert [ENTER, STARTS_BANG, leave] + [LEAVE, QUIT] == [ENTER, STARTS_BANG, leave, LEAVE, QUIT];
  }

  /** Another shell, started from the built-in one, is entered and left again. */
  lemma BangCompiles()
    ensures Regular([BANG])
    ensures Compile([BANG], ["! exit"]).Ok? && Commands(Compile([BANG], ["! exit"]).value) ==
      [ENTER, STARTS_BANG, Command(true, "exit", Some(SHELL.prompt)), LEAVE, QUIT]
  {
    hide Compile, Output, Iterations, Regular;
    BangIsRegular();
    BangOutput();
    CompilesAsRouted([BANG], ["! exit"]);
  }

  // ----- An accepted configuration that cannot be entered -----

  const WIDE := CommandConf("!", "OS/161$ ", "$  x", "exit")

  lemma WideStart()
    ensures SplitPrefix(WIDE.start) == ("$", "x")
  {
    CleanTrim("$  x");
    assert "$  x"[..1] == "$" && "$  x"[1..] == " " + (" " + "x") && (" " + (" " + "x"))[1..] == " " + "x";
    SpaceTrim("x");
    assert TrimLeft(" " + (" " + "x")) == TrimLeft(" " + "x");
  }

  /** Two spaces after the prefix of a start line pass the check, yet typing the line's
      body where it says starts nothing. */
  lemma WideIsNotEntered()
    ensures Acceptable([WIDE]) && Parent([WIDE], WIDE) == Some(SHELL)
    ensures forall stack: seq<ConfRef> :: |stack| > 0 && stack[0].conf == SHELL ==>
      Retop([WIDE], stack, StartBody(WIDE)) != [Fresh(WIDE)] + stack
  {
    hide TrimSpace, SplitPrefix, Retop, Started;
    WideStart();
    BangEnd();
    assert IsSound([WIDE][0]) && Enterable([WIDE], [WIDE][0]);
    assert "$" + " " + "x" != "$  x";
    forall stack: seq<ConfRef> | |stack| > 0 && stack[0].conf == SHELL
      ensures Retop([WIDE], stack, StartBody(WIDE)) != [Fresh(WIDE)] + stack
    {
      StartEnters([WIDE], 0, stack);
    }
  }
}
