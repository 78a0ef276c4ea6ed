/** Prefixes of a line that only repeat it or put memory checks around it. */
module SimplePrefixes {
  import opened Wrappers
  import opened Text

  // Larger multipliers do not fit an int.
  const MAX_INT: nat := 0x7FFF_FFFF_FFFF_FFFF

  predicate IsDigit(c: char) {
    '0' <= c <= '9'
  }

  /** The number of digits a line starts with. */
  function Digits(s: string): (k: nat)
    ensures k <= |s|
  {
    if s != [] && IsDigit(s[0]) then 1 + Digits(s[1..]) else 0
  }

  function ValueOf(digits: string): nat
    requires forall i :: 0 <= i < |digits| ==> IsDigit(digits[i])
  {
    if digits == [] then 0
    else
      var k := |digits| - 1;
      assert IsDigit(digits[k]);
      10 * ValueOf(digits[..k]) + (digits[k] as int - '0' as int)
  }

  /** A number in decimal. */
  function Decimal(n: nat): (s: string)
    ensures |s| > 0 && forall i :: 0 <= i < |s| ==> IsDigit(s[i])
  {
    var last := [('0' as int + n % 10) as char];
    if n < 10 then last else Decimal(n / 10) + last
  }

  /** Digits are read as the number they write. */
  lemma {:induction false} ValueOfDecimal(n: nat)
    ensures ValueOf(Decimal(n)) == n
  {
    var s := Decimal(n);
    if n < 10 {
      assert s[..0] == "";
    } else {
      ValueOfDecimal(n / 10);
      assert s[..|s| - 1] == Decimal(n / 10);
    }
  }

  lemma {:induction false} DigitsAreDigits(s: string)
    ensures forall i :: 0 <= i < Digits(s) ==> IsDigit(s[i])
  {
    if s != [] && IsDigit(s[0]) {
      DigitsAreDigits(s[1..]);
      forall i | 0 < i < Digits(s) ensures IsDigit(s[i]) {
        assert s[i] == s[1..][i - 1];
      }
    }
  }

  /** What the pattern .* matches: everything up to a line break. */
  function ToLineEnd(s: string): (r: string)
    ensures |r| <= |s|
  {
    if s == [] || s[0] == '\n' then [] else [s[0]] + ToLineEnd(s[1..])
  }

  datatype Shape = Khu(rest: string) | Times(n: nat, rest: string) | Plain

  /** What prefix a trimmed line has. */
  function ShapeOf(s: string): (shape: Shape)
    ensures !shape.Plain? ==> |shape.rest| < |s|
  {
    if s != [] && s[0] == '|' then Khu(ToLineEnd(s[1..]))
    else
      var k := Digits(s);
      if 0 < k < |s| && s[k] == 'x' then
        DigitsAreDigits(s);
        Times(ValueOf(s[..k]), ToLineEnd(s[k + 1..]))
      else Plain
  }

  /** The lines one line stands for; None for a multiplier that is too large. */
  function Expand(line: string): Option<seq<string>> {
    match ShapeOf(TrimSpace(line))
    case Khu(rest) => Some(["khu", rest, "khu"])
    case Times(n, rest) => if n > MAX_INT then None else Some(seq(n, i => rest))
    case Plain => Some([TrimSpace(line)])
  }

  /** One pass over all lines. */
  function ExpandAll(lines: seq<string>): Option<seq<string>> {
    if lines == [] then Some([])
    else match (ExpandAll(lines[..|lines| - 1]), Expand(lines[|lines| - 1]))
         case (Some(before), Some(more)) => Some(before + more)
         case _ => None
  }

  method DoSimplePrefixes(inputCommands: seq<string>) returns (r: Option<seq<string>>)
    ensures r == ExpandAll(inputCommands)
  {
    var outputCommands := [];
    for k := 0 to |inputCommands|
      invariant ExpandAll(inputCommands[..k]) == Some(outputCommands)
    {
      assert inputCommands[..k + 1][..k] == inputCommands[..k];
      var command := TrimSpace(inputCommands[k]);
      match ShapeOf(command) {
        case Khu(rest) => outputCommands := outputCommands + ["khu", rest, "khu"];
        case Times(n, rest) =>
          if n > MAX_INT {
            FailureStays(inputCommands, k + 1);
            return None;
          }
          ghost var before := outputCommands;
          for i := 0 to n
            invariant outputCommands == before + seq(i, j => rest)
          {
            outputCommands := outputCommands + [rest];
          }
        case Plain => outputCommands := outputCommands + [command];
      }
    }
    assert inputCommands[..|inputCommands|] == inputCommands;
    r := Some(outputCommands);
  }

  lemma {:induction false} FailureStays(lines: seq<string>, k: nat)
    requires k <= |lines| && ExpandAll(lines[..k]) == None
    ensures ExpandAll(lines) == None
    decreases |lines| - k
  {
    if k < |lines| {
      assert lines[..k + 1][..k] == lines[..k];
      FailureStays(lines, k + 1);
    } else {
      assert lines[..k] == lines;
    }
  }

  function ExpandTwice(lines: seq<string>): Option<seq<string>> {
    match ExpandAll(lines)
    case None => None
    case Some(once) => ExpandAll(once)
  }

  method Simplify(inputCommands: seq<string>) returns (r: Option<seq<string>>)
    ensures r == ExpandTwice(inputCommands)
  {
    r := DoSimplePrefixes(inputCommands);
    if r.None? {
      return;
    }
    r := DoSimplePrefixes(r.value);
  }

  // ----- How deep prefixes may be nested -----

  /** The prefixes a line has one inside the other; a line repeated zero times has
      nothing inside. */
  function Depth(line: string): nat
    decreases |line|
  {
    TrimShrinks(line);
    match ShapeOf(TrimSpace(line))
    case Khu(rest) => 1 + Depth(rest)
    case Times(n, rest) => if n == 0 then 1 else 1 + Depth(rest)
    case Plain => 0
  }

  lemma TrimShrinks(s: string)
    ensures |TrimSpace(s)| <= |s|
  {
    TrimLeftProperties(s);
    TrimRightProperties(TrimLeft(s));
  }

  /** The lines are at most d deep, and one of them is. */
  ghost predicate Reach(lines: seq<string>, d: nat) {
    && (forall i :: 0 <= i < |lines| ==> Depth(lines[i]) <= d)
    && (d > 0 ==> exists i :: 0 <= i < |lines| && Depth(lines[i]) == d)
  }

  lemma KhuIsPlain()
    ensures Depth("khu") == 0
  {
    CleanTrim("khu");
  }

  lemma ReachSame(line: string, n: nat)
    requires n > 0
    ensures Reach(seq(n, i => line), Depth(line))
  {
    hide Depth;
    var out := seq(n, i => line);
    assert forall i :: 0 <= i < n ==> out[i] == line;
    assert out[0] == line;
  }

  lemma ReachBracketed(line: string)
    ensures Reach(["khu", line, "khu"], Depth(line))
  {
    KhuIsPlain();
    hide Depth;
    var out := ["khu", line, "khu"];
    assert Depth(out[1]) == Depth(line);
  }

  lemma TrimmedDepth(line: string)
    ensures Depth(TrimSpace(line)) == Depth(line)
  {
    TrimIsClean(line);
    CleanTrim(TrimSpace(line));
  }

  /** One pass takes exactly one prefix off every line. */
  lemma ExpandFlattens(line: string)
    requires Expand(line).Some?
    ensures Reach(Expand(line).value, if Depth(line) == 0 then 0 else Depth(line) - 1)
  {
    hide ShapeOf, TrimSpace, Reach;
    match ShapeOf(TrimSpace(line)) {
      case Khu(rest) =>
        ReachBracketed(rest);
      case Times(n, rest) =>
        if n == 0 {
          NoLines();
          assert Expand(line).value == [];
        } else {
          ReachSame(rest, n);
        }
      case Plain =>
        TrimmedDepth(line);
        ReachSame(TrimSpace(line), 1);
        assert Expand(line).value == seq(1, i => TrimSpace(line));
    }
  }

  function MaxDepth(lines: seq<string>): nat {
    if lines == [] then 0
    else
      var before, last := MaxDepth(lines[..|lines| - 1]), Depth(lines[|lines| - 1]);
      if before < last then last else before
  }

  lemma {:induction false} MaxDepthIs(lines: seq<string>)
    ensures Reach(lines, MaxDepth(lines))
  {
    hide Depth;
    if lines != [] {
      var k := |lines| - 1;
      MaxDepthIs(lines[..k]);
      if i :| 0 <= i < k && Depth(lines[..k][i]) == MaxDepth(lines[..k]) {
        assert Depth(lines[i]) == MaxDepth(lines[..k]);
      }
    }
  }

  lemma ReachConcat(a: seq<string>, d: nat, b: seq<string>, e: nat)
    requires Reach(a, d) && Reach(b, e)
    ensures Reach(a + b, if d < e then e else d)
  {
    hide Depth;
    if d > 0 {
      var i :| 0 <= i < |a| && Depth(a[i]) == d;
      assert (a + b)[i] == a[i];
    }
    if e > 0 {
      var i :| 0 <= i < |b| && Depth(b[i]) == e;
      assert (a + b)[|a| + i] == b[i];
    }
  }

  lemma {:induction false} PassFlattens(lines: seq<string>)
    requires ExpandAll(lines).Some?
    ensures Reach(ExpandAll(lines).value, if MaxDepth(lines) == 0 then 0 else MaxDepth(lines) - 1)
  {
    hide Depth, Reach, Expand;
    if lines == [] {
      NoLines();
    } else {
      var k := |lines| - 1;
      PassFlattens(lines[..k]);
      ExpandFlattens(lines[k]);
      var d, e := MaxDepth(lines[..k]), Depth(lines[k]);
      ReachConcat(ExpandAll(lines[..k]).value, if d == 0 then 0 else d - 1,
                  Expand(lines[k]).value, if e == 0 then 0 else e - 1);
    }
  }

  lemma NoLines()
    ensures Reach([], 0)
  {
  }

  lemma ReachMeans(lines: seq<string>, d: nat, bound: nat)
    requires Reach(lines, d)
    ensures (forall line :: line in lines ==> Depth(line) <= bound) <==> d <= bound
  {
    hide Depth;
    if d > 0 {
      var i :| 0 <= i < |lines| && Depth(lines[i]) == d;
      assert lines[i] in lines;
    }
  }

  /** Two passes leave no prefix behind exactly when no line nests more than two. */
  lemma TwoPassesSuffice(lines: seq<string>)
    requires ExpandTwice(lines).Some?
    ensures (forall out :: out in ExpandTwice(lines).value ==> Depth(out) == 0) <==>
      (forall line :: line in lines ==> Depth(line) <= 2)
  {
    hide Depth, ExpandAll, Reach, MaxDepth;
    var once := ExpandAll(lines).value;
    var twice := ExpandAll(once).value;
    var d, e := MaxDepth(lines), MaxDepth(once);
    MaxDepthIs(lines);
    ReachMeans(lines, d, 2);
    MaxDepthIs(once);
    PassFlattens(lines);
    SameReach(once, e, if d == 0 then 0 else d - 1);
    PassFlattens(once);
    ReachMeans(twice, if e == 0 then 0 else e - 1, 0);
  }

  lemma SameReach(lines: seq<string>, d: nat, e: nat)
    requires Reach(lines, d) && Reach(lines, e)
    ensures d == e
  {
    hide Depth;
  }

  lemma {:induction false} NoLineEnd(s: string)
    requires '\n' !in s
    ensures ToLineEnd(s) == s
  {
    if s != [] {
      NoLineEnd(s[1..]);
    }
  }

  /** A bar in front of a line that is not blank. */
  lemma BarExpands(line: string)
    requires line != "" && Clean(line) && '\n' !in line
    ensures Expand("|" + line) == Some(["khu", line, "khu"]) && Depth("|" + line) == 1 + Depth(line)
  {
    assert ("|" + line)[1..] == line && ("|" + line)[|line|] == line[|line| - 1];
    CleanTrim("|" + line);
    NoLineEnd(line);
  }

  lemma {:induction false} DigitsThenX(digits: string, rest: string)
    requires forall i :: 0 <= i < |digits| ==> IsDigit(digits[i])
    ensures Digits(digits + ("x" + rest)) == |digits|
  {
    var s := digits + ("x" + rest);
    if digits == "" {
      assert s[0] == 'x';
    } else {
      assert s[0] == digits[0] && s[1..] == digits[1..] + ("x" + rest);
      DigitsThenX(digits[1..], rest);
    }
  }

  /** A number and an x in front of a line make that many copies of it. */
  lemma MultiplierCopies(n: nat, rest: string)
    requires n <= MAX_INT && '\n' !in rest && (rest != "" ==> !IsSpace(rest[|rest| - 1]))
    ensures Expand(Decimal(n) + ("x" + rest)) == Some(seq(n, i => rest))
  {
    var digits := Decimal(n);
    var line := digits + ("x" + rest);
    var k := |digits|;
    DigitsThenX(digits, rest);
    ValueOfDecimal(n);
    assert line[0] == digits[0] && line[k] == 'x' && line[..k] == digits && line[k + 1..] == rest;
    assert line[|line| - 1] == if rest == "" then 'x' else rest[|rest| - 1];
    CleanTrim(line);
    NoLineEnd(rest);
  }

  lemma WordIsPlain(word: string)
    requires word != "" && Clean(word) && word[0] != '|' && !IsDigit(word[0])
    ensures Expand(word) == Some([word]) && Depth(word) == 0
  {
    CleanTrim(word);
  }

  lemma ExpandOneMore(lines: seq<string>, line: string)
    ensures ExpandAll(lines + [line]) == match (ExpandAll(lines), Expand(line))
                                         case (Some(before), Some(more)) => Some(before + more)
                                         case _ => None
  {
    assert (lines + [line])[..|lines|] == lines;
  }

  /** Three bars are one too many: the two passes leave one of them. */
  lemma ThirdPrefixSurvives()
    ensures ExpandTwice(["|||sync"]) == Some(["khu", "khu", "|sync", "khu", "khu"])
    ensures Depth("|sync") == 1 && Depth("|||sync") == 3
  {
    hide Expand, Depth, ExpandAll;
    assert "|" + "sync" == "|sync" && "|" + "|sync" == "||sync" && "|" + "||sync" == "|||sync";
    WordIsPlain("khu");
    WordIsPlain("sync");
    BarExpands("sync");
    BarExpands("|sync");
    BarExpands("||sync");
    NoneExpands();
    ExpandOneMore([], "|||sync");
    assert [] + ["|||sync"] == ["|||sync"] && [] + ["khu", "||sync", "khu"] == ["khu", "||sync", "khu"];
    ExpandOneMore([], "khu");
    assert [] + ["khu"] == ["khu"];
    ExpandOneMore(["khu"], "||sync");
    ExpandOneMore(["khu", "||sync"], "khu");
    assert ["khu"] + ["||sync"] == ["khu", "||sync"] && ["khu", "||sync"] + ["khu"] == ["khu", "||sync", "khu"];
    assert ExpandAll(["|||sync"]) == Some(["khu", "||sync", "khu"]);
    assert ExpandAll(["khu"]) == Some(["khu"]) && ["khu"] + ["khu", "|sync", "khu"] == ["khu", "khu", "|sync", "khu"];
    assert ExpandAll(["khu", "||sync"]) == Some(["khu", "khu", "|sync", "khu"]);
    assert ["khu", "khu", "|sync", "khu"] + ["khu"] == ["khu", "khu", "|sync", "khu", "khu"];
  }

  lemma NoneExpands()
    ensures ExpandAll([]) == Some([])
  {
  }
}
