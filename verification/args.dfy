/** Splitting a command line into arguments, with quotes and escapes, and putting
    one back together. */
module Arguments {
  import opened Wrappers

  /** The scanner's flags. */
  datatype Scan = Scan(inQuote: bool, escape: bool)

  const OUTSIDE := Scan(false, false)

  function After(s: Scan, c: char): Scan {
    if c == '"' && !s.escape then Scan(!s.inQuote, false)
    else if s.escape || c == '\\' then Scan(s.inQuote, !s.escape)
    else s
  }

  /** Only an unescaped space outside quotes ends an argument. */
  predicate Separates(s: Scan, c: char) {
    s == OUTSIDE && c == ' '
  }

  /** The pieces from start on, scanning from pos. */
  function SplitFrom(line: string, pos: nat, start: nat, s: Scan): seq<string>
    requires start <= pos <= |line|
    decreases |line| - pos
  {
    if pos == |line| then if start < |line| then [line[start..]] else []
    else if Separates(s, line[pos]) then [line[start..pos]] + SplitFrom(line, pos + 1, pos + 1, OUTSIDE)
    else SplitFrom(line, pos + 1, start, After(s, line[pos]))
  }

  function Split(line: string): seq<string> {
    SplitFrom(line, 0, 0, OUTSIDE)
  }

  method SplitArgs(line: string) returns (args: seq<string>)
    ensures args == Split(line) && IsCutUp(line, args)
  {
    hide IsCutUp;
    SplitCutsUp(line);
    var pos, start := 0, 0;
    var inQuote, escape := false, false;
    args := [];
    while pos < |line|
      invariant 0 <= start <= pos <= |line|
      invariant Split(line) == args + SplitFrom(line, pos, start, Scan(inQuote, escape))
    {
      if line[pos] == '"' && !escape {
        inQuote := !inQuote;
      } else if escape || line[pos] == '\\' {
        escape := !escape;
      } else if !inQuote && line[pos] == ' ' {
        args := args + [line[start..pos]];
        start := pos + 1;
      }
      pos := pos + 1;
    }
    assert args + [] == args;
    if start < |line| {
      assert line[start..] == line[start..|line|];
      args := args + [line[start..|line|]];
    }
  }

  // ----- What the pieces are -----

  ghost function ScanOver(s: Scan, text: string): Scan
    decreases |text|
  {
    if text == "" then s else After(ScanOver(s, text[..|text| - 1]), text[|text| - 1])
  }

  /** No unprotected space inside. */
  ghost predicate Whole(piece: string) {
    forall k :: 0 <= k < |piece| ==> !Separates(ScanOver(OUTSIDE, piece[..k]), piece[k])
  }

  /** Every quote and escape that opens in it is closed in it. */
  ghost predicate Balanced(piece: string) {
    ScanOver(OUTSIDE, piece) == OUTSIDE
  }

  /** No piece has an unprotected space and all but the last are balanced. */
  ghost predicate Separable(pieces: seq<string>) {
    && (forall i :: 0 <= i < |pieces| ==> Whole(pieces[i]))
    && (forall i :: 0 <= i < |pieces| - 1 ==> Balanced(pieces[i]))
  }

  /** A list that joining with spaces does not garble. */
  ghost predicate Splittable(pieces: seq<string>) {
    Separable(pieces) && (|pieces| > 0 ==> pieces[|pieces| - 1] != "")
  }

  function Join(pieces: seq<string>): string {
    if |pieces| == 0 then ""
    else if |pieces| == 1 then pieces[0]
    else pieces[0] + " " + Join(pieces[1..])
  }

  /** The line ends in a space that separates. */
  ghost predicate EndsInSeparator(line: string) {
    |line| > 0 && Separates(ScanOver(OUTSIDE, line[..|line| - 1]), line[|line| - 1])
  }

  lemma ScanOverStep(s: Scan, text: string, k: nat)
    requires k < |text|
    ensures ScanOver(s, text[..k + 1]) == After(ScanOver(s, text[..k]), text[k])
  {
    assert text[..k + 1][..k] == text[..k];
  }

  /** What holds whenever the scan of line, from the last piece's start on, has
      reached pos in state s without meeting a separator. */
  ghost predicate Midway(line: string, pos: nat, start: nat, s: Scan) {
    && start <= pos <= |line|
    && ScanOver(OUTSIDE, line[start..pos]) == s
    && Whole(line[start..pos])
  }

  lemma MidwayStep(line: string, pos: nat, start: nat, s: Scan)
    requires Midway(line, pos, start, s) && pos < |line| && !Separates(s, line[pos])
    ensures Midway(line, pos + 1, start, After(s, line[pos]))
  {
    hide ScanOver, After;
    var longer := line[start..pos + 1];
    assert longer[..pos - start] == line[start..pos];
    ScanOverStep(OUTSIDE, longer, pos - start);
    forall k | 0 <= k < |longer| ensures !Separates(ScanOver(OUTSIDE, longer[..k]), longer[k]) {
      assert longer[..k] == line[start..pos][..k];
    }
    assert longer[..|longer|] == longer;
  }

  ghost function Tail(line: string): string {
    if EndsInSeparator(line) then " " else ""
  }

  /** The pieces are separable; joining them gives the text back but for a
      separating space at its end; and only such a space leaves an empty last piece. */
  ghost predicate Restores(line: string, start: nat, pieces: seq<string>)
    requires start <= |line|
  {
    && Separable(pieces)
    && (start < |line| ==> pieces != [] && line[start..] == Join(pieces) + Tail(line))
    && (start == |line| ==> pieces == [])
    && (|pieces| > 0 && pieces[|pieces| - 1] == "" ==> EndsInSeparator(line))
  }

  lemma SeparableMore(piece: string, rest: seq<string>)
    requires Whole(piece) && Balanced(piece) && Separable(rest)
    ensures Separable([piece] + rest)
  {
    var pieces := [piece] + rest;
    forall i | 0 <= i < |pieces| ensures Whole(pieces[i]) && (i < |pieces| - 1 ==> Balanced(pieces[i])) {
      if i > 0 {
        assert pieces[i] == rest[i - 1];
      }
    }
  }

  lemma JoinMore(piece: string, rest: seq<string>)
    ensures Join([piece] + rest) == if rest == [] then piece else piece + " " + Join(rest)
  {
    assert ([piece] + rest)[1..] == rest;
  }

  lemma RestoresAtSeparator(line: string, pos: nat, start: nat, rest: seq<string>)
    requires Midway(line, pos, start, OUTSIDE) && pos < |line| && line[pos] == ' '
    requires ScanOver(OUTSIDE, line[..pos]) == OUTSIDE
    requires Restores(line, pos + 1, rest)
    ensures Restores(line, start, [line[start..pos]] + rest)
  {
    hide ScanOver, Separable, Whole, Balanced, Join;
    var piece := line[start..pos];
    SeparableMore(piece, rest);
    JoinMore(piece, rest);
    assert line[start..] == piece + " " + line[pos + 1..];
    if pos + 1 == |line| {
      assert line[..|line| - 1] == line[..pos];
      assert line[start..] == piece + " ";
    } else {
      assert line[start..] == Join([piece] + rest) + Tail(line);
      assert ([piece] + rest)[|rest|] == rest[|rest| - 1];
    }
  }

  lemma NoSeparatorAtEnd(line: string, start: nat)
    requires start < |line| && Whole(line[start..]) && ScanOver(OUTSIDE, line[..start]) == OUTSIDE
    ensures Tail(line) == ""
  {
    var piece, last := line[start..], |line| - 1;
    assert piece[..last - start] == line[start..last] && piece[last - start] == line[last];
    ScanAgrees(line, start, last);
  }

  lemma RestoresAtEnd(line: string, start: nat)
    requires start <= |line| && Whole(line[start..]) && ScanOver(OUTSIDE, line[..start]) == OUTSIDE
    ensures Restores(line, start, if start < |line| then [line[start..]] else [])
  {
    if start < |line| {
      NoSeparatorAtEnd(line, start);
      assert Join([line[start..]]) == line[start..];
    }
  }

  lemma {:induction false} SplitRestores(line: string, pos: nat, start: nat, s: Scan)
    requires Midway(line, pos, start, s) && ScanOver(OUTSIDE, line[..pos]) == s
    requires ScanOver(OUTSIDE, line[..start]) == OUTSIDE
    ensures Restores(line, start, SplitFrom(line, pos, start, s))
    decreases |line| - pos
  {
    if pos < |line| {
      ScanOverStep(OUTSIDE, line, pos);
      if Separates(s, line[pos]) {
        assert line[pos + 1..pos + 1] == "";
        SplitRestores(line, pos + 1, pos + 1, OUTSIDE);
        RestoresAtSeparator(line, pos, start, SplitFrom(line, pos + 1, pos + 1, OUTSIDE));
      } else {
        MidwayStep(line, pos, start, s);
        SplitRestores(line, pos + 1, start, After(s, line[pos]));
      }
    } else {
      assert line[start..pos] == line[start..];
      RestoresAtEnd(line, start);
    }
  }

  /** Scanning a suffix that starts outside quotes agrees with scanning it all. */
  lemma {:induction false} ScanAgrees(line: string, start: nat, pos: nat)
    requires start <= pos <= |line| && ScanOver(OUTSIDE, line[..start]) == OUTSIDE
    ensures ScanOver(OUTSIDE, line[..pos]) == ScanOver(OUTSIDE, line[start..pos])
    decreases pos
  {
    if start < pos {
      ScanAgrees(line, start, pos - 1);
      ScanOverStep(OUTSIDE, line, pos - 1);
      assert line[start..pos][..pos - 1 - start] == line[start..pos - 1];
      ScanOverStep(OUTSIDE, line[start..pos], pos - 1 - start);
      assert line[start..pos][..pos - start] == line[start..pos];
    }
  }

  /** Splitting is lossless: joining the pieces with single spaces restores the
      line, except for one separating space at its end. */
  lemma SplitIsLossless(line: string)
    ensures line == Join(Split(line)) + Tail(line)
    ensures Separable(Split(line))
    ensures Split(line) != [] && Split(line)[|Split(line)| - 1] == "" ==> EndsInSeparator(line)
  {
    assert line[0..0] == "" && line[..0] == "" && line[0..] == line;
    SplitRestores(line, 0, 0, OUTSIDE);
  }

  // ----- Joining, then splitting -----

  /** Scanning a whole piece meets no separator. */
  lemma {:induction false} SplitSkipsPiece(line: string, start: nat, pos: nat, end: nat)
    requires start <= pos <= end <= |line| && Whole(line[start..end])
    ensures SplitFrom(line, pos, start, ScanOver(OUTSIDE, line[start..pos]))
         == SplitFrom(line, end, start, ScanOver(OUTSIDE, line[start..end]))
    decreases end - pos
  {
    if pos < end {
      var piece, k := line[start..end], pos - start;
      assert piece[..k] == line[start..pos] && piece[k] == line[pos] && piece[..k + 1] == line[start..pos + 1];
      ScanOverStep(OUTSIDE, piece, k);
      SplitSkipsPiece(line, start, pos + 1, end);
    }
  }

  lemma NothingScanned()
    ensures ScanOver(OUTSIDE, "") == OUTSIDE
  {
  }

  lemma {:induction false} SplitFindsPieces(line: string, start: nat, pieces: seq<string>)
    requires start <= |line| && line[start..] == Join(pieces) && Splittable(pieces)
    ensures SplitFrom(line, start, start, OUTSIDE) == pieces
    decreases |pieces|
  {
    hide After, ScanOver, Whole;
    if |pieces| > 0 {
      var end := start + |pieces[0]|;
      NothingScanned();
      assert line[start..start] == "" && line[start..][..|pieces[0]|] == line[start..end] == pieces[0];
      SplitSkipsPiece(line, start, start, end);
      if |pieces| == 1 {
        assert end == |line| && line[start..] == pieces[0];
      } else {
        assert line[end] == line[start..][|pieces[0]|] == ' ';
        assert line[end + 1..] == line[start..][|pieces[0]| + 1..] == Join(pieces[1..]);
        SplitFindsPieces(line, end + 1, pieces[1..]);
      }
    }
  }

  /** Splitting inverts joining exactly on the splittable lists. */
  lemma SplitInvertsJoin(pieces: seq<string>)
    ensures Split(Join(pieces)) == pieces <==> Splittable(pieces)
  {
    var line := Join(pieces);
    if Splittable(pieces) {
      assert line[0..] == line;
      SplitFindsPieces(line, 0, pieces);
    }
    if Split(line) == pieces {
      SplitIsLossless(line);
      assert |Tail(line)| == 0;
    }
  }

  // ----- Where the cuts are -----

  /** The backslashes right before a position. */
  ghost function Slashes(line: string, p: nat): nat
    requires p <= |line|
  {
    if p > 0 && line[p - 1] == '\\' then 1 + Slashes(line, p - 1) else 0
  }

  /** Each backslash that is not escaped itself escapes the next character, so it takes an
      odd number of them. */
  ghost predicate Escaped(line: string, p: nat)
    requires p <= |line|
  {
    Slashes(line, p) % 2 == 1
  }

  /** The quotes before a position that are not escaped. */
  ghost function Quotes(line: string, p: nat): nat
    requires p <= |line|
  {
    if p == 0 then 0 else Quotes(line, p - 1) + if line[p - 1] == '"' && !Escaped(line, p - 1) then 1 else 0
  }

  ghost predicate Quoted(line: string, p: nat)
    requires p <= |line|
  {
    Quotes(line, p) % 2 == 1
  }

  /** A space that is neither escaped nor quoted. */
  ghost predicate CutsAt(line: string, p: nat)
    requires p < |line|
  {
    line[p] == ' ' && !Escaped(line, p) && !Quoted(line, p)
  }

  /** The scanner's flags say just that. */
  lemma {:induction false} ScanKnows(line: string, p: nat)
    requires p <= |line|
    ensures ScanOver(OUTSIDE, line[..p]) == Scan(Quoted(line, p), Escaped(line, p))
  {
    if p == 0 {
      assert line[..0] == "";
    } else {
      ScanKnows(line, p - 1);
      ScanOverStep(OUTSIDE, line, p - 1);
    }
  }

  /** So a list is splittable when each piece has its spaces escaped or quoted, and each
      but the last closes what it opens. */
  lemma SplittableMeans(piece: string)
    ensures Whole(piece) <==> forall p :: 0 <= p < |piece| ==> !CutsAt(piece, p)
    ensures Balanced(piece) <==> !Quoted(piece, |piece|) && !Escaped(piece, |piece|)
  {
    hide Separates, CutsAt;
    forall p | 0 <= p < |piece| ensures Separates(ScanOver(OUTSIDE, piece[..p]), piece[p]) <==> CutsAt(piece, p) {
      CutIsSeparator(piece, p);
    }
    ScanKnows(piece, |piece|);
    assert piece[..|piece|] == piece;
  }

  /** The cuts from pos on, in order. */
  ghost function CutsFrom(line: string, pos: nat): seq<nat>
    requires pos <= |line|
    decreases |line| - pos
  {
    if pos == |line| then [] else (if CutsAt(line, pos) then [pos] else []) + CutsFrom(line, pos + 1)
  }

  lemma {:induction false} CutsAreAll(line: string, pos: nat)
    requires pos <= |line|
    ensures forall p: nat :: p in CutsFrom(line, pos) <==> pos <= p < |line| && CutsAt(line, p)
    ensures forall i, j :: 0 <= i < j < |CutsFrom(line, pos)| ==> CutsFrom(line, pos)[i] < CutsFrom(line, pos)[j]
    decreases |line| - pos
  {
    if pos < |line| {
      CutsAreAll(line, pos + 1);
      var more := CutsFrom(line, pos + 1);
      forall i | 0 <= i < |more| ensures pos < more[i] {
        assert more[i] in more;
      }
      forall p: nat ensures p in CutsFrom(line, pos) <==> (p == pos && CutsAt(line, pos)) || p in more {
      }
    }
  }

  /** The cuts lie in the line, one after the other. */
  ghost predicate InLine(line: string, start: nat, cuts: seq<nat>) {
    && start <= |line|
    && (forall i :: 0 <= i < |cuts| ==> start <= cuts[i] < |line|)
    && (forall i, j :: 0 <= i < j < |cuts| ==> cuts[i] < cuts[j])
  }

  /** The pieces between the cuts, and what is left after the last one, if anything. */
  ghost function PiecesBetween(line: string, start: nat, cuts: seq<nat>): seq<string>
    requires InLine(line, start, cuts)
    decreases |cuts|
  {
    if cuts == [] then if start < |line| then [line[start..]] else []
    else [line[start..cuts[0]]] + PiecesBetween(line, cuts[0] + 1, cuts[1..])
  }

  lemma CutsAreInLine(line: string, pos: nat, start: nat)
    requires start <= pos <= |line|
    ensures InLine(line, start, CutsFrom(line, pos))
  {
    hide CutsAt;
    CutsAreAll(line, pos);
    var cuts := CutsFrom(line, pos);
    forall i | 0 <= i < |cuts| ensures start <= cuts[i] < |line| {
      assert cuts[i] in cuts;
    }
  }

  lemma {:induction false} SplitFromCuts(line: string, pos: nat, start: nat)
    requires start <= pos <= |line| && InLine(line, start, CutsFrom(line, pos))
    ensures SplitFrom(line, pos, start, ScanOver(OUTSIDE, line[..pos]))
         == PiecesBetween(line, start, CutsFrom(line, pos))
    decreases |line| - pos
  {
    hide ScanOver, CutsAt;
    if pos < |line| {
      CutIsSeparator(line, pos);
      ScanOverStep(OUTSIDE, line, pos);
      if CutsAt(line, pos) {
        CutsAreInLine(line, pos + 1, pos + 1);
        SplitFromCuts(line, pos + 1, pos + 1);
        assert CutsFrom(line, pos)[1..] == CutsFrom(line, pos + 1);
      } else {
        assert CutsFrom(line, pos) == CutsFrom(line, pos + 1);
        SplitFromCuts(line, pos + 1, start);
      }
    }
  }

  lemma CutIsSeparator(line: string, p: nat)
    requires p < |line|
    ensures Separates(ScanOver(OUTSIDE, line[..p]), line[p]) <==> CutsAt(line, p)
  {
    ScanKnows(line, p);
  }

  /** The line is cut exactly at its spaces that are neither escaped nor quoted. */
  ghost predicate IsCutUp(line: string, pieces: seq<string>) {
    exists cuts: seq<nat> :: IsCutUpAt(line, pieces, cuts)
  }

  ghost predicate IsCutUpAt(line: string, pieces: seq<string>, cuts: seq<nat>) {
    && (forall p: nat :: p in cuts <==> p < |line| && CutsAt(line, p))
    && InLine(line, 0, cuts) && pieces == PiecesBetween(line, 0, cuts)
  }

  lemma SplitCutsUp(line: string)
    ensures IsCutUp(line, Split(line))
  {
    hide SplitFrom, PiecesBetween, InLine, CutsAt, CutsFrom;
    CutsAreAll(line, 0);
    CutsAreInLine(line, 0, 0);
    SplitFromCuts(line, 0, 0);
    assert line[..0] == "";
    assert IsCutUpAt(line, Split(line), CutsFrom(line, 0));
  }

  // ----- Commands -----

  datatype Parsed = Parsed(prefix: string, base: string, args: seq<string>)

  predicate HasRunPrefix(line: string) {
    |line| >= 2 && line[..2] == "p "
  }

  /** Prefix, base command and arguments.  None stands for the panic on a line
      without any piece to be the base. */
  function Parse(line: string): Option<Parsed> {
    var args := Split(if HasRunPrefix(line) then line[2..] else line);
    if args == [] then None
    else Some(Parsed(if HasRunPrefix(line) then "p" else "", args[0], args[1..]))
  }

  method SplitCommand(line: string) returns (r: Option<Parsed>)
    ensures r == Parse(line)
  {
    var command, prefix := line, "";
    if HasRunPrefix(command) {
      prefix := "p";
      command := command[2..];
    }
    var args := SplitArgs(command);
    if |args| == 0 {
      return None;
    }
    r := Some(Parsed(prefix, args[0], args[1..]));
  }

  function Rebuilt(prefix: string, base: string, args: seq<string>): string {
    (if |prefix| > 0 then prefix + " " else "") + Join([base] + args)
  }

  /** The line with its arguments replaced; None where splitting it panics. */
  method ReplaceArgs(line: string, args: seq<string>) returns (r: Option<string>)
    ensures r == match Parse(line)
                 case None => None
                 case Some(p) => Some(Rebuilt(p.prefix, p.base, args))
  {
    var parsed := SplitCommand(line);
    if parsed == None {
      return None;
    }
    var text := if |parsed.value.prefix| > 0 then parsed.value.prefix + " " else "";
    ghost var lead := text;
    text := text + parsed.value.base;
    for i := 0 to |args|
      invariant text == lead + Join([parsed.value.base] + args[..i])
    {
      JoinAppend([parsed.value.base] + args[..i], args[i]);
      assert [parsed.value.base] + args[..i + 1] == [parsed.value.base] + args[..i] + [args[i]];
      text := text + (" " + args[i]);
    }
    assert args[..|args|] == args;
    r := Some(text);
  }

  lemma {:induction false} JoinAppend(pieces: seq<string>, piece: string)
    requires pieces != []
    ensures Join(pieces + [piece]) == Join(pieces) + (" " + piece)
    decreases |pieces|
  {
    if |pieces| > 1 {
      JoinAppend(pieces[1..], piece);
      assert (pieces + [piece])[1..] == pieces[1..] + [piece];
      assert Join(pieces + [piece]) == pieces[0] + " " + Join(pieces[1..] + [piece]);
    } else {
      assert (pieces + [piece])[1..] == [piece];
    }
  }

  /** A base produced by splitting contains no separating space at its second place. */
  lemma BaseHasNoRunPrefix(base: string)
    requires Whole(base)
    ensures !HasRunPrefix(base)
  {
    if |base| >= 2 {
      assert base[..1] == [base[0]];
      ScanOverStep(OUTSIDE, base, 0);
      assert base[..0] == "";
      assert !Separates(ScanOver(OUTSIDE, base[..1]), base[1]);
    }
  }

  lemma RunPrefixOfJoin(base: string, args: seq<string>)
    requires Whole(base)
    ensures HasRunPrefix(Join([base] + args)) <==> base == "p" && args != []
  {
    var line := Join([base] + args);
    JoinMore(base, args);
    BaseHasNoRunPrefix(base);
    if args != [] {
      assert line == base + " " + Join(args);
      if |base| >= 2 {
        assert line[..2] == base[..2];
      } else if |base| == 1 {
        assert line[..2] == base + " ";
        assert base + " " == "p " ==> base[0] == "p "[0];
      } else {
        assert line[0] == ' ' && "p "[0] == 'p';
      }
    }
  }

  lemma ListSplits(pieces: seq<string>, base: string, args: seq<string>)
    ensures pieces == [base] + args <==> pieces != [] && pieces[0] == base && pieces[1..] == args
  {
    if pieces != [] {
      assert pieces == [pieces[0]] + pieces[1..];
    }
  }

  lemma PlainParses(base: string, args: seq<string>)
    requires Whole(base)
    ensures Parse(Join([base] + args)) == Some(Parsed("", base, args))
       <==> Splittable([base] + args) && !(base == "p" && args != [])
  {
    var line := Join([base] + args);
    RunPrefixOfJoin(base, args);
    SplitInvertsJoin([base] + args);
    ListSplits(Split(line), base, args);
    assert HasRunPrefix(line) ==> Parse(line) == None || Parse(line).value.prefix == "p";
  }

  lemma PrefixedParses(base: string, args: seq<string>)
    ensures Parse("p " + Join([base] + args)) == Some(Parsed("p", base, args)) <==> Splittable([base] + args)
  {
    var line := Join([base] + args);
    assert ("p " + line)[..2] == "p " && ("p " + line)[2..] == line;
    SplitInvertsJoin([base] + args);
    ListSplits(Split(line), base, args);
  }

  /** Splitting a command after replacing its arguments gives the same prefix and
      base and the new arguments exactly when base and arguments together are
      splittable and the base is not a bare "p" that would turn into the prefix. */
  lemma ReplacedCommandParses(line: string, args: seq<string>)
    requires Parse(line).Some?
    ensures var p := Parse(line).value;
      Parse(Rebuilt(p.prefix, p.base, args)) == Some(Parsed(p.prefix, p.base, args))
      <==> Splittable([p.base] + args) && !(p.prefix == "" && p.base == "p" && args != [])
  {
    var p := Parse(line).value;
    if p.prefix == "" {
      SplitIsLossless(line);
      assert Rebuilt(p.prefix, p.base, args) == Join([p.base] + args);
      PlainParses(p.base, args);
    } else {
      assert "p" + " " == "p ";
      PrefixedParses(p.base, args);
    }
  }
}
