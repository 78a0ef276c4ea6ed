/** Expected output of a command: template lines expanded in place, with external
    lines standing for the whole output of another command. */
module Templates {
  import opened Wrappers
  import opened Digraph

  datatype TemplateLine = External(command: string) | Text(template: string, trusted: bool)

  type Table = map<string, seq<TemplateLine>>

  datatype ExpectedLine = ExpectedLine(text: string, trusted: bool, keyName: string)

  datatype ExpandError = Cycle | BadTemplate | UnknownCommand

  /** How the template engine expands one line; None when it reports an error. */
  type LineExpander = string -> Option<seq<string>>

  /** An expanded line is keyed by the template that contains it if trusted. */
  function Keyed(id: string, trusted: bool, texts: seq<string>): seq<ExpectedLine> {
    seq(|texts|, i requires 0 <= i < |texts| => ExpectedLine(texts[i], trusted, if trusted then id else ""))
  }

  /** The expansion of a command's template, given the commands being expanded. */
  function ExpandOutput(table: Table, expand: LineExpander, id: string, tmpl: seq<TemplateLine>, processed: set<string>)
    : Result<seq<ExpectedLine>, ExpandError>
    requires id in table
    decreases |table.Keys - processed|, 0
  {
    if id in processed then Err(Cycle)
    else
      Shrinks(table, processed, id);
      ExpandLines(table, expand, id, tmpl, processed + {id})
  }

  function ExpandLines(table: Table, expand: LineExpander, id: string, lines: seq<TemplateLine>, processed: set<string>)
    : Result<seq<ExpectedLine>, ExpandError>
    decreases |table.Keys - processed|, |lines| + 1
  {
    if lines == [] then Ok([])
    else Then(ExpandLine(table, expand, id, lines[0], processed), ExpandLines(table, expand, id, lines[1..], processed))
  }

  /** One expansion after another; the first error wins. */
  function Then(a: Result<seq<ExpectedLine>, ExpandError>, b: Result<seq<ExpectedLine>, ExpandError>)
    : Result<seq<ExpectedLine>, ExpandError>
  {
    if a.Err? then a else if b.Err? then b else Ok(a.value + b.value)
  }

  lemma ExternalExpands(table: Table, expand: LineExpander, id: string, c: string, seen: set<string>)
    requires c in table
    ensures ExpandLine(table, expand, id, External(c), seen)
         == if c in seen then Err(Cycle) else ExpandLines(table, expand, c, table[c], seen + {c})
  {
    assert ExpandLine(table, expand, id, External(c), seen) == ExpandOutput(table, expand, c, table[c], seen);
  }

  /** An external line naming an unknown command expands to nothing. */
  function ExpandLine(table: Table, expand: LineExpander, id: string, line: TemplateLine, processed: set<string>)
    : Result<seq<ExpectedLine>, ExpandError>
    decreases |table.Keys - processed|, 1
  {
    match line
    case External(c) =>
      if c in table then ExpandOutput(table, expand, c, table[c], processed) else Ok([])
    case Text(t, trusted) =>
      match expand(t)
      case None => Err(BadTemplate)
      case Some(texts) => Ok(Keyed(id, trusted, texts))
  }

  lemma Shrinks(table: Table, processed: set<string>, id: string)
    requires id in table && id !in processed
    ensures |table.Keys - (processed + {id})| < |table.Keys - processed|
  {
    assert table.Keys - processed == table.Keys - (processed + {id}) + {id};
  }

  /** The recursion as written: a loop over the lines that appends, with the set of
      commands being expanded copied for each external line. */
  method Expand(table: Table, expand: LineExpander, id: string, tmpl: seq<TemplateLine>, processed: set<string>)
    returns (r: Result<seq<ExpectedLine>, ExpandError>)
    requires id in table
    ensures r == ExpandOutput(table, expand, id, tmpl, processed)
    decreases |table.Keys - processed|
  {
    if id in processed {
      return Err(Cycle);
    }
    Shrinks(table, processed, id);
    var seen := processed + {id};
    var expected := [];
    ghost var all := ExpandLines(table, expand, id, tmpl, seen);
    assert tmpl[0..] == tmpl && (all.Ok? ==> [] + all.value == all.value);
    for i := 0 to |tmpl|
      invariant ExpandLines(table, expand, id, tmpl, seen)
        == Then(Ok(expected), ExpandLines(table, expand, id, tmpl[i..], seen))
    {
      assert tmpl[i..][0] == tmpl[i] && tmpl[i..][1..] == tmpl[i + 1..];
      ghost var here := ExpandLine(table, expand, id, tmpl[i], seen);
      assert ExpandLines(table, expand, id, tmpl[i..], seen)
          == Then(here, ExpandLines(table, expand, id, tmpl[i + 1..], seen));
      ghost var rest := ExpandLines(table, expand, id, tmpl[i + 1..], seen);
      if here.Ok? && rest.Ok? {
        assert expected + (here.value + rest.value) == (expected + here.value) + rest.value;
      }
      match tmpl[i]
      case External(c) =>
        if c in table {
          var more := Expand(table, expand, c, table[c], seen);
          if more.Err? {
            return more;
          }
          expected := expected + more.value;
        } else {
          assert expected + [] == expected;
        }
      case Text(t, trusted) =>
        var lines := expand(t);
        if lines == None {
          return Err(BadTemplate);
        }
        expected := expected + Keyed(id, trusted, lines.value);
    }
    assert expected + [] == expected;
    r := Ok(expected);
  }

  /** Seeds the recursion with the command's own template, overrides merged in. */
  function Instantiate(table: Table, expand: LineExpander, id: string, merged: seq<TemplateLine>)
    : Result<seq<ExpectedLine>, ExpandError>
  {
    if id !in table then Err(UnknownCommand) else ExpandOutput(table, expand, id, merged, {})
  }

  // ----- Cycles -----

  ghost function References(table: Table, lines: seq<TemplateLine>): set<string> {
    set c | c in table && External(c) in lines
  }

  /** Which known commands each command's template refers to. */
  ghost function ReferenceGraph(table: Table): Edges {
    map a | a in table :: References(table, table[a])
  }

  /** Every line the template engine is asked to expand does expand. */
  ghost predicate LinesExpand(table: Table, expand: LineExpander) {
    forall a :: a in table ==> AllExpand(table[a], expand)
  }

  ghost predicate AllExpand(lines: seq<TemplateLine>, expand: LineExpander) {
    forall k :: 0 <= k < |lines| && lines[k].Text? ==> expand(lines[k].template).Some?
  }

  /** A walk of references ends at a command met before. */
  ghost predicate Revisits(table: Table, p: seq<string>, before: set<string>) {
    IsPath(ReferenceGraph(table), p) && p[|p| - 1] in before + Elements(p[..|p| - 1])
  }

  ghost predicate LeadsToRevisit(table: Table, id: string, before: set<string>) {
    exists p :: |p| > 0 && p[0] == id && Revisits(table, p, before)
  }

  lemma RevisitLater(table: Table, id: string, before: set<string>)
    requires id in table && id !in before && LeadsToRevisit(table, id, before)
    ensures exists c :: c in References(table, table[id]) && LeadsToRevisit(table, c, before + {id})
  {
    var p :| |p| > 0 && p[0] == id && Revisits(table, p, before);
    var g, q := ReferenceGraph(table), p[1..];
    assert |p| > 1;
    assert IsEdge(g, p[0], p[0 + 1]);
    forall i | 0 <= i < |q| - 1 ensures IsEdge(g, q[i], q[i + 1]) {
      assert IsEdge(g, p[i + 1], p[i + 1 + 1]);
    }
    assert p[..|p| - 1] == [id] + q[..|q| - 1];
    assert Revisits(table, q, before + {id});
    assert LeadsToRevisit(table, q[0], before + {id});
  }

  lemma RevisitEarlier(table: Table, id: string, before: set<string>, c: string)
    requires id in table && c in References(table, table[id]) && LeadsToRevisit(table, c, before + {id})
    ensures LeadsToRevisit(table, id, before)
  {
    var q :| |q| > 0 && q[0] == c && Revisits(table, q, before + {id});
    var g, p := ReferenceGraph(table), [id] + q;
    forall i | 0 <= i < |p| - 1 ensures IsEdge(g, p[i], p[i + 1]) {
      if i > 0 {
        assert IsEdge(g, q[i - 1], q[i - 1 + 1]);
      }
    }
    assert p[..|p| - 1] == [id] + q[..|q| - 1];
    assert Revisits(table, p, before);
  }

  ghost predicate SomeLeadsToRevisit(table: Table, cs: set<string>, before: set<string>) {
    exists c :: c in cs && LeadsToRevisit(table, c, before)
  }

  /** Fails, and then with a cycle, exactly when told so. */
  ghost predicate FailsIff(r: Result<seq<ExpectedLine>, ExpandError>, cyclic: bool) {
    if cyclic then r == Err(Cycle) else r.Ok?
  }

  lemma {:induction false} OutputFailsOnRevisit(table: Table, expand: LineExpander, id: string, before: set<string>)
    requires id in table && LinesExpand(table, expand)
    ensures FailsIff(ExpandOutput(table, expand, id, table[id], before), LeadsToRevisit(table, id, before))
    decreases |table.Keys - before|, 0
  {
    if id in before {
      assert Revisits(table, [id], before);
    } else {
      Shrinks(table, before, id);
      assert AllExpand(table[id], expand);
      LinesFailOnRevisit(table, expand, id, table[id], before + {id});
      var refs := References(table, table[id]);
      if SomeLeadsToRevisit(table, refs, before + {id}) {
        var c :| c in refs && LeadsToRevisit(table, c, before + {id});
        RevisitEarlier(table, id, before, c);
      } else if LeadsToRevisit(table, id, before) {
        RevisitLater(table, id, before);
        assert false;
      }
    }
  }

  lemma {:induction false} LinesFailOnRevisit(table: Table, expand: LineExpander, id: string, lines: seq<TemplateLine>,
                                             seen: set<string>)
    requires LinesExpand(table, expand) && AllExpand(lines, expand)
    ensures FailsIff(ExpandLines(table, expand, id, lines, seen),
                     SomeLeadsToRevisit(table, References(table, lines), seen))
    decreases |table.Keys - seen|, |lines| + 1
  {
    if lines != [] {
      var head, rest := lines[0], lines[1..];
      assert forall k :: 0 <= k < |rest| ==> rest[k] == lines[k + 1];
      LinesFailOnRevisit(table, expand, id, rest, seen);
      assert References(table, lines) == References(table, rest) +
        (if head.External? && head.command in table then {head.command} else {}) by {
        assert lines == [head] + rest;
      }
      if head.External? && head.command in table {
        OutputFailsOnRevisit(table, expand, head.command, seen);
      } else if head.Text? {
        assert expand(lines[0].template).Some?;
      }
    }
  }

  /** The table with the root command's merged template in place of its own. */
  function Effective(table: Table, id: string, merged: seq<TemplateLine>): Table {
    table[id := merged]
  }

  /** Once the root is being expanded its table entry is never used. */
  lemma {:induction false} RootEntryUnused(table: Table, expand: LineExpander, root: string, merged: seq<TemplateLine>,
                                          id: string, lines: seq<TemplateLine>, seen: set<string>)
    requires root in table && root in seen
    ensures ExpandLines(table, expand, id, lines, seen)
      == ExpandLines(Effective(table, root, merged), expand, id, lines, seen)
    decreases |table.Keys - seen|, |lines|
  {
    var other := Effective(table, root, merged);
    assert other.Keys == table.Keys;
    if lines != [] {
      RootEntryUnused(table, expand, root, merged, id, lines[1..], seen);
      if lines[0].External? && lines[0].command in table {
        var c := lines[0].command;
        ExternalExpands(table, expand, id, c, seen);
        ExternalExpands(other, expand, id, c, seen);
        if c !in seen {
          Shrinks(table, seen, c);
          RootEntryUnused(table, expand, root, merged, c, table[c], seen + {c});
        }
      }
      assert ExpandLine(table, expand, id, lines[0], seen) == ExpandLine(other, expand, id, lines[0], seen);
    }
  }

  /** A walk from id that meets some command twice. */
  ghost predicate RevisitingWalk(g: Edges, id: string) {
    exists p :: IsPath(g, p) && p[0] == id && !NoDuplicates(p)
  }

  lemma RevisitMeansDuplicate(table: Table, id: string)
    requires LeadsToRevisit(table, id, {})
    ensures RevisitingWalk(ReferenceGraph(table), id)
  {
    var p :| |p| > 0 && p[0] == id && Revisits(table, p, {});
    var last := |p| - 1;
    assert p[last] in Elements(p[..last]);
    var k :| 0 <= k < last && p[..last][k] == p[last];
    assert p[k] == p[last];
  }

  lemma DuplicateMeansRevisit(table: Table, id: string)
    requires RevisitingWalk(ReferenceGraph(table), id)
    ensures LeadsToRevisit(table, id, {})
  {
    var g := ReferenceGraph(table);
    var p :| IsPath(g, p) && p[0] == id && !NoDuplicates(p);
    var i, j :| 0 <= i < j < |p| && p[i] == p[j];
    var q := p[..j + 1];
    forall k | 0 <= k < |q| - 1 ensures IsEdge(g, q[k], q[k + 1]) {
      assert IsEdge(g, p[k], p[k + 1]);
    }
    assert q[..|q| - 1][i] == p[i];
    assert Revisits(table, q, {});
  }

  /** A cycle is reported exactly when some walk of external references from the
      root visits a command twice. */
  lemma CycleReportedExactly(table: Table, expand: LineExpander, id: string, merged: seq<TemplateLine>)
    requires id in table && LinesExpand(Effective(table, id, merged), expand)
    ensures var g := ReferenceGraph(Effective(table, id, merged));
      FailsIff(Instantiate(table, expand, id, merged),
               RevisitingWalk(g, id))
  {
    var other := Effective(table, id, merged);
    var g := ReferenceGraph(other);
    Shrinks(table, {}, id);
    RootEntryUnused(table, expand, id, merged, id, merged, {} + {id});
    OutputFailsOnRevisit(other, expand, id, {});
    if LeadsToRevisit(other, id, {}) {
      RevisitMeansDuplicate(other, id);
    }
    if RevisitingWalk(g, id) {
      DuplicateMeansRevisit(other, id);
    }
  }

  // ----- Meaning without the cycle check -----

  /** In-order flattening to a given depth of references; there is no memory of
      what is being expanded. */
  ghost function Flatten(table: Table, expand: LineExpander, id: string, lines: seq<TemplateLine>,
                         depth: nat): seq<ExpectedLine>
    decreases depth, |lines|
  {
    if lines == [] then []
    else FlattenLine(table, expand, id, lines[0], depth) + Flatten(table, expand, id, lines[1..], depth)
  }

  ghost function FlattenLine(table: Table, expand: LineExpander, id: string, line: TemplateLine,
                             depth: nat): seq<ExpectedLine>
    decreases depth, 0
  {
    match line
    case External(c) => if c in table && depth > 0 then Flatten(table, expand, c, table[c], depth - 1) else []
    case Text(t, trusted) => if expand(t).Some? then Keyed(id, trusted, expand(t).value) else []
  }

  /** Earlier lines come out before later ones. */
  lemma {:induction false} FlattenInOrder(table: Table, expand: LineExpander, id: string, a: seq<TemplateLine>,
                                          b: seq<TemplateLine>, depth: nat)
    ensures Flatten(table, expand, id, a + b, depth)
         == Flatten(table, expand, id, a, depth) + Flatten(table, expand, id, b, depth)
  {
    if a == [] {
      assert a + b == b;
    } else {
      assert (a + b)[0] == a[0] && (a + b)[1..] == a[1..] + b;
      FlattenInOrder(table, expand, id, a[1..], b, depth);
    }
  }

  /** A line comes out as its texts, the k-th as the k-th, trusted or not as the line is; a
      reference as everything the command it names stands for, if there is one. */
  lemma FlattenOne(table: Table, expand: LineExpander, id: string, line: TemplateLine, depth: nat)
    requires depth > 0
    requires line.Text? ==> expand(line.template).Some?
    ensures var out := Flatten(table, expand, id, [line], depth);
      match line
      case External(c) => out == if c in table then Flatten(table, expand, c, table[c], depth - 1) else []
      case Text(t, trusted) =>
        var texts := expand(t).value;
        && |out| == |texts|
        && forall k :: 0 <= k < |texts| ==>
          out[k].text == texts[k] && out[k].trusted == trusted && out[k].keyName == if trusted then id else ""
  {
    assert [line][1..] == [];
    assert Flatten(table, expand, id, [line], depth) == FlattenLine(table, expand, id, line, depth);
  }

  /** A successful expansion is the flattening, at any depth that lets every
      command be entered once. */
  lemma {:induction false} ExpansionIsFlattening(table: Table, expand: LineExpander, id: string,
                                                 lines: seq<TemplateLine>,
                                                seen: set<string>, depth: nat)
    requires ExpandLines(table, expand, id, lines, seen).Ok? && depth >= |table.Keys - seen|
    ensures ExpandLines(table, expand, id, lines, seen).value == Flatten(table, expand, id, lines, depth)
    decreases |table.Keys - seen|, |lines|
  {
    if lines != [] {
      ExpansionIsFlattening(table, expand, id, lines[1..], seen, depth);
      if lines[0].External? && lines[0].command in table {
        var c := lines[0].command;
        ExternalExpands(table, expand, id, c, seen);
        Shrinks(table, seen, c);
        ExpansionIsFlattening(table, expand, c, table[c], seen + {c}, depth - 1);
      }
    }
  }

  /** What instantiation returns is the flattening of the effective table. */
  lemma InstantiateFlattens(table: Table, expand: LineExpander, id: string, merged: seq<TemplateLine>, depth: nat)
    requires Instantiate(table, expand, id, merged).Ok? && depth >= |table|
    ensures Instantiate(table, expand, id, merged).value
      == Flatten(Effective(table, id, merged), expand, id, merged, depth)
  {
    var other := Effective(table, id, merged);
    Shrinks(table, {}, id);
    RootEntryUnused(table, expand, id, merged, id, merged, {} + {id});
    assert other.Keys == table.Keys;
    ExpansionIsFlattening(other, expand, id, merged, {} + {id}, depth);
  }

  /** Where an expected line comes from: a line of a reachable template, whose key
      it carries if that line is trusted. */
  ghost predicate ComesFrom(table: Table, expand: LineExpander, e: ExpectedLine, a: string) {
    a in table && exists k :: 0 <= k < |table[a]| && LineYields(table[a][k], expand, e, a)
  }

  ghost predicate LineYields(line: TemplateLine, expand: LineExpander, e: ExpectedLine, a: string) {
    && line.Text? && expand(line.template).Some? && e.text in expand(line.template).value
    && e.trusted == line.trusted && e.keyName == if line.trusted then a else ""
  }

  lemma {:induction false} EveryLineHasASource(table: Table, expand: LineExpander, id: string, k: nat, depth: nat,
                                               e: ExpectedLine)
    returns (a: string)
    requires id in table && k <= |table[id]| && e in Flatten(table, expand, id, table[id][k..], depth)
    ensures Reaches(ReferenceGraph(table), id, a) && ComesFrom(table, expand, e, a)
    decreases depth, |table[id]| - k
  {
    var line := table[id][k..][0];
    assert line == table[id][k] && table[id][k..][1..] == table[id][k + 1..];
    if e in FlattenLine(table, expand, id, line, depth) {
      match line
      case External(c) =>
        assert table[c][0..] == table[c];
        a := EveryLineHasASource(table, expand, c, 0, depth - 1, e);
        assert IsEdge(ReferenceGraph(table), id, c);
        ReachesByEdge(ReferenceGraph(table), id, c, a);
      case Text(t, trusted) =>
        a := id;
        ReachesSelf(ReferenceGraph(table), id);
        assert LineYields(table[id][k], expand, e, a);
    } else {
      a := EveryLineHasASource(table, expand, id, k + 1, depth, e);
    }
  }
}
