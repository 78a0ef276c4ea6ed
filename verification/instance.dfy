/** Making a target's graded test group: points, target names and requirements. */
module Instances {
  import opened Wrappers
  import opened Digraph
  import opened Sums
  import opened Grading
  import opened TestRun
  import opened Assignment
  import opened Targets
  import opened Requirements
  import Groups

  /** A test of a target. */
  datatype Entry = Entry(test: TargetTest, target: string)

  function Entries(t: Target): seq<Entry> {
    seq(|t.Tests|, i requires 0 <= i < |t.Tests| => Entry(t.Tests[i], t.Name))
  }

  /** The tests of all targets, in order. */
  function AllEntries(targets: seq<Target>): seq<Entry> {
    if targets == [] then [] else AllEntries(targets[..|targets| - 1]) + Entries(targets[|targets| - 1])
  }

  /** What grading makes of a test in the group. */
  datatype Mark = Mark(points: nat, target: string, scoring: Scoring, penalty: nat)

  const UNMARKED := Mark(0, "", Ungraded, 0)

  function MarkOf(e: Entry): Mark {
    Mark(e.test.points, e.target, if e.test.partial then Partial else Entire, e.test.memLeakPoints)
  }

  function MarkOn(test: Test): Mark
    reads test`PointsAvailable, test`TargetName, test`ScoringMethod, test`MemLeakPoints
  {
    Mark(test.PointsAvailable, test.TargetName, test.ScoringMethod, test.MemLeakPoints)
  }

  /** The marks once the entries have been applied. */
  function Marked(marks: map<string, Mark>, entries: seq<Entry>): map<string, Mark> {
    if entries == [] then marks
    else
      var e := entries[|entries| - 1];
      Marked(marks, entries[..|entries| - 1])[e.test.id := MarkOf(e)]
  }

  ghost predicate UniqueIds(entries: seq<Entry>) {
    forall i, j :: 0 <= i < j < |entries| ==> entries[i].test.id != entries[j].test.id
  }

  ghost function Ids(entries: seq<Entry>): set<string> {
    set e | e in entries :: e.test.id
  }

  function IdList(entries: seq<Entry>): seq<string> {
    seq(|entries|, i requires 0 <= i < |entries| => entries[i].test.id)
  }

  // ----- The tests of a group -----

  /** No two tests of the group share an object. */
  ghost predicate Separate(group: map<string, Test>)
    reads group.Values`Commands
  {
    && (forall a, b :: a in group && b in group && a != b ==>
      group[a] != group[b] && Unshared(group[a].Commands, group[b].Commands))
    && (forall a :: a in group ==> Distinct(group[a].Commands))
  }

  ghost predicate Unshared(a: seq<Command>, b: seq<Command>) {
    forall i, j :: 0 <= i < |a| && 0 <= j < |b| ==> a[i] != b[j]
  }

  /** All commands of all tests are among commands. */
  ghost predicate Within(group: map<string, Test>, commands: set<Command>)
    reads group.Values`Commands
  {
    forall id, c :: id in group && c in group[id].Commands ==> c in commands
  }

  /** As loaded: not graded yet, every command with an id and no points. */
  ghost predicate Pristine(test: Test)
    reads test`PointsAvailable, test`TargetName, test`ScoringMethod, test`MemLeakPoints, test`Commands, test.Commands
  {
    && MarkOn(test) == UNMARKED
    && AllZero(PointsOf(test.Commands)) && Identified(test.Commands)
  }

  /** A partially scored test is worth what its commands are worth together. */
  ghost predicate Consistent(test: Test)
    reads test`PointsAvailable, test`TargetName, test`ScoringMethod, test`Commands, test.Commands
  {
    test.ScoringMethod == Partial ==> Total(PointsOf(test.Commands)) == test.PointsAvailable
  }

  /** The test is marked so; before its grading it is as loaded, and at any time
      its points are consistent. */
  ghost predicate OnTrack(test: Test, mark: Mark, graded: bool)
    reads test`PointsAvailable, test`TargetName, test`ScoringMethod, test`MemLeakPoints, test`Commands, test.Commands
  {
    && MarkOn(test) == mark
    && Consistent(test)
    && (!graded ==> Pristine(test))
  }

  /** The group as it is when the tests in done have been graded. */
  ghost predicate Graded(group: map<string, Test>, commands: set<Command>, marks: map<string, Mark>, done: set<string>)
    requires Within(group, commands)
    reads group.Values`PointsAvailable, group.Values`TargetName, group.Values`ScoringMethod, group.Values`MemLeakPoints
    reads group.Values`Commands, commands
  {
    marks.Keys == group.Keys && forall id :: id in group ==> OnTrack(group[id], marks[id], id in done)
  }

  lemma PairUnshared(group: map<string, Test>, a: string, b: string)
    requires Separate(group) && a in group && b in group
    ensures Distinct(group[b].Commands)
    ensures a != b ==> group[a] != group[b] && Unshared(group[a].Commands, group[b].Commands)
  {
  }

  /** Grades one test that has not been graded before. */
  method GradeTest(test: Test, e: Entry, ghost mark: Mark) returns (failure: Option<ApplyError>)
    requires Distinct(test.Commands) && OnTrack(test, mark, false)
    modifies test`PointsAvailable, test`ScoringMethod, test`MemLeakPoints, test`TargetName
    modifies test.Commands`PointsAvailable, test.Commands`Input
    ensures failure.None? <==> Exact(IdsOf(test.Commands), e.test)
    ensures failure.None? ==> OnTrack(test, MarkOf(e), true)
  {
    hide Exact, PointsOf, Identified, AllZero, Total, Distinct;
    failure := ApplyTo(e.test, test);
    test.TargetName := e.target;
  }

  /** Grades one test of the group. */
  method GradeEntry(group: map<string, Test>, e: Entry, ghost commands: set<Command>,
                    ghost marks: map<string, Mark>, ghost done: set<string>)
    returns (error: Option<TargetError>)
    requires Separate(group) && Within(group, commands) && Graded(group, commands, marks, done) && e.test.id !in done
    modifies group.Values`PointsAvailable, group.Values`ScoringMethod, group.Values`MemLeakPoints,
      group.Values`TargetName
    modifies commands`PointsAvailable, commands`Input
    ensures error.None? <==> e.test.id in group && Exact(IdsOf(group[e.test.id].Commands), e.test)
    ensures error.None? ==> Graded(group, commands, marks[e.test.id := MarkOf(e)], done + {e.test.id})
  {
    if e.test.id !in group {
      return Some(NoSuchTest);
    }
    hide Exact, IdsOf, Distinct, OnTrack, Separate, Consistent, Pristine;
    PairUnshared(group, e.test.id, e.test.id);
    var failure := GradeTest(group[e.test.id], e, marks[e.test.id]);
    forall id | id in group && id != e.test.id ensures OnTrack(group[id], marks[id], id in done) {
      PairUnshared(group, id, e.test.id);
      assert old(OnTrack(group[id], marks[id], id in done));
    }
    error := if failure.Some? then Some(BadAssignment(failure.value)) else None;
  }

  // ----- All tests of all targets -----

  function TestPoints(tests: seq<TargetTest>): nat {
    if tests == [] then 0 else TestPoints(tests[..|tests| - 1]) + tests[|tests| - 1].points
  }

  /** The first n tests of the target are in the group and map exactly onto it. */
  ghost predicate AllExact(group: map<string, Test>, tests: seq<TargetTest>, n: nat)
    requires n <= |tests|
    reads group.Values`Commands
  {
    forall j :: 0 <= j < n ==> tests[j].id in group && Exact(IdsOf(group[tests[j].id].Commands), tests[j])
  }

  /** What grading the tests of a target needs. */
  ghost predicate Gradable(group: map<string, Test>, t: Target)
    reads group.Values`Commands
  {
    AllExact(group, t.Tests, |t.Tests|) && TestPoints(t.Tests) == t.Points
  }

  lemma MarkedMore(marks: map<string, Mark>, entries: seq<Entry>, e: Entry)
    ensures Marked(marks, entries + [e]) == Marked(marks, entries)[e.test.id := MarkOf(e)]
    ensures Ids(entries + [e]) == Ids(entries) + {e.test.id}
  {
    assert (entries + [e])[..|entries|] == entries;
    forall x | x in Ids(entries) + {e.test.id} ensures x in Ids(entries + [e]) {
      if x in Ids(entries) {
        var f :| f in entries && f.test.id == x;
        assert f in entries + [e];
      } else {
        assert e in entries + [e];
      }
    }
  }

  lemma UniqueIsNew(done: seq<Entry>, more: seq<Entry>, j: nat)
    requires UniqueIds(done + more) && j < |more|
    ensures more[j].test.id !in Ids(done + more[..j])
  {
    forall e | e in done + more[..j] ensures e.test.id != more[j].test.id {
      var i :| 0 <= i < |done + more[..j]| && (done + more[..j])[i] == e;
      assert (done + more)[i] == e && (done + more)[|done| + j] == more[j];
    }
  }

  lemma EntryOf(t: Target, j: nat)
    requires j < |t.Tests|
    ensures Entries(t)[..j + 1] == Entries(t)[..j] + [Entry(t.Tests[j], t.Name)]
    ensures Entries(t)[j] == Entry(t.Tests[j], t.Name)
    ensures TestPoints(t.Tests[..j + 1]) == TestPoints(t.Tests[..j]) + t.Tests[j].points
  {
    assert t.Tests[..j + 1][..j] == t.Tests[..j];
  }

  lemma EntriesAll(t: Target)
    ensures |Entries(t)| == |t.Tests| && Entries(t)[..0] == [] && Entries(t)[..|t.Tests|] == Entries(t)
    ensures t.Tests[..|t.Tests|] == t.Tests && TestPoints(t.Tests[..0]) == 0
  {
  }

  /** Grades the tests of one target; done are the entries graded before. */
  method GradeTarget(group: map<string, Test>, t: Target, ghost commands: set<Command>,
                     ghost marks: map<string, Mark>, ghost done: seq<Entry>)
    returns (error: Option<TargetError>)
    requires Separate(group) && Within(group, commands) && UniqueIds(done + Entries(t))
    requires Graded(group, commands, Marked(marks, done), Ids(done))
    modifies group.Values`PointsAvailable, group.Values`ScoringMethod, group.Values`MemLeakPoints,
      group.Values`TargetName
    modifies commands`PointsAvailable, commands`Input
    ensures error.None? <==> Gradable(group, t)
    ensures error.None? ==> Graded(group, commands, Marked(marks, done + Entries(t)), Ids(done + Entries(t)))
  {
    hide Marked, Ids, Exact, Graded, Separate, Within, Entries, TestPoints, UniqueIds;
    var total := 0;
    EntriesAll(t);
    assert done + [] == done;
    for j := 0 to |t.Tests|
      invariant Separate(group) && Within(group, commands)
      invariant AllExact(group, t.Tests, j) && total == TestPoints(t.Tests[..j])
      invariant Graded(group, commands, Marked(marks, done + Entries(t)[..j]), Ids(done + Entries(t)[..j]))
    {
      var e := Entry(t.Tests[j], t.Name);
      EntryOf(t, j);
      UniqueIsNew(done, Entries(t), j);
      MarkedMore(marks, done + Entries(t)[..j], e);
      assert done + Entries(t)[..j + 1] == done + Entries(t)[..j] + [e];
      error := GradeEntry(group, e, commands, Marked(marks, done + Entries(t)[..j]), Ids(done + Entries(t)[..j]));
      if error.Some? {
        return;
      }
      total := total + t.Tests[j].points;
    }
    error := if total != t.Points then Some(WrongTotal) else None;
  }

  lemma AllEntriesStep(targets: seq<Target>, i: nat)
    requires i < |targets|
    ensures AllEntries(targets[..i + 1]) == AllEntries(targets[..i]) + Entries(targets[i])
  {
    assert targets[..i + 1][..i] == targets[..i];
  }

  lemma {:induction false} AllEntriesSplit(targets: seq<Target>, i: nat)
    requires i <= |targets|
    ensures AllEntries(targets[..i]) <= AllEntries(targets)
    decreases |targets| - i
  {
    if i < |targets| {
      AllEntriesStep(targets, i);
      AllEntriesSplit(targets, i + 1);
    } else {
      assert targets[..i] == targets;
    }
  }

  lemma UniqueInPart(targets: seq<Target>, i: nat)
    requires i < |targets| && UniqueIds(AllEntries(targets))
    ensures UniqueIds(AllEntries(targets[..i]) + Entries(targets[i]))
  {
    AllEntriesStep(targets, i);
    AllEntriesSplit(targets, i + 1);
    var part, all := AllEntries(targets[..i + 1]), AllEntries(targets);
    forall a, b | 0 <= a < b < |part| ensures part[a].test.id != part[b].test.id {
      assert part[a] == all[a] && part[b] == all[b];
    }
  }

  lemma NothingMarked(targets: seq<Target>, marks: map<string, Mark>)
    ensures Marked(marks, AllEntries(targets[..0])) == marks && Ids(AllEntries(targets[..0])) == {}
  {
  }

  /** Grades the tests of all targets. */
  method GradeAll(group: map<string, Test>, targets: seq<Target>, ghost commands: set<Command>,
                  ghost marks: map<string, Mark>)
    returns (error: Option<TargetError>)
    requires Separate(group) && Within(group, commands) && UniqueIds(AllEntries(targets))
    requires Graded(group, commands, marks, {})
    modifies group.Values`PointsAvailable, group.Values`ScoringMethod, group.Values`MemLeakPoints,
      group.Values`TargetName
    modifies commands`PointsAvailable, commands`Input
    ensures error.None? <==> AllGradable(group, targets)
    ensures error.None? ==> Graded(group, commands, Marked(marks, AllEntries(targets)), Ids(AllEntries(targets)))
  {
    hide Marked, Ids, Gradable, Graded, Separate, Within, Entries, AllEntries, UniqueIds;
    NothingMarked(targets, marks);
    for i := 0 to |targets|
      invariant Separate(group) && Within(group, commands)
      invariant forall j :: 0 <= j < i ==> Gradable(group, targets[j])
      invariant Graded(group, commands, Marked(marks, AllEntries(targets[..i])), Ids(AllEntries(targets[..i])))
    {
      UniqueInPart(targets, i);
      AllEntriesStep(targets, i);
      error := GradeTarget(group, targets[i], commands, marks, AllEntries(targets[..i]));
      if error.Some? {
        return;
      }
    }
    assert targets[..|targets|] == targets;
    error := None;
  }

  // ----- Duplicate tests -----

  /** The test ids of all targets, unless one occurs twice. */
  method CollectIds(targets: seq<Target>) returns (r: Option<seq<string>>)
    ensures r.Some? <==> UniqueIds(AllEntries(targets))
    ensures r.Some? ==> r.value == IdList(AllEntries(targets))
  {
    hide AllEntries, Ids, IdList, UniqueIds, Entries;
    var done, ids := {}, [];
    NothingMarked(targets, map[]);
    NothingListed(targets);
    for i := 0 to |targets|
      invariant UniqueIds(AllEntries(targets[..i])) && done == Ids(AllEntries(targets[..i]))
        && ids == IdList(AllEntries(targets[..i]))
    {
      var t := targets[i];
      EntriesAll(t);
      ghost var before := AllEntries(targets[..i]);
      assert before + [] == before;
      AllEntriesStep(targets, i);
      for j := 0 to |t.Tests|
        invariant UniqueIds(before + Entries(t)[..j]) && done == Ids(before + Entries(t)[..j])
          && ids == IdList(before + Entries(t)[..j])
      {
        EntryOf(t, j);
        ghost var e := Entries(t)[j];
        assert before + Entries(t)[..j + 1] == before + Entries(t)[..j] + [e];
        UniqueMore(before + Entries(t)[..j], e);
        MarkedMore(map[], before + Entries(t)[..j], e);
        ListMore(before + Entries(t)[..j], e);
        if t.Tests[j].id in done {
          NotUniqueInWhole(targets, i, j);
          return None;
        }
        ids := ids + [t.Tests[j].id];
        done := done + {t.Tests[j].id};
      }
    }
    assert targets[..|targets|] == targets;
    r := Some(ids);
  }

  lemma NothingListed(targets: seq<Target>)
    ensures UniqueIds(AllEntries(targets[..0])) && IdList(AllEntries(targets[..0])) == []
  {
  }

  lemma ListMore(entries: seq<Entry>, e: Entry)
    ensures IdList(entries + [e]) == IdList(entries) + [e.test.id]
  {
  }

  lemma UniqueMore(entries: seq<Entry>, e: Entry)
    requires UniqueIds(entries)
    ensures UniqueIds(entries + [e]) <==> e.test.id !in Ids(entries)
  {
    if e.test.id in Ids(entries) {
      var f :| f in entries && f.test.id == e.test.id;
      var i :| 0 <= i < |entries| && entries[i] == f;
      assert (entries + [e])[i] == f && (entries + [e])[|entries|] == e;
    }
  }

  lemma NotUniqueInWhole(targets: seq<Target>, i: nat, j: nat)
    requires i < |targets| && j < |targets[i].Tests|
    requires !UniqueIds(AllEntries(targets[..i]) + Entries(targets[i])[..j + 1])
    ensures !UniqueIds(AllEntries(targets))
  {
    var part, all := AllEntries(targets[..i]) + Entries(targets[i])[..j + 1], AllEntries(targets);
    AllEntriesStep(targets, i);
    AllEntriesSplit(targets, i + 1);
    var a, b :| 0 <= a < b < |part| && part[a].test.id == part[b].test.id;
    assert part[a] == all[a] && part[b] == all[b];
  }

  // ----- What the marks add up to -----

  ghost function PointsIn(marks: map<string, Mark>): map<string, int> {
    map id | id in marks :: marks[id].points
  }

  function EntryPoints(entries: seq<Entry>): nat {
    if entries == [] then 0 else EntryPoints(entries[..|entries| - 1]) + entries[|entries| - 1].test.points
  }

  /** A graded test has the points and target of its entry, any other test what it
      had before. */
  lemma {:induction false} MarkedAt(marks: map<string, Mark>, entries: seq<Entry>, id: string)
    requires UniqueIds(entries)
    ensures id !in Ids(entries) && id in marks ==>
      id in Marked(marks, entries) && Marked(marks, entries)[id] == marks[id]
    ensures forall e :: e in entries && e.test.id == id ==>
      id in Marked(marks, entries) && Marked(marks, entries)[id] == MarkOf(e)
  {
    if entries != [] {
      var k := |entries| - 1;
      MarkedAt(marks, entries[..k], id);
      assert entries == entries[..k] + [entries[k]];
      forall e | e in entries && e.test.id == id ensures e in entries[..k] || e == entries[k] {
      }
      assert id in Ids(entries[..k]) ==> id in Ids(entries);
    }
  }

  lemma {:induction false} MarkedKeys(marks: map<string, Mark>, entries: seq<Entry>)
    ensures Marked(marks, entries).Keys == marks.Keys + Ids(entries)
  {
    if entries != [] {
      var k := |entries| - 1;
      MarkedKeys(marks, entries[..k]);
      assert entries == entries[..k] + [entries[k]];
      MarkedMore(marks, entries[..k], entries[k]);
    }
  }

  lemma UniquePrefix(entries: seq<Entry>, k: nat)
    requires UniqueIds(entries) && k < |entries|
    ensures UniqueIds(entries[..k]) && entries[k].test.id !in Ids(entries[..k])
      && Ids(entries[..k + 1]) == Ids(entries[..k]) + {entries[k].test.id}
  {
    assert [] + entries == entries && [] + entries[..k] == entries[..k];
    UniqueIsNew([], entries, k);
    assert entries[..k + 1] == entries[..k] + [entries[k]];
    MarkedMore(map[], entries[..k], entries[k]);
  }

  /** The points of the whole group are those of the entries. */
  lemma {:induction false} MarkedAddsUp(marks: map<string, Mark>, entries: seq<Entry>)
    requires UniqueIds(entries) && Ids(entries) <= marks.Keys
    requires forall id :: id in marks ==> marks[id].points == 0
    ensures Marked(marks, entries).Keys == marks.Keys
    ensures SumOver(marks.Keys, PointsIn(Marked(marks, entries))) == EntryPoints(entries)
  {
    hide Ids, UniqueIds, SumOver;
    if entries == [] {
      SumConstant(marks.Keys, PointsIn(marks), 0);
    } else {
      var k := |entries| - 1;
      var e, before := entries[k], Marked(marks, entries[..k]);
      UniquePrefix(entries, k);
      assert entries[..k + 1] == entries;
      MarkedAddsUp(marks, entries[..k]);
      MarkedAt(marks, entries[..k], e.test.id);
      var points := PointsIn(before)[e.test.id := e.test.points];
      assert PointsIn(before[e.test.id := MarkOf(e)]) == points;
      SumUpdate(marks.Keys, PointsIn(before), e.test.id, e.test.points);
    }
  }

  lemma {:induction false} EntryPointsConcat(a: seq<Entry>, b: seq<Entry>)
    ensures EntryPoints(a + b) == EntryPoints(a) + EntryPoints(b)
  {
    if b == [] {
      assert a + b == a;
    } else {
      assert (a + b)[..|a + b| - 1] == a + b[..|b| - 1];
      EntryPointsConcat(a, b[..|b| - 1]);
    }
  }

  lemma {:induction false} TargetEntryPoints(t: Target, n: nat)
    requires n <= |t.Tests|
    ensures EntryPoints(Entries(t)[..n]) == TestPoints(t.Tests[..n])
  {
    if n > 0 {
      TargetEntryPoints(t, n - 1);
      assert Entries(t)[..n][..n - 1] == Entries(t)[..n - 1] && t.Tests[..n][..n - 1] == t.Tests[..n - 1];
    }
  }

  lemma {:induction false} AllEntryPoints(targets: seq<Target>)
    requires forall i :: 0 <= i < |targets| ==> TestPoints(targets[i].Tests) == targets[i].Points
    ensures EntryPoints(AllEntries(targets)) == PointsOfTargets(targets)
  {
    if targets != [] {
      var k := |targets| - 1;
      AllEntryPoints(targets[..k]);
      EntryPointsConcat(AllEntries(targets[..k]), Entries(targets[k]));
      TargetEntryPoints(targets[k], |targets[k].Tests|);
      EntriesAll(targets[k]);
    }
  }

  // ----- The instance -----

  /** A test as loaded from its file: its commands are its own, nothing is graded,
      nobody needs it. */
  ghost predicate Loaded(library: map<string, Test>, commands: set<Command>, deps: Edges)
    reads library.Values, commands
  {
    && library.Keys == deps.Keys && Closed(deps)
    && Separate(library) && Within(library, commands)
    && forall id :: id in library ==> OnTrack(library[id], UNMARKED, false) && library[id].requiredBy == {}
  }

  ghost function Blank(ids: set<string>): map<string, Mark> {
    map id | id in ids :: UNMARKED
  }

  /** The group an instance consists of: the requested tests with everything they
      depend on, graded by the entries of all targets that run, each target's tests
      adding up to its points, and each test marked for the targets that need it. */
  ghost predicate IsInstanceOf(group: map<string, Test>, commands: set<Command>, targets: seq<Target>, deps: Edges,
                               requested: set<string>)
    reads group.Values, commands
  {
    var entries, part := AllEntries(targets), Groups.Restrict(deps, group.Keys);
    && group.Keys == Groups.Closure(deps, requested)
    && part.Keys == group.Keys && Closed(part) && !Cyclic(part)
    && UniqueIds(entries) && Separate(group) && Within(group, commands)
    && Graded(group, commands, Marked(Blank(group.Keys), entries), Ids(entries))
    && AllGradable(group, targets)
    && MarkedFor(map x | x in group :: {}, Required(group), TargetsOf(group), part, group.Keys)
  }

  /** The tests of a library that are in a group. */
  function Pick(library: map<string, Test>, ids: set<string>): map<string, Test> {
    map id | id in ids && id in library :: library[id]
  }

  ghost predicate AllGradable(group: map<string, Test>, targets: seq<Target>)
    reads group.Values`Commands
  {
    forall i :: 0 <= i < |targets| ==> Gradable(group, targets[i])
  }

  lemma PickIsSeparate(library: map<string, Test>, commands: set<Command>, ids: set<string>)
    requires Separate(library) && Within(library, commands)
    ensures Separate(Pick(library, ids)) && Within(Pick(library, ids), commands)
  {
    hide Unshared, Distinct;
    var g := Pick(library, ids);
    forall a, b | a in g && b in g && a != b ensures g[a] != g[b] && Unshared(g[a].Commands, g[b].Commands) {
      PairUnshared(library, a, b);
    }
    forall a | a in g ensures Distinct(g[a].Commands) {
      PairUnshared(library, a, a);
    }
  }

  lemma PickIsBlank(library: map<string, Test>, commands: set<Command>, deps: Edges, ids: set<string>)
    requires Loaded(library, commands, deps) && ids <= library.Keys
    ensures var g := Pick(library, ids);
      && g.Values <= library.Values
      && Separate(g) && Within(g, commands) && Graded(g, commands, Blank(ids), {})
      && Required(g) == map x | x in g :: {}
  {
    hide Separate, Within, OnTrack;
    PickIsSeparate(library, commands, ids);
  }

  lemma LoadedIsClosed(library: map<string, Test>, commands: set<Command>, deps: Edges)
    requires Loaded(library, commands, deps)
    ensures library.Keys == deps.Keys && Closed(deps)
  {
  }

  lemma SeparateSuits(group: map<string, Test>, deps: Edges)
    requires Separate(group) && deps.Keys == group.Keys && Closed(deps)
    ensures WellFormed(group, deps)
  {
  }

  lemma IsInstance(group: map<string, Test>, commands: set<Command>, targets: seq<Target>, deps: Edges,
                   requested: set<string>)
    requires Closed(deps) && requested <= deps.Keys && !Cyclic(deps) && group.Keys == Groups.Closure(deps, requested)
    requires UniqueIds(AllEntries(targets)) && Separate(group) && Within(group, commands)
    requires Graded(group, commands, Marked(Blank(group.Keys), AllEntries(targets)), Ids(AllEntries(targets)))
    requires AllGradable(group, targets)
    requires MarkedFor(map x | x in group :: {}, Required(group), TargetsOf(group),
                       Groups.Restrict(deps, group.Keys), group.Keys)
    ensures IsInstanceOf(group, commands, targets, deps, requested)
  {
    Groups.RestrictSuits(deps, requested);
  }

  /** Grades the group of the given tests for the targets. */
  method GradeGroup(targets: seq<Target>, library: map<string, Test>, deps: Edges, tests: set<string>,
                    ghost commands: set<Command>, ghost requested: set<string>)
    returns (r: Result<map<string, Test>, TargetError>)
    requires Loaded(library, commands, deps) && UniqueIds(AllEntries(targets))
    requires requested <= deps.Keys && !Cyclic(deps) && tests == Groups.Closure(deps, requested)
    modifies library.Values`PointsAvailable, library.Values`ScoringMethod, library.Values`MemLeakPoints,
      library.Values`TargetName
    modifies library.Values`requiredBy, commands`PointsAvailable, commands`Input
    ensures r.Ok? <==> AllGradable(Pick(library, tests), targets)
    ensures r.Ok? ==> r.value == Pick(library, tests) && IsInstanceOf(r.value, commands, targets, deps, requested)
  {
    hide *;
    LoadedIsClosed(library, commands, deps);
    Groups.RestrictSuits(deps, requested);
    assert tests <= library.Keys by {
      RestrictKeys(deps, tests);
    }
    PickIsBlank(library, commands, deps, tests);
    PickKeys(library, tests);
    var group := Pick(library, tests);
    var error := GradeAll(group, targets, commands, Blank(tests));
    if error.Some? {
      return Err(error.value);
    }
    var part := Groups.Restrict(deps, tests);
    ghost var order := AcyclicHasOrder(part);
    SeparateSuits(group, part);
    AssignRequiredBy(group, part, order);
    IsInstance(group, commands, targets, deps, requested);
    return Ok(group);
  }

  lemma RestrictKeys(deps: Edges, tests: set<string>)
    ensures Groups.Restrict(deps, tests).Keys <= deps.Keys
  {
  }

  lemma PickKeys(library: map<string, Test>, ids: set<string>)
    requires ids <= library.Keys
    ensures Pick(library, ids).Keys == ids
  {
  }

  /** The tests that the targets' test expressions stand for. */
  ghost function Requested(targets: seq<Target>, expand: seq<string> -> Option<set<string>>): set<string> {
    var entries := AllEntries(targets);
    if UniqueIds(entries) && expand(IdList(entries)).Some? then expand(IdList(entries)).value else {}
  }

  /** Creates the graded group of a target.  expand gives the tests that the test
      expressions of a configuration stand for, deps the expanded dependencies of
      all tests. */
  method Instance(t: Target, library: map<string, Test>, deps: Edges, expand: seq<string> -> Option<set<string>>,
                  ghost commands: set<Command>)
    returns (r: Result<map<string, Test>, TargetError>, ghost requested: set<string>)
    requires Loaded(library, commands, deps)
    requires forall ids :: expand(ids).Some? ==> expand(ids).value <= library.Keys
    modifies library.Values`PointsAvailable, library.Values`ScoringMethod, library.Values`MemLeakPoints,
      library.Values`TargetName
    modifies library.Values`requiredBy, commands`PointsAvailable, commands`Input
    ensures requested == Requested(AllTargets(t), expand)
    ensures r.Ok? <==>
      && UniqueIds(AllEntries(AllTargets(t))) && expand(IdList(AllEntries(AllTargets(t)))).Some? && !Cyclic(deps)
      && AllGradable(Pick(library, Groups.Closure(deps, requested)), AllTargets(t))
    ensures r.Ok? ==> r.value == Pick(library, Groups.Closure(deps, requested))
    ensures r.Ok? ==> requested <= library.Keys && IsInstanceOf(r.value, commands, AllTargets(t), deps, requested)
    ensures !UniqueIds(AllEntries(AllTargets(t))) ==> r == Err(DuplicateTest)
  {
    hide Loaded, AllEntries, IdList, UniqueIds, IsInstanceOf, Cyclic, Groups.Closure, AllGradable, Pick;
    requested := {};
    var targets := (if t.IsMetaTarget then [] else [t]) + t.previousSubTargets;
    var ids := CollectIds(targets);
    if ids.None? {
      return Err(DuplicateTest), requested;
    }
    var expanded := expand(ids.value);
    if expanded.None? {
      return Err(NoSuchTest), requested;
    }
    requested := expanded.value;
    LoadedIsClosed(library, commands, deps);
    var made := Groups.GroupFromConfig(deps, expanded.value, true, {});
    if made.Err? {
      return Err(BadDependencies), requested;
    }
    r := GradeGroup(targets, library, deps, made.value.Tests, commands, requested);
  }

  // ----- The points of a test and of its commands -----

  lemma {:induction false} PointsFromTotal(specs: seq<Spec>, points: seq<nat>, k: nat)
    requires k <= |specs| == |points| && forall i :: 0 <= i < |points| ==> points[i] == specs[i].points
    ensures PointsFrom(specs, k) + Total(points[..k]) == Total(points)
    decreases |specs| - k
  {
    if k == |specs| {
      assert points[..k] == points;
    } else {
      PointsFromTotal(specs, points, k + 1);
      assert points[..k + 1][..k] == points[..k];
    }
  }

  /** What the commands bring to a run is worth what they are worth. */
  lemma ViewsAddUp(commands: seq<Command>)
    ensures PointsFrom(Views(commands), 0) == Total(PointsOf(commands))
  {
    var specs, points := Views(commands), PointsOf(commands);
    forall i | 0 <= i < |points| ensures points[i] == specs[i].points {
      PointsAndInputsAt(commands, i);
      assert specs[i] == commands[i].View();
    }
    PointsFromTotal(specs, points, 0);
  }

  /** However a graded test runs, it ends with at most the points it has, also
      counting what a leak took off, which is at most the penalty. */
  lemma GradedTestStaysInBounds(test: Test, s: GradedScript)
    requires Consistent(test) && |test.Commands| > 0 && s.specs == Views(test.Commands)
    ensures var e := EndingOf(s, test.ScoringMethod, test.PointsAvailable, test.MemLeakPoints);
      e.earned + e.deducted <= test.PointsAvailable && e.deducted <= test.MemLeakPoints
  {
    hide Gross, Lost, Simulate, Consistent;
    ViewsAddUp(test.Commands);
    ConsistentMeans(test);
    PointsStayInBounds(s, test.ScoringMethod, test.PointsAvailable, test.MemLeakPoints);
  }

  lemma ConsistentMeans(test: Test)
    requires Consistent(test)
    ensures test.ScoringMethod == Partial ==> Total(PointsOf(test.Commands)) == test.PointsAvailable
  {
  }
}
