/** Scoring a submission: the results of its tests are added up, for the submission
    itself and for each of the targets a metatarget submission is split into. */
module Submissions {
  import opened Wrappers
  import opened Digraph
  import opened Sums
  import opened TestRun
  import Grading
  import opened Assignment
  import opened Targets
  import opened Instances
  import opened Requirements
  import Groups

  datatype Status = Submitted | Underway | Aborted | Completed

  /** What the runner reports of a finished test. */
  datatype Outcome = Outcome(test: string, aborted: bool, earned: nat, target: string)

  ghost predicate AnyAbort(results: seq<Outcome>) {
    exists i :: 0 <= i < |results| && results[i].aborted
  }

  function EarnedBy(results: seq<Outcome>): nat {
    if results == [] then 0 else EarnedBy(results[..|results| - 1]) + results[|results| - 1].earned
  }

  /** The points earned by the tests of one target. */
  function EarnedFor(results: seq<Outcome>, name: string): nat {
    if results == [] then 0
    else
      var r := results[|results| - 1];
      EarnedFor(results[..|results| - 1], name) + if r.target == name then r.earned else 0
  }

  ghost predicate DistinctSplits(splits: seq<Submission>) {
    forall i, j :: 0 <= i < j < |splits| ==> splits[i] != splits[j]
  }

  /** The splits are for the targets so named, in this order. */
  ghost predicate NamedAs(splits: seq<Submission>, names: seq<string>)
    reads splits`TargetName
  {
    |splits| == |names| && forall i :: 0 <= i < |splits| ==> splits[i].TargetName == names[i]
  }

  ghost predicate ScoredAs(splits: seq<Submission>, names: seq<string>, results: seq<Outcome>, status: Status)
    requires |splits| == |names|
    reads splits`Status, splits`Score
  {
    forall i :: 0 <= i < |splits| ==>
      splits[i].Status == status && splits[i].Score == if status == Aborted then 0 else EarnedFor(results, names[i])
  }

  lemma ResultsMore(results: seq<Outcome>, k: nat, name: string)
    requires k < |results|
    ensures EarnedBy(results[..k + 1]) == EarnedBy(results[..k]) + results[k].earned
    ensures EarnedFor(results[..k + 1], name)
         == EarnedFor(results[..k], name) + if results[k].target == name then results[k].earned else 0
    ensures AnyAbort(results[..k + 1]) <==> AnyAbort(results[..k]) || results[k].aborted
  {
    var some := results[..k + 1];
    assert some[..k] == results[..k] && some[k] == results[k];
    if AnyAbort(results[..k]) {
      var i :| 0 <= i < k && results[..k][i].aborted;
      assert some[i].aborted;
    }
  }

  function NamesOf(targets: seq<Target>): (names: seq<string>)
    ensures |names| == |targets|
  {
    seq(|targets|, i requires 0 <= i < |targets| => targets[i].Name)
  }

  class Submission {
    const origTarget: Target
    var TargetName: string
    var IsMetaTarget: bool
    var PointsAvailable: nat
    var Status: Status
    var Score: nat
    var TestIDs: seq<string>

    /** A new submission; a subtarget is submitted to its metatarget. */
    constructor (target: Target, buildTest: string)
      ensures origTarget == target && Status == Submitted && Score == 0 && TestIDs == [buildTest]
      ensures PointsAvailable == SubmissionPoints(target)
      ensures TargetName == if Upgraded(target) then target.metaTarget.Name else target.Name
      ensures IsMetaTarget == (target.IsMetaTarget || Upgraded(target))
    {
      origTarget := target;
      TargetName, PointsAvailable, IsMetaTarget := target.Name, target.Points, target.IsMetaTarget;
      Status, Score, TestIDs := Submitted, 0, [buildTest];
      new;
      if target.metaTarget != null && !target.IsMetaTarget {
        TargetName := target.metaTarget.Name;
        PointsAvailable := target.metaTarget.Points;
        IsMetaTarget := true;
      }
    }

    constructor Copy(original: Submission)
      ensures origTarget == original.origTarget && TargetName == original.TargetName
        && IsMetaTarget == original.IsMetaTarget
      ensures PointsAvailable == original.PointsAvailable && Status == original.Status
      ensures Score == original.Score && TestIDs == original.TestIDs
    {
      origTarget, TargetName, IsMetaTarget := original.origTarget, original.TargetName, original.IsMetaTarget;
      PointsAvailable, Status, Score, TestIDs := original.PointsAvailable, original.Status, original.Score,
        original.TestIDs;
    }

    /** The part of the submission that is about one target: the build test and
        exactly the tests which that target needs, each once. */
    method CloneAndUpdate(target: Target, group: map<string, Test>) returns (copy: Submission)
      requires |TestIDs| > 0
      ensures fresh(copy) && copy.origTarget == origTarget && copy.Status == Status
      ensures copy.TargetName == target.Name && copy.PointsAvailable == target.Points && !copy.IsMetaTarget
        && copy.Score == 0
      ensures |copy.TestIDs| > 0 && copy.TestIDs[0] == TestIDs[0] && NoDuplicates(copy.TestIDs[1..])
      ensures forall x :: x in copy.TestIDs[1..] <==> x in group && target.Name in group[x].requiredBy
    {
      copy := new Submission.Copy(this);
      copy.TargetName := target.Name;
      copy.IsMetaTarget := false;
      copy.PointsAvailable := target.Points;
      copy.Score := 0;
      copy.TestIDs := [TestIDs[0]];
      var todo := group.Keys;
      ghost var ids: seq<string> := [];
      while todo != {}
        invariant todo <= group.Keys && NoDuplicates(ids) && copy.TestIDs == [TestIDs[0]] + ids
        invariant forall x :: x in ids <==> x in group && x !in todo && target.Name in group[x].requiredBy
        decreases todo
        modifies copy`TestIDs
      {
        var x :| x in todo;
        if target.Name in group[x].requiredBy {
          copy.TestIDs := copy.TestIDs + [x];
          ids := ids + [x];
        }
        todo := todo - {x};
      }
      assert copy.TestIDs[1..] == ids;
    }

    /** One part for each of the targets that run, when submitting to a metatarget. */
    method Split(group: map<string, Test>) returns (splits: seq<Submission>)
      requires |TestIDs| > 0
      ensures fresh(splits) && DistinctSplits(splits)
      ensures |splits| == if IsMetaTarget then |AllTargets(origTarget)| else 0
      ensures forall i :: 0 <= i < |splits| ==> IsSplit(splits[i], AllTargets(origTarget)[i], group)
      ensures forall i :: 0 <= i < |splits| ==> splits[i].Status == Status && splits[i].Score == 0
    {
      splits := [];
      if !IsMetaTarget {
        return;
      }
      ghost var all := AllTargets(origTarget);
      if !origTarget.IsMetaTarget {
        var copy := CloneAndUpdate(origTarget, group);
        splits := [copy];
      }
      ghost var base := |splits|;
      for i := 0 to |origTarget.previousSubTargets|
        invariant fresh(splits) && DistinctSplits(splits) && |splits| == base + i
        invariant all == AllTargets(origTarget) && Status == old(Status) && |TestIDs| > 0
        invariant forall j :: 0 <= j < |splits| ==> IsSplit(splits[j], all[j], group)
        invariant forall j :: 0 <= j < |splits| ==> splits[j].Status == Status && splits[j].Score == 0
      {
        var copy := CloneAndUpdate(origTarget.previousSubTargets[i], group);
        splits := splits + [copy];
      }
    }

    method Abort()
      modifies this`Status, this`Score
      ensures Status == Aborted && Score == 0
    {
      Status := Aborted;
      Score := 0;
    }

    method UpdateScore(r: Outcome)
      modifies this`Score
      ensures Score == old(Score) + r.earned
    {
      Score := Score + r.earned;
    }

    /** Takes in the results of the runner, in whatever order they arrive.  While no
        test has aborted the submission has earned the points of all results so
        far, and each split those of its own target's tests; from the first abort
        on, all scores are zero. */
    method TakeResults(results: seq<Outcome>, splits: seq<Submission>, ghost names: seq<string>)
      requires Status == Underway && Score == 0 && this !in splits && DistinctSplits(splits)
      requires NamedAs(splits, names) && ScoredAs(splits, names, [], Underway)
      modifies this`Status, this`Score, splits`Status, splits`Score
      ensures Status == if AnyAbort(results) then Aborted else Underway
      ensures Score == if AnyAbort(results) then 0 else EarnedBy(results)
      ensures ScoredAs(splits, names, results, Status)
    {
      assert results[..0] == [];
      for k := 0 to |results|
        invariant Status == if AnyAbort(results[..k]) then Aborted else Underway
        invariant Score == if AnyAbort(results[..k]) then 0 else EarnedBy(results[..k])
        invariant ScoredAs(splits, names, results[..k], Status)
      {
        ResultsMore(results, k, "");
        if Status == Underway {
          if results[k].aborted {
            Abort();
            AbortAll(splits, names, results[..k + 1]);
          } else {
            UpdateScore(results[k]);
            UpdateSplits(results, k, splits, names);
          }
        } else {
          StaysAborted(splits, names, results[..k], results[..k + 1]);
        }
      }
      assert results[..|results|] == results;
    }

    lemma StaysAborted(splits: seq<Submission>, names: seq<string>, some: seq<Outcome>, more: seq<Outcome>)
      requires |splits| == |names| && ScoredAs(splits, names, some, Aborted)
      ensures ScoredAs(splits, names, more, Aborted)
    {
    }

    method AbortAll(splits: seq<Submission>, ghost names: seq<string>, ghost results: seq<Outcome>)
      requires |splits| == |names|
      modifies splits`Status, splits`Score
      ensures ScoredAs(splits, names, results, Aborted)
    {
      for i := 0 to |splits|
        invariant forall j :: 0 <= j < i ==> splits[j].Status == Aborted && splits[j].Score == 0
      {
        splits[i].Abort();
      }
    }

    method UpdateSplits(results: seq<Outcome>, k: nat, splits: seq<Submission>, ghost names: seq<string>)
      requires k < |results| && DistinctSplits(splits) && NamedAs(splits, names)
      requires ScoredAs(splits, names, results[..k], Underway)
      modifies splits`Score
      ensures ScoredAs(splits, names, results[..k + 1], Underway)
    {
      for i := 0 to |splits|
        invariant forall j :: 0 <= j < |splits| ==> splits[j].Status == Underway
        invariant forall j :: 0 <= j < |splits| ==>
          splits[j].Score == if j < i then EarnedFor(results[..k + 1], names[j]) else EarnedFor(results[..k], names[j])
      {
        ResultsMore(results, k, names[i]);
        if results[k].target == splits[i].TargetName {
          splits[i].UpdateScore(results[k]);
        }
      }
    }

    /** Runs the tests of a built submission: splits it and takes in the results. */
    method RunTests(group: map<string, Test>, results: seq<Outcome>)
      returns (splits: seq<Submission>, ghost names: seq<string>)
      requires |TestIDs| == 1 && Score == 0
      modifies this`Status, this`Score, this`TestIDs
      ensures fresh(splits) && names == if IsMetaTarget then NamesOf(AllTargets(origTarget)) else []
      ensures |splits| == |names| && forall i :: 0 <= i < |splits| ==>
        IsSplit(splits[i], AllTargets(origTarget)[i], group)
      ensures Status == if AnyAbort(results) then Aborted else Underway
      ensures Score == if AnyAbort(results) then 0 else EarnedBy(results)
      ensures ScoredAs(splits, names, results, Status)
      ensures |TestIDs| > 0 && TestIDs[..1] == old(TestIDs)
      ensures Elements(TestIDs[1..]) == group.Keys && NoDuplicates(TestIDs[1..])
    {
      hide EarnedBy, AnyAbort, NoDuplicates, ScoredAs, NamedAs, IsSplit;
      ListTests(group);
      Status := Underway;
      splits := Split(group);
      names := if IsMetaTarget then NamesOf(AllTargets(origTarget)) else [];
      SplitsStart(splits, AllTargets(origTarget)[..|splits|], names, group);
      TakeResults(results, splits, names);
    }

    method ListTests(group: map<string, Test>)
      requires |TestIDs| == 1
      modifies this`TestIDs
      ensures |TestIDs| > 0 && TestIDs[..1] == old(TestIDs) && Elements(TestIDs[1..]) == group.Keys
        && NoDuplicates(TestIDs[1..])
    {
      var todo := group.Keys;
      ghost var ids: seq<string> := [];
      while todo != {}
        invariant todo <= group.Keys && TestIDs == old(TestIDs) + ids && NoDuplicates(ids)
        invariant forall x :: x in ids <==> x in group && x !in todo
        decreases todo
      {
        var x :| x in todo;
        TestIDs := TestIDs + [x];
        ids := ids + [x];
        todo := todo - {x};
      }
      assert TestIDs[1..] == ids && TestIDs[..1] == old(TestIDs);
    }
  }

  /** The part of a submission about one target. */
  ghost predicate IsSplit(s: Submission, target: Target, group: map<string, Test>)
    reads s`TargetName, s`PointsAvailable, s`IsMetaTarget, s`TestIDs, group.Values`requiredBy
  {
    && s.TargetName == target.Name && s.PointsAvailable == target.Points && !s.IsMetaTarget
    && |s.TestIDs| > 0 && NoDuplicates(s.TestIDs[1..])
    && forall x :: x in s.TestIDs[1..] <==> x in group && target.Name in group[x].requiredBy
  }

  lemma SplitsStart(splits: seq<Submission>, targets: seq<Target>, names: seq<string>, group: map<string, Test>)
    requires |splits| == |targets| && names == NamesOf(targets)
    requires forall i :: 0 <= i < |splits| ==> IsSplit(splits[i], targets[i], group)
    requires forall i :: 0 <= i < |splits| ==> splits[i].Status == Underway && splits[i].Score == 0
    ensures NamedAs(splits, names) && ScoredAs(splits, names, [], Underway)
  {
  }

  // ----- Conservation: the splits' scores add up to the submission's -----

  function EarnedForAll(results: seq<Outcome>, names: seq<string>): nat {
    if names == [] then 0 else EarnedForAll(results, names[..|names| - 1]) + EarnedFor(results, names[|names| - 1])
  }

  function Count(names: seq<string>, name: string): nat {
    if names == [] then 0 else Count(names[..|names| - 1], name) + if names[|names| - 1] == name then 1 else 0
  }

  lemma {:induction false} CountOnce(names: seq<string>, i: nat)
    requires i < |names| && forall j :: 0 <= j < |names| && j != i ==> names[j] != names[i]
    ensures Count(names, names[i]) == 1
  {
    var k := |names| - 1;
    if i == k {
      CountNone(names[..k], names[i]);
    } else {
      CountOnce(names[..k], i);
    }
  }

  lemma {:induction false} CountNone(names: seq<string>, name: string)
    requires name !in names
    ensures Count(names, name) == 0
  {
    if names != [] {
      CountNone(names[..|names| - 1], name);
    }
  }

  lemma {:induction false} OneMoreResult(results: seq<Outcome>, r: Outcome, names: seq<string>)
    ensures EarnedForAll(results + [r], names) == EarnedForAll(results, names) + r.earned * Count(names, r.target)
  {
    if names != [] {
      var k := |names| - 1;
      OneMoreResult(results, r, names[..k]);
      assert (results + [r])[..|results|] == results;
      var c := Count(names[..k], r.target);
      assert r.earned * (c + 1) == r.earned * c + r.earned;
    }
  }

  lemma {:induction false} NoResults(names: seq<string>)
    ensures EarnedForAll([], names) == 0
  {
    if names != [] {
      NoResults(names[..|names| - 1]);
    }
  }

  /** Points earned for a target that occurs once among the splits go to exactly one
      split, so nothing is lost and nothing counted twice. */
  lemma {:induction false} SplitsConserve(results: seq<Outcome>, names: seq<string>)
    requires forall i :: 0 <= i < |results| && results[i].earned > 0 ==> Count(names, results[i].target) == 1
    ensures EarnedForAll(results, names) == EarnedBy(results)
  {
    if results == [] {
      NoResults(names);
    } else {
      var k := |results| - 1;
      SplitsConserve(results[..k], names);
      OneMoreResult(results[..k], results[k], names);
      assert results == results[..k] + [results[k]];
    }
  }

  // ----- What a graded group can report -----

  /** Each test reports at most once, its own target, and no more points than it has. */
  ghost predicate Reported(marks: map<string, Mark>, results: seq<Outcome>) {
    && (forall i, j :: 0 <= i < j < |results| ==> results[i].test != results[j].test)
    && forall i :: 0 <= i < |results| ==> ReportOf(marks, results[i])
  }

  ghost predicate ReportOf(marks: map<string, Mark>, r: Outcome) {
    r.test in marks && r.target == marks[r.test].target && r.earned <= marks[r.test].points
  }

  ghost function ReportedTests(results: seq<Outcome>): set<string> {
    set r | r in results :: r.test
  }

  lemma {:induction false} EarnedAtMost(marks: map<string, Mark>, results: seq<Outcome>)
    requires Reported(marks, results)
    ensures ReportedTests(results) <= marks.Keys
    ensures EarnedBy(results) <= SumOver(ReportedTests(results), PointsIn(marks))
  {
    hide SumOver;
    if results == [] {
      SumConstant(ReportedTests(results), PointsIn(marks), 0);
    } else {
      var k := |results| - 1;
      var r := results[k];
      EarnedAtMost(marks, results[..k]);
      assert ReportOf(marks, r);
      assert results == results[..k] + [r];
      ReportedMore(results[..k], r);
      SumTakeOut(ReportedTests(results), PointsIn(marks), r.test);
      assert ReportedTests(results) - {r.test} == ReportedTests(results[..k]);
    }
  }

  lemma ReportedMore(results: seq<Outcome>, r: Outcome)
    requires forall i :: 0 <= i < |results| ==> results[i].test != r.test
    ensures ReportedTests(results + [r]) == ReportedTests(results) + {r.test} && r.test !in ReportedTests(results)
  {
    forall x | x in ReportedTests(results) + {r.test} ensures x in ReportedTests(results + [r]) {
      if x == r.test {
        assert r in results + [r];
      } else {
        var s :| s in results && s.test == x;
        assert s in results + [r];
      }
    }
  }

  lemma {:induction false} SumOfPart(part: set<string>, keys: set<string>, f: map<string, int>)
    requires part <= keys <= f.Keys && forall k :: k in f ==> f[k] >= 0
    ensures SumOver(part, f) <= SumOver(keys, f)
    decreases |keys - part|
  {
    hide SumOver;
    if part != keys {
      var x :| x in keys && x !in part;
      SumOfPart(part + {x}, keys, f);
      SumTakeOut(part + {x}, f, x);
      assert part + {x} - {x} == part;
    }
  }

  /** Whatever a graded group reports is worth at most what its marks add up to. */
  lemma EarnedIsBounded(marks: map<string, Mark>, results: seq<Outcome>)
    requires Reported(marks, results)
    ensures EarnedBy(results) <= SumOver(marks.Keys, PointsIn(marks))
  {
    hide SumOver, Reported, EarnedBy;
    EarnedAtMost(marks, results);
    SumOfPart(ReportedTests(results), marks.Keys, PointsIn(marks));
  }

  // ----- What that means for an instance -----

  lemma BlankIsNothing(ids: set<string>)
    ensures Blank(ids).Keys == ids && forall id :: id in Blank(ids) ==> Blank(ids)[id].points == 0
  {
  }

  /** The marks of an instance are those of its entries, and add up to the points of
      the targets that run. */
  lemma InstanceAddsUp(group: map<string, Test>, commands: set<Grading.Command>, targets: seq<Target>, deps: Edges,
                       requested: set<string>)
    returns (marks: map<string, Mark>)
    requires IsInstanceOf(group, commands, targets, deps, requested)
    ensures marks == Marked(Blank(group.Keys), AllEntries(targets)) && marks.Keys == group.Keys
    ensures forall id :: id in group ==> marks[id] == MarkOn(group[id])
    ensures SumOver(group.Keys, PointsIn(marks)) == PointsOfTargets(targets)
  {
    hide Marked, Ids, UniqueIds, AllEntries, SumOver, PointsIn, MarkedFor, EntryPoints, Consistent, Pristine;
    var entries := AllEntries(targets);
    marks := Marked(Blank(group.Keys), entries);
    BlankIsNothing(group.Keys);
    MarkedKeys(Blank(group.Keys), entries);
    assert marks.Keys == group.Keys;
    MarkedAddsUp(Blank(group.Keys), entries);
    AllEntryPoints(targets);
  }

  /** In a linked environment, with metatargets flagged as such, whatever the tests of a
      target's instance report stays within the points of the submission. */
  lemma SubmissionNeverExceeds(env: map<string, Target>, n: string, group: map<string, Test>,
                               commands: set<Grading.Command>,
                               deps: Edges, requested: set<string>, marks: map<string, Mark>, results: seq<Outcome>)
    requires KeyedByName(env) && Linked(env) && n in env
    requires MetaIsFlagged(env[n])
    requires IsInstanceOf(group, commands, AllTargets(env[n]), deps, requested)
    requires marks == Marked(Blank(group.Keys), AllEntries(AllTargets(env[n]))) && Reported(marks, results)
    ensures EarnedBy(results) <= SubmissionPoints(env[n])
  {
    hide *;
    PointsFit(env, n);
    var m := InstanceAddsUp(group, commands, AllTargets(env[n]), deps, requested);
    EarnedIsBounded(marks, results);
  }

  /** Targets of one name are one target. */
  ghost predicate SameNameSameTarget(targets: seq<Target>) {
    forall i, j :: 0 <= i < |targets| && 0 <= j < |targets| && targets[i].Name == targets[j].Name ==>
      targets[i] == targets[j]
  }

  lemma LinkedNames(env: map<string, Target>, n: string)
    requires KeyedByName(env) && Linked(env) && n in env
    ensures SameNameSameTarget(AllTargets(env[n]))
  {
    var t := env[n];
    assert HasMeta(t, env) && if t.IsMetaTarget then HasSubTargets(t, env) else HasSiblings(t, env);
    forall i | 0 <= i < |AllTargets(t)|
      ensures AllTargets(t)[i].Name in env && env[AllTargets(t)[i].Name] == AllTargets(t)[i]
    {
    }
  }

  lemma {:induction false} EntryInPart(targets: seq<Target>, i: nat, j: nat, e: Entry)
    requires i < j <= |targets| && e in Entries(targets[i])
    ensures e in AllEntries(targets[..j])
  {
    hide AllEntries, Entries;
    AllEntriesStep(targets, j - 1);
    if i < j - 1 {
      EntryInPart(targets, i, j - 1, e);
    }
  }

  /** In an instance a target with tests occurs only once among those that run. */
  lemma TargetOccursOnce(targets: seq<Target>, i: nat, j: nat)
    requires UniqueIds(AllEntries(targets)) && i < j < |targets| && targets[i] == targets[j]
    ensures targets[i].Tests == []
  {
    hide AllEntries, UniqueIds, Ids;
    var before := AllEntries(targets[..j]);
    UniqueInPart(targets, j);
    if targets[j].Tests != [] {
      var e := Entries(targets[j])[0];
      EntryInPart(targets, i, j, e);
      UniqueIsNew(before, Entries(targets[j]), 0);
      assert before + Entries(targets[j])[..0] == before;
      InIds(before, e);
      assert false;
    }
  }

  lemma InIds(entries: seq<Entry>, e: Entry)
    requires e in entries
    ensures e.test.id in Ids(entries)
  {
  }

  /** Every entry belongs to one of the targets. */
  lemma {:induction false} EntryHasTarget(targets: seq<Target>, e: Entry) returns (i: nat)
    requires e in AllEntries(targets)
    ensures i < |targets| && e.target == targets[i].Name && targets[i].Tests != []
  {
    var k := |targets| - 1;
    if e in Entries(targets[k]) {
      i := k;
    } else {
      i := EntryHasTarget(targets[..k], e);
    }
  }

  /** A test with points counts for exactly one of the targets that run. */
  lemma CountsOnce(marks: map<string, Mark>, ids: set<string>, targets: seq<Target>, id: string)
    requires UniqueIds(AllEntries(targets)) && SameNameSameTarget(targets)
    requires marks == Marked(Blank(ids), AllEntries(targets)) && id in marks && marks[id].points > 0
    ensures Count(NamesOf(targets), marks[id].target) == 1
  {
    hide Marked, UniqueIds, AllEntries, Count;
    var entries := AllEntries(targets);
    MarkedAt(Blank(ids), entries, id);
    MarkedKeys(Blank(ids), entries);
    assert id in Ids(entries);
    var e :| e in entries && e.test.id == id;
    var i := EntryHasTarget(targets, e);
    forall j | 0 <= j < |targets| && j != i ensures targets[j].Name != targets[i].Name {
      if targets[j].Name == targets[i].Name {
        assert targets[j] == targets[i];
        TargetOccursOnce(targets, if i < j then i else j, if i < j then j else i);
      }
    }
    CountOnce(NamesOf(targets), i);
  }

  /** While no test has aborted, the scores of the splits add up to the score of the
      submission, whatever has been reported so far. */
  lemma InstanceConserves(marks: map<string, Mark>, ids: set<string>, targets: seq<Target>, results: seq<Outcome>)
    requires UniqueIds(AllEntries(targets)) && SameNameSameTarget(targets)
    requires marks == Marked(Blank(ids), AllEntries(targets)) && Reported(marks, results)
    ensures EarnedForAll(results, NamesOf(targets)) == EarnedBy(results)
  {
    hide Marked, UniqueIds, AllEntries, SameNameSameTarget, EarnedBy, EarnedForAll, Count;
    forall i | 0 <= i < |results| && results[i].earned > 0 ensures Count(NamesOf(targets), results[i].target) == 1 {
      assert ReportOf(marks, results[i]);
      CountsOnce(marks, ids, targets, results[i].test);
    }
    SplitsConserve(results, NamesOf(targets));
  }

  // ----- The score of one split -----

  ghost function PointsFor(marks: map<string, Mark>, name: string): map<string, int> {
    map id | id in marks :: if marks[id].target == name then marks[id].points else 0
  }

  function EntryPointsFor(entries: seq<Entry>, name: string): nat {
    if entries == [] then 0
    else
      var e := entries[|entries| - 1];
      EntryPointsFor(entries[..|entries| - 1], name) + if e.target == name then e.test.points else 0
  }

  lemma {:induction false} EarnedForAtMost(marks: map<string, Mark>, results: seq<Outcome>, name: string)
    requires Reported(marks, results)
    ensures ReportedTests(results) <= marks.Keys
    ensures EarnedFor(results, name) <= SumOver(ReportedTests(results), PointsFor(marks, name))
  {
    hide SumOver;
    if results == [] {
      SumConstant(ReportedTests(results), PointsFor(marks, name), 0);
    } else {
      var k := |results| - 1;
      var r := results[k];
      EarnedForAtMost(marks, results[..k], name);
      assert ReportOf(marks, r);
      assert results == results[..k] + [r];
      ReportedMore(results[..k], r);
      SumTakeOut(ReportedTests(results), PointsFor(marks, name), r.test);
      assert ReportedTests(results) - {r.test} == ReportedTests(results[..k]);
    }
  }

  lemma {:induction false} MarkedAddsUpFor(marks: map<string, Mark>, entries: seq<Entry>, name: string)
    requires UniqueIds(entries) && Ids(entries) <= marks.Keys
    requires forall id :: id in marks ==> marks[id].points == 0
    ensures Marked(marks, entries).Keys == marks.Keys
    ensures SumOver(marks.Keys, PointsFor(Marked(marks, entries), name)) == EntryPointsFor(entries, name)
  {
    hide Ids, UniqueIds, SumOver;
    if entries == [] {
      SumConstant(marks.Keys, PointsFor(marks, name), 0);
    } else {
      var k := |entries| - 1;
      var e, before := entries[k], Marked(marks, entries[..k]);
      UniquePrefix(entries, k);
      assert entries[..k + 1] == entries;
      MarkedAddsUpFor(marks, entries[..k], name);
      MarkedAt(marks, entries[..k], e.test.id);
      var here := if e.target == name then e.test.points else 0;
      assert PointsFor(before[e.test.id := MarkOf(e)], name) == PointsFor(before, name)[e.test.id := here];
      SumUpdate(marks.Keys, PointsFor(before, name), e.test.id, here);
    }
  }

  lemma {:induction false} EntriesOfFor(before: seq<Entry>, t: Target, n: nat, name: string)
    requires n <= |t.Tests|
    ensures EntryPointsFor(before + Entries(t)[..n], name)
         == EntryPointsFor(before, name) + if t.Name == name then TestPoints(t.Tests[..n]) else 0
  {
    if n == 0 {
      assert before + Entries(t)[..0] == before;
    } else {
      EntriesOfFor(before, t, n - 1, name);
      EntryOf(t, n - 1);
      assert (before + Entries(t)[..n])[..|before| + n - 1] == before + Entries(t)[..n - 1];
    }
  }

  /** Among the first n targets, the tests for the name of target i are its own. */
  lemma {:induction false} TestsOfOne(targets: seq<Target>, i: nat, n: nat)
    requires UniqueIds(AllEntries(targets)) && SameNameSameTarget(targets) && i < |targets| && n <= |targets|
    ensures EntryPointsFor(AllEntries(targets[..n]), targets[i].Name)
         == if i < n then TestPoints(targets[i].Tests) else 0
  {
    hide UniqueIds, AllEntries, Entries;
    if n == 0 {
      NothingMarked(targets, map[]);
      NothingListed(targets);
      assert |IdList(AllEntries(targets[..0]))| == 0;
    } else {
      var t := targets[n - 1];
      TestsOfOne(targets, i, n - 1);
      AllEntriesStep(targets, n - 1);
      EntriesOfFor(AllEntries(targets[..n - 1]), t, |t.Tests|, targets[i].Name);
      EntriesAll(t);
      if t.Name == targets[i].Name && i != n - 1 {
        TargetOccursOnce(targets, if i < n - 1 then i else n - 1, if i < n - 1 then n - 1 else i);
      }
    }
  }

  /** No split scores more than its target is worth. */
  lemma SplitFits(marks: map<string, Mark>, ids: set<string>, targets: seq<Target>, results: seq<Outcome>, i: nat)
    requires UniqueIds(AllEntries(targets)) && SameNameSameTarget(targets) && i < |targets|
    requires TestPoints(targets[i].Tests) == targets[i].Points && Ids(AllEntries(targets)) <= ids
    requires marks == Marked(Blank(ids), AllEntries(targets)) && Reported(marks, results)
    ensures EarnedFor(results, targets[i].Name) <= targets[i].Points
  {
    hide Marked, UniqueIds, AllEntries, SameNameSameTarget, EarnedFor, SumOver, EntryPointsFor, Ids;
    var name := targets[i].Name;
    BlankIsNothing(ids);
    MarkedAddsUpFor(Blank(ids), AllEntries(targets), name);
    TestsOfOne(targets, i, |targets|);
    assert targets[..|targets|] == targets;
    EarnedForAtMost(marks, results, name);
    SumOfPart(ReportedTests(results), marks.Keys, PointsFor(marks, name));
  }

  /** Whoever needs a test needs what it depends on. */
  ghost predicate NeedsAreClosed(required: map<string, set<string>>, deps: Edges) {
    forall name, x, d :: x in required && name in required[x] && x in deps && d in deps[x] ==>
      d in required && name in required[d]
  }

  lemma InstanceNeedsAreClosed(group: map<string, Test>, commands: set<Grading.Command>,
                               targets: seq<Target>, deps: Edges, requested: set<string>)
    requires IsInstanceOf(group, commands, targets, deps, requested)
    ensures NeedsAreClosed(Required(group), deps)
  {
    hide Reaches, Cyclic, Groups.Closure, Graded, Gradable, Marked, UniqueIds, AllEntries, MarkedFor;
    var none: map<string, set<string>> := map y | y in group :: {};
    var part := Groups.Restrict(deps, group.Keys);
    forall name, x, d | x in group && name in group[x].requiredBy && x in deps && d in deps[x]
      ensures d in group && name in group[d].requiredBy
    {
      NeededIsClosed(none, Required(group), TargetsOf(group), part, name, x, d);
    }
  }

  /** With each test, a split lists everything the test depends on. */
  lemma SplitIsClosed(s: Submission, target: Target, group: map<string, Test>, deps: Edges, x: string, d: string)
    requires NeedsAreClosed(Required(group), deps) && IsSplit(s, target, group)
    requires x in s.TestIDs[1..] && x in deps && d in deps[x]
    ensures d in s.TestIDs[1..]
  {
    assert target.Name in Required(group)[x];
  }

  // ----- Everything that should run does -----

  /** The instance for n has the tests of every target that runs with n, each graded as
      that target says, and grades no test for any other. */
  lemma InstanceGradesAll(env: map<string, Target>, n: string, group: map<string, Test>, commands: set<Grading.Command>,
                          deps: Edges, requested: set<string>)
    requires KeyedByName(env) && Linked(env) && n in env
    requires IsInstanceOf(group, commands, AllTargets(env[n]), deps, requested)
    ensures forall r, j :: RunsWith(env, n, r) && r in env && 0 <= j < |env[r].Tests| ==>
      GradedAs(group, Entry(env[r].Tests[j], r))
    ensures forall r :: RunsWith(env, n, r) ==> r in env
    ensures forall x :: x in group && group[x].TargetName != "" ==> RunsWith(env, n, group[x].TargetName)
  {
    hide IsInstanceOf, RunsWith, RunningNames, AllEntries, Marked, SumOver, PointsOfTargets, UniqueIds, Linked;
    var targets := AllTargets(env[n]);
    TargetsThatRun(env, n);
    InstanceIsUnique(group, commands, targets, deps, requested);
    var marks := InstanceAddsUp(group, commands, targets, deps, requested);
    BlankIsNothing(group.Keys);
    forall r, j | RunsWith(env, n, r) && r in env && 0 <= j < |env[r].Tests|
      ensures GradedAs(group, Entry(env[r].Tests[j], r))
    {
      var i :| 0 <= i < |targets| && RunningNames(env, n)[i] == r;
      var e := Entry(env[r].Tests[j], r);
      assert Entries(targets[i])[j] == e;
      EntryInPart(targets, i, |targets|, e);
      assert targets[..|targets|] == targets;
      MarkedAt(Blank(group.Keys), AllEntries(targets), e.test.id);
    }
    forall x | x in group && group[x].TargetName != "" ensures RunsWith(env, n, group[x].TargetName) {
      MarkedAt(Blank(group.Keys), AllEntries(targets), x);
      assert marks[x] == MarkOn(group[x]);
      if x in Ids(AllEntries(targets)) {
        var e :| e in AllEntries(targets) && e.test.id == x;
        var i := EntryHasTarget(targets, e);
        assert RunningNames(env, n)[i] in RunningNames(env, n);
      }
    }
  }

  /** The test is in the group with the points, scoring, penalty and target of the entry. */
  ghost predicate GradedAs(group: map<string, Test>, e: Entry)
    reads group.Values
  {
    e.test.id in group && MarkOn(group[e.test.id]) == MarkOf(e)
  }

  lemma InstanceIsUnique(group: map<string, Test>, commands: set<Grading.Command>, targets: seq<Target>, deps: Edges,
                         requested: set<string>)
    requires IsInstanceOf(group, commands, targets, deps, requested)
    ensures UniqueIds(AllEntries(targets))
  {
    hide UniqueIds, AllEntries, Graded, Marked, MarkedFor, AllGradable;
  }
}
