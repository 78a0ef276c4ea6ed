/** Targets, their metatargets, and the graded test group a target stands for. */
module Targets {
  import opened Wrappers
  import opened Digraph
  import opened Sums
  import opened Assignment
  import Groups
  import TestRun

  datatype TargetError =
    | NoMetaTarget | NoSubTarget | NotListed
    | NotMeta | MetaHasTests | NoSubTargets | Mismatch | WrongTotal
    | DuplicateTest | NoSuchTest | BadDependencies | BadAssignment(why: ApplyError)

  /** The names before the first occurrence of name. */
  function Before(names: seq<string>, name: string): seq<string> {
    if names == [] || names[0] == name then [] else [names[0]] + Before(names[1..], name)
  }

  lemma {:induction false} BeforeIsPrefix(names: seq<string>, name: string)
    ensures Before(names, name) <= names && name !in Before(names, name)
    ensures name in names ==> |Before(names, name)| < |names| && names[|Before(names, name)|] == name
    ensures name !in names ==> Before(names, name) == names
  {
    if names != [] && names[0] != name {
      BeforeIsPrefix(names[1..], name);
    }
  }

  ghost predicate AllIn(env: map<string, Target>, names: seq<string>) {
    forall i :: 0 <= i < |names| ==> names[i] in env
  }

  ghost function Find(env: map<string, Target>, names: seq<string>): seq<Target>
    requires AllIn(env, names)
  {
    seq(|names|, i requires 0 <= i < |names| => env[names[i]])
  }

  function PointsOfTargets(targets: seq<Target>): nat {
    if targets == [] then 0 else PointsOfTargets(targets[..|targets| - 1]) + targets[|targets| - 1].Points
  }

  class Target {
    const Name: string
    const Points: nat
    const Tests: seq<TargetTest>
    const IsMetaTarget: bool
    const SubTargetNames: seq<string>
    const MetaName: string
    const RequiresUserland: bool
    const KConfig: string
    const Type: string
    var metaTarget: Target?
    var previousSubTargets: seq<Target>

    constructor (name: string, points: nat, tests: seq<TargetTest>, isMeta: bool, subTargets: seq<string>,
                 metaName: string, userland: bool, kconfig: string, kind: string)
      ensures Name == name && Points == points && Tests == tests && IsMetaTarget == isMeta
      ensures SubTargetNames == subTargets && MetaName == metaName
      ensures RequiresUserland == userland && KConfig == kconfig && Type == kind
      ensures metaTarget == null && previousSubTargets == []
    {
      Name, Points, Tests, IsMetaTarget, SubTargetNames, MetaName := name, points, tests, isMeta, subTargets, metaName;
      RequiresUserland, KConfig, Type := userland, kconfig, kind;
      metaTarget, previousSubTargets := null, [];
    }

    /** The metatarget lists this target after subtargets that all exist. */
    ghost predicate IsSubTarget(env: map<string, Target>) {
      && MetaName in env
      && Name in env[MetaName].SubTargetNames
      && AllIn(env, Before(env[MetaName].SubTargetNames, Name))
    }

    /** A subtarget is linked to its metatarget and the subtargets before it. */
    method InitAsSubTarget(env: map<string, Target>) returns (error: Option<TargetError>)
      modifies this`metaTarget, this`previousSubTargets
      ensures error.None? <==> MetaName == "" || IsSubTarget(env)
      ensures error.Some? || MetaName == "" ==>
        metaTarget == old(metaTarget) && previousSubTargets == old(previousSubTargets)
      ensures error.None? && MetaName != "" ==>
        && metaTarget == env[MetaName]
        && previousSubTargets == Find(env, Before(env[MetaName].SubTargetNames, Name))
    {
      if |MetaName| == 0 {
        return None;
      }
      if MetaName !in env {
        return Some(NoMetaTarget);
      }
      var meta := env[MetaName];
      var names := meta.SubTargetNames;
      var foundThis, others := false, [];
      var i := 0;
      BeforeIsPrefix(names, Name);
      while i < |names|
        invariant i <= |names| && !foundThis && Name !in names[..i]
        invariant AllIn(env, names[..i]) && others == Find(env, names[..i])
      {
        if names[i] == Name {
          foundThis := true;
          break;
        } else if names[i] in env {
          others := others + [env[names[i]]];
        } else {
          StopsBefore(names, Name, i);
          return Some(NoSubTarget);
        }
        i := i + 1;
      }
      if !foundThis {
        return Some(NotListed);
      }
      StopsBefore(names, Name, i);
      metaTarget := meta;
      previousSubTargets := others;
      error := None;
    }

    /** What makes a metatarget valid. */
    ghost predicate IsValidMeta(env: map<string, Target>) {
      && IsMetaTarget && Tests == [] && SubTargetNames != []
      && AllIn(env, SubTargetNames)
      && (forall i :: 0 <= i < |SubTargetNames| ==> Matches(env[SubTargetNames[i]]))
      && PointsOfTargets(Find(env, SubTargetNames)) == Points
    }

    predicate Matches(sub: Target) {
      sub.RequiresUserland == RequiresUserland && sub.KConfig == KConfig && sub.Type == Type
    }

    method InitAsMetaTarget(env: map<string, Target>) returns (error: Option<TargetError>)
      modifies this`previousSubTargets
      ensures error.None? <==> IsValidMeta(env)
      ensures error.None? ==> previousSubTargets == Find(env, SubTargetNames)
    {
      if !IsMetaTarget {
        return Some(NotMeta);
      }
      if |Tests| > 0 {
        return Some(MetaHasTests);
      }
      if |SubTargetNames| == 0 {
        return Some(NoSubTargets);
      }
      var points := 0;
      previousSubTargets := [];
      for i := 0 to |SubTargetNames|
        invariant AllIn(env, SubTargetNames[..i]) && previousSubTargets == Find(env, SubTargetNames[..i])
        invariant forall j :: 0 <= j < i ==> Matches(env[SubTargetNames[j]])
        invariant points == PointsOfTargets(previousSubTargets)
      {
        if SubTargetNames[i] !in env {
          return Some(NoSubTarget);
        }
        var sub := env[SubTargetNames[i]];
        points := points + sub.Points;
        if !Matches(sub) {
          return Some(Mismatch);
        }
        assert (previousSubTargets + [sub])[..i] == previousSubTargets;
        previousSubTargets := previousSubTargets + [sub];
      }
      assert SubTargetNames[..|SubTargetNames|] == SubTargetNames;
      if points != Points {
        return Some(WrongTotal);
      }
      error := None;
    }
  }

  lemma {:induction false} StopsBefore(names: seq<string>, name: string, i: nat)
    requires i < |names| && name !in names[..i]
    ensures names[..i] <= Before(names, name)
    ensures names[i] == name ==> Before(names, name) == names[..i]
    ensures names[i] != name ==> names[i] in Before(names, name)
  {
    if i > 0 {
      assert names[0] in names[..i];
      assert names[1..][..i - 1] == names[..i][1..];
      StopsBefore(names[1..], name, i - 1);
    }
  }

  // ----- Linking all targets of an environment -----

  ghost predicate KeyedByName(env: map<string, Target>) {
    forall n :: n in env ==> env[n].Name == n
  }

  ghost predicate Unlinked(t: Target)
    reads t
  {
    t.metaTarget == null && t.previousSubTargets == []
  }

  ghost predicate HasMeta(t: Target, env: map<string, Target>)
    reads t
  {
    if t.MetaName == "" then t.metaTarget == null
    else t.IsSubTarget(env) && t.metaTarget == env[t.MetaName]
  }

  ghost predicate HasSiblings(t: Target, env: map<string, Target>)
    reads t
  {
    if t.MetaName == "" then t.previousSubTargets == []
    else t.IsSubTarget(env) && t.previousSubTargets == Find(env, Before(env[t.MetaName].SubTargetNames, t.Name))
  }

  ghost predicate HasSubTargets(t: Target, env: map<string, Target>)
    reads t
  {
    t.IsValidMeta(env) && t.previousSubTargets == Find(env, t.SubTargetNames)
  }

  /** Each subtarget knows its metatarget and the subtargets before it, each
      metatarget is valid and knows all of its subtargets. */
  ghost predicate Linked(env: map<string, Target>)
    reads env.Values
  {
    forall n :: n in env ==>
      && HasMeta(env[n], env)
      && (if env[n].IsMetaTarget then HasSubTargets(env[n], env) else HasSiblings(env[n], env))
  }

  ghost predicate Linkable(env: map<string, Target>) {
    forall n :: n in env ==>
      && (env[n].MetaName != "" ==> env[n].IsSubTarget(env))
      && (env[n].IsMetaTarget ==> env[n].IsValidMeta(env))
  }

  method LinkMetaTargets(env: map<string, Target>) returns (error: Option<TargetError>)
    requires KeyedByName(env) && forall n :: n in env ==> Unlinked(env[n])
    modifies env.Values
    ensures error.None? <==> Linkable(env)
    ensures error.None? ==> Linked(env)
  {
    var todo := env.Keys;
    while todo != {}
      invariant todo <= env.Keys
      invariant forall n :: n in todo ==> Unlinked(env[n])
      invariant forall n :: n in env && n !in todo ==> HasMeta(env[n], env) && HasSiblings(env[n], env)
      decreases todo
    {
      var n :| n in todo;
      if |env[n].MetaName| > 0 {
        error := env[n].InitAsSubTarget(env);
        if error.Some? {
          return;
        }
      }
      todo := todo - {n};
    }
    todo := env.Keys;
    while todo != {}
      invariant todo <= env.Keys
      invariant forall n :: n in env ==> HasMeta(env[n], env)
      invariant forall n :: n in env && (n in todo || !env[n].IsMetaTarget) ==> HasSiblings(env[n], env)
      invariant forall n :: n in env && n !in todo && env[n].IsMetaTarget ==> HasSubTargets(env[n], env)
      decreases todo
    {
      var n :| n in todo;
      if env[n].IsMetaTarget {
        error := env[n].InitAsMetaTarget(env);
        if error.Some? {
          return;
        }
      }
      todo := todo - {n};
    }
    error := None;
  }

  // ----- What a target's tests are worth, and what its submission may score -----

  /** The targets whose tests run for t. */
  function AllTargets(t: Target): seq<Target>
    reads t
  {
    (if t.IsMetaTarget then [] else [t]) + t.previousSubTargets
  }

  /** A subtarget is submitted to its metatarget instead. */
  predicate Upgraded(t: Target)
    reads t
  {
    t.metaTarget != null && !t.IsMetaTarget
  }

  /** A metatarget that t is submitted to instead is flagged as one. */
  predicate MetaIsFlagged(t: Target)
    reads t
  {
    Upgraded(t) ==> t.metaTarget.IsMetaTarget
  }

  /** The points a submission to t has available. */
  function SubmissionPoints(t: Target): nat
    reads t
  {
    if Upgraded(t) then t.metaTarget.Points else t.Points
  }

  lemma {:induction false} PointsConcat(a: seq<Target>, b: seq<Target>)
    ensures PointsOfTargets(a + b) == PointsOfTargets(a) + PointsOfTargets(b)
  {
    if b == [] {
      assert a + b == a;
    } else {
      assert (a + b)[..|a + b| - 1] == a + b[..|b| - 1];
      PointsConcat(a, b[..|b| - 1]);
    }
  }

  /** The names after the first occurrence of name. */
  function Later(names: seq<string>, name: string): seq<string> {
    var k := |Before(names, name)|;
    if k < |names| then names[k + 1..] else []
  }

  /** The subtarget r runs with n: it is n, or is listed before the first place where n's
      metatarget lists n; for a metatarget, it is listed at all. */
  ghost predicate RunsWith(env: map<string, Target>, n: string, r: string)
    requires n in env
  {
    if env[n].IsMetaTarget then r in env[n].SubTargetNames
    else
      || r == n
      || (env[n].MetaName != "" && env[n].MetaName in env
          && exists j, k :: 0 <= j < k < |env[env[n].MetaName].SubTargetNames|
               && ListedFirst(env[env[n].MetaName].SubTargetNames, n, k) && env[env[n].MetaName].SubTargetNames[j] == r)
  }

  ghost predicate ListedFirst(names: seq<string>, n: string, k: nat)
    requires k < |names|
  {
    names[k] == n && forall i :: 0 <= i < k ==> names[i] != n
  }

  /** The names of the targets that run for n, in order. */
  ghost function RunningNames(env: map<string, Target>, n: string): seq<string>
    requires n in env
  {
    if env[n].IsMetaTarget then env[n].SubTargetNames
    else if env[n].MetaName == "" || env[n].MetaName !in env then [n]
    else [n] + Before(env[env[n].MetaName].SubTargetNames, n)
  }

  /** In a linked environment the targets that run for n are those that run with it, one
      for each time it is listed. */
  lemma TargetsThatRun(env: map<string, Target>, n: string)
    requires KeyedByName(env) && Linked(env) && n in env
    ensures |AllTargets(env[n])| == |RunningNames(env, n)|
    ensures forall i :: 0 <= i < |AllTargets(env[n])| ==>
      RunningNames(env, n)[i] in env && AllTargets(env[n])[i] == env[RunningNames(env, n)[i]]
    ensures forall r :: r in RunningNames(env, n) <==> RunsWith(env, n, r)
  {
    hide RunsWith, RunningNames, AllTargets, Linked;
    TargetsAreNamed(env, n);
    ListedIsLinked(env, n);
    RunsWithMeans(env, n);
  }

  lemma ListedIsLinked(env: map<string, Target>, n: string)
    requires KeyedByName(env) && Linked(env) && n in env
    ensures !env[n].IsMetaTarget && env[n].MetaName != "" && env[n].MetaName in env ==>
      n in env[env[n].MetaName].SubTargetNames
  {
    hide HasSubTargets, Before;
    assert HasMeta(env[n], env);
  }

  lemma TargetsAreNamed(env: map<string, Target>, n: string)
    requires KeyedByName(env) && Linked(env) && n in env
    ensures |AllTargets(env[n])| == |RunningNames(env, n)|
    ensures forall i :: 0 <= i < |AllTargets(env[n])| ==>
      RunningNames(env, n)[i] in env && AllTargets(env[n])[i] == env[RunningNames(env, n)[i]]
  {
    hide Target.IsValidMeta, Before;
    var t := env[n];
    assert HasMeta(t, env) && if t.IsMetaTarget then HasSubTargets(t, env) else HasSiblings(t, env);
    if t.IsMetaTarget {
      MetaIsValid(t, env);
      assert AllTargets(t) == Find(env, t.SubTargetNames);
    } else if t.MetaName == "" {
      assert AllTargets(t) == [t];
    } else {
      var before := Before(env[t.MetaName].SubTargetNames, n);
      assert AllTargets(t) == [t] + Find(env, before) && RunningNames(env, n) == [n] + before;
    }
  }

  lemma MetaIsValid(t: Target, env: map<string, Target>)
    requires t.IsValidMeta(env)
    ensures AllIn(env, t.SubTargetNames)
  {
  }

  lemma RunsWithMeans(env: map<string, Target>, n: string)
    requires n in env
    requires !env[n].IsMetaTarget && env[n].MetaName != "" && env[n].MetaName in env ==>
      n in env[env[n].MetaName].SubTargetNames
    ensures forall r :: r in RunningNames(env, n) <==> RunsWith(env, n, r)
  {
    var t := env[n];
    if !t.IsMetaTarget && t.MetaName != "" && t.MetaName in env {
      hide Before, ListedFirst;
      BeforeIsFirst(env[t.MetaName].SubTargetNames, n);
    }
  }

  lemma BeforeIsFirst(names: seq<string>, n: string)
    requires n in names
    ensures forall r :: r in Before(names, n) <==>
      exists j, k :: 0 <= j < k < |names| && ListedFirst(names, n, k) && names[j] == r
  {
    BeforeIsPrefix(names, n);
    var before := Before(names, n);
    assert ListedFirst(names, n, |before|);
    forall r | r in before ensures exists j, k :: 0 <= j < k < |names| && ListedFirst(names, n, k) && names[j] == r {
      var j :| 0 <= j < |before| && before[j] == r;
      assert names[j] == r;
    }
    forall j, k | 0 <= j < k < |names| && ListedFirst(names, n, k) ensures names[j] in before {
      assert k == |before|;
      assert before[j] == names[j];
    }
  }

  /** In a linked environment the targets that run are worth exactly what their
      submission has available, or at most that for a subtarget submitted to a
      metatarget; for the latter it matters that the metatarget is flagged as one,
      since only flagged ones have their points checked. */
  lemma PointsFit(env: map<string, Target>, n: string)
    requires KeyedByName(env) && Linked(env) && n in env
    ensures !Upgraded(env[n]) ==> PointsOfTargets(AllTargets(env[n])) == SubmissionPoints(env[n])
    ensures MetaIsFlagged(env[n]) ==> PointsOfTargets(AllTargets(env[n])) <= SubmissionPoints(env[n])
    ensures Upgraded(env[n]) && MetaIsFlagged(env[n]) ==>
      && env[n].MetaName in env && env[n].metaTarget == env[env[n].MetaName]
      && AllIn(env, Later(env[env[n].MetaName].SubTargetNames, n))
      && PointsOfTargets(AllTargets(env[n])) + PointsOfTargets(Find(env, Later(env[env[n].MetaName].SubTargetNames, n)))
         == SubmissionPoints(env[n])
  {
    var t := env[n];
    assert HasMeta(t, env);
    if Upgraded(t) {
      assert HasSiblings(t, env);
      if t.metaTarget.IsMetaTarget {
        assert env[t.MetaName] == t.metaTarget && HasSubTargets(t.metaTarget, env);
        PrefixIsWorthLess(env, t.metaTarget.SubTargetNames, n);
      }
    } else if t.IsMetaTarget {
      assert HasSubTargets(t, env) && AllTargets(t) == t.previousSubTargets;
    } else {
      assert HasSiblings(t, env) && AllTargets(t) == [t];
      PointsConcat([], [t]);
    }
  }

  lemma PrefixIsWorthLess(env: map<string, Target>, names: seq<string>, n: string)
    requires AllIn(env, names) && n in names && AllIn(env, Before(names, n)) && n in env
    ensures AllIn(env, Later(names, n))
    ensures PointsOfTargets([env[n]] + Find(env, Before(names, n))) + PointsOfTargets(Find(env, Later(names, n)))
         == PointsOfTargets(Find(env, names))
  {
    hide PointsOfTargets, Before;
    BeforeIsPrefix(names, n);
    var before, all := Find(env, Before(names, n)), Find(env, names);
    var k := |before|;
    assert all == before + ([env[n]] + all[k + 1..]) && all[k + 1..] == Find(env, Later(names, n));
    PointsConcat(before, [env[n]] + all[k + 1..]);
    PointsConcat([env[n]], all[k + 1..]);
    PointsConcat([env[n]], before);
  }

  /** An unflagged metatarget escapes the check of its points: here is an environment
      that links, with a subtarget worth 5 points submitted to it with 3 available. */
  method UnflaggedMetaTarget() returns (env: map<string, Target>, n: string)
    ensures n in env && KeyedByName(env) && Linked(env) && Upgraded(env[n]) && !env[n].metaTarget.IsMetaTarget
    ensures AllTargets(env[n]) == [env[n]] && SubmissionPoints(env[n]) == 3
    ensures env[n].Name == "sub" && env[n].Points == 5 && env[n].Tests == [TargetTest("t", false, 5, 0, [])]
  {
    var sub := new Target("sub", 5, [TargetTest("t", false, 5, 0, [])], false, [], "meta", false, "", "asst");
    var meta := new Target("meta", 3, [], false, ["sub"], "", false, "", "asst");
    env, n := map["sub" := sub, "meta" := meta], "sub";
    assert Before(["sub"], "sub") == [];
    var error := LinkMetaTargets(env);
    assert sub.IsSubTarget(env);
    assert Linkable(env);
    assert HasSiblings(env["sub"], env) && HasMeta(env["sub"], env);
    assert AllTargets(sub) == [sub];
  }
}
