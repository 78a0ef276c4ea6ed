/** Which targets need which tests: the marks by which a submission to a metatarget
    is split. */
module Requirements {
  import opened Digraph
  import opened TestRun
  import Groups

  /** Distinct ids are distinct tests, and dependencies stay in the group. */
  ghost predicate WellFormed(group: map<string, Test>, deps: Edges) {
    && (forall a, b :: a in group && b in group && a != b ==> group[a] != group[b])
    && deps.Keys == group.Keys && Closed(deps)
  }

  ghost function Required(group: map<string, Test>): map<string, set<string>>
    reads group.Values`requiredBy
  {
    map x | x in group :: group[x].requiredBy
  }

  /** The marks after adding name to everything the starts reach. */
  ghost function Spread(marks: map<string, set<string>>, deps: Edges, starts: set<string>, name: string)
    : map<string, set<string>>
  {
    map x | x in marks :: if Groups.ReachesFrom(deps, starts, x) then marks[x] + {name} else marks[x]
  }

  lemma SpreadNone(marks: map<string, set<string>>, deps: Edges, name: string)
    ensures Spread(marks, deps, {}, name) == marks
  {
  }

  lemma SpreadMore(marks: map<string, set<string>>, deps: Edges, starts: set<string>, id: string, name: string)
    ensures Spread(Spread(marks, deps, starts, name), deps, {id}, name) == Spread(marks, deps, starts + {id}, name)
  {
    forall x ensures Groups.ReachesFrom(deps, starts + {id}, x) <==>
        Groups.ReachesFrom(deps, starts, x) || Groups.ReachesFrom(deps, {id}, x) {
      Groups.ReachesFromMore(deps, starts, id);
      Groups.ReachesFromMore(deps, {}, id);
      assert {} + {id} == {id};
    }
  }

  /** A test reaches itself and what its dependencies reach. */
  lemma SpreadFromTest(marks: map<string, set<string>>, deps: Edges, id: string, name: string)
    requires id in deps && id in marks
    ensures Spread(marks[id := marks[id] + {name}], deps, deps[id], name) == Spread(marks, deps, {id}, name)
  {
    forall x ensures Groups.ReachesFrom(deps, {id}, x) <==> x == id || Groups.ReachesFrom(deps, deps[id], x) {
      Groups.ReachesOneStep(deps, id, x);
      assert Groups.ReachesFrom(deps, {id}, x) <==> Reaches(deps, id, x) by {
        if Reaches(deps, id, x) {
          assert id in {id};
        }
      }
    }
  }

  /** Marks a test and, recursively, its dependencies as needed by a target. */
  method AssignTestRequiredBy(group: map<string, Test>, deps: Edges, id: string, name: string, ghost order: seq<string>)
    requires WellFormed(group, deps) && TopOrder(deps, order) && id in group
    modifies group.Values`requiredBy
    ensures Required(group) == Spread(old(Required(group)), deps, {id}, name)
    decreases Groups.Remaining(order, id)
  {
    hide Spread, Reaches, Groups.Remaining, TopOrder;
    ghost var before := Required(group);
    group[id].requiredBy := group[id].requiredBy + {name};
    ghost var marks := before[id := before[id] + {name}];
    assert Required(group) == marks;
    SpreadNone(marks, deps, name);
    SpreadFromTest(before, deps, id, name);
    var todo := deps[id];
    assert deps[id] - todo == {};
    while todo != {}
      invariant todo <= deps[id] && Required(group) == Spread(marks, deps, deps[id] - todo, name)
      decreases todo
    {
      var dep :| dep in todo;
      assert IsEdge(deps, id, dep);
      Groups.EdgeShortens(deps, order, id, dep);
      SpreadMore(marks, deps, deps[id] - todo, dep, name);
      AssignTestRequiredBy(group, deps, dep, name, order);
      assert deps[id] - (todo - {dep}) == deps[id] - todo + {dep};
      todo := todo - {dep};
    }
    assert deps[id] - {} == deps[id];
  }

  /** Some test among who is graded for the target and reaches x. */
  ghost predicate Needs(targets: map<string, string>, deps: Edges, who: set<string>, name: string, x: string) {
    name != "" && exists t :: t in who && t in targets && targets[t] == name && Reaches(deps, t, x)
  }

  /** For each test, the targets with a graded test among who that reaches it. */
  ghost predicate MarkedFor(before: map<string, set<string>>, now: map<string, set<string>>,
                            targets: map<string, string>, deps: Edges, who: set<string>)
  {
    now.Keys == before.Keys &&
    forall x, name :: x in before ==> (name in now[x] <==> name in before[x] || Needs(targets, deps, who, name, x))
  }

  lemma MarkedForMore(before: map<string, set<string>>, now: map<string, set<string>>, targets: map<string, string>,
                      deps: Edges, who: set<string>, t: string)
    requires MarkedFor(before, now, targets, deps, who) && t in targets
    ensures targets[t] == "" ==> MarkedFor(before, now, targets, deps, who + {t})
    ensures targets[t] != "" ==> MarkedFor(before, Spread(now, deps, {t}, targets[t]), targets, deps, who + {t})
  {
    forall x, name ensures Needs(targets, deps, who + {t}, name, x) <==>
        Needs(targets, deps, who, name, x) || (name != "" && name == targets[t] && Reaches(deps, t, x)) {
      if name != "" && name == targets[t] && Reaches(deps, t, x) {
        assert t in who + {t};
      }
      if Needs(targets, deps, who, name, x) {
        var s :| s in who && s in targets && targets[s] == name && Reaches(deps, s, x);
        assert s in who + {t};
      }
    }
    forall x ensures Groups.ReachesFrom(deps, {t}, x) <==> Reaches(deps, t, x) {
      if Reaches(deps, t, x) {
        assert t in {t};
      }
    }
  }

  ghost function TargetsOf(group: map<string, Test>): map<string, string>
    reads group.Values`TargetName
  {
    map x | x in group :: group[x].TargetName
  }

  /** Marks every test needed by a graded test, directly or not. */
  method AssignRequiredBy(group: map<string, Test>, deps: Edges, ghost order: seq<string>)
    requires WellFormed(group, deps) && TopOrder(deps, order)
    modifies group.Values`requiredBy
    ensures MarkedFor(old(Required(group)), Required(group), TargetsOf(group), deps, group.Keys)
  {
    hide Reaches, Spread, MarkedFor, TopOrder;
    ghost var before, targets := Required(group), TargetsOf(group);
    MarkedForNone(before, targets, deps);
    var todo := group.Keys;
    ghost var who := {};
    while todo != {}
      invariant who !! todo && who + todo == group.Keys
      invariant MarkedFor(before, Required(group), targets, deps, who)
      decreases todo
    {
      var t :| t in todo;
      MarkedForMore(before, Required(group), targets, deps, who, t);
      if |group[t].TargetName| > 0 {
        AssignTestRequiredBy(group, deps, t, group[t].TargetName, order);
      }
      todo, who := todo - {t}, who + {t};
    }
    assert who == group.Keys;
  }

  lemma MarkedForNone(before: map<string, set<string>>, targets: map<string, string>, deps: Edges)
    ensures MarkedFor(before, before, targets, deps, {})
  {
  }

  /** What one target needs is closed under dependencies. */
  lemma NeededIsClosed(before: map<string, set<string>>, now: map<string, set<string>>, targets: map<string, string>,
                       deps: Edges, name: string, x: string, d: string)
    requires MarkedFor(before, now, targets, deps, deps.Keys) && Closed(deps) && now.Keys == deps.Keys
    requires forall y :: y in before ==> before[y] == {}
    requires x in deps && name in now[x] && d in deps[x]
    ensures d in deps && name in now[d]
  {
    var t :| t in deps && t in targets && targets[t] == name && Reaches(deps, t, x);
    assert IsEdge(deps, x, d);
    ReachesThenEdge(deps, t, x, d);
    assert Needs(targets, deps, deps.Keys, name, d);
  }
}
