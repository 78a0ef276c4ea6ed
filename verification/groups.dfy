/** From a group configuration to the set of tests to run: the requested tests
    and, with dependencies on, everything reachable from them. */
module Groups {
  import opened Wrappers
  import opened Digraph
  import opened DependencyGraph
  import R = Runner

  datatype GroupError = SelfDependency | DependencyCycle

  ghost predicate DependsOnItself(deps: Edges) {
    exists t :: IsEdge(deps, t, t)
  }

  /** Everything reachable from the requested tests. */
  ghost function Closure(deps: Edges, requested: set<string>): set<string> {
    set x | x in deps && exists r :: r in requested && Reaches(deps, r, x)
  }

  lemma SelfDependencyIsCycle(deps: Edges)
    requires DependsOnItself(deps)
    ensures Cyclic(deps)
  {
    var t :| IsEdge(deps, t, t);
    assert IsCycle(deps, [t, t]);
  }

  lemma ReachableIsNode(deps: Edges, r: string, x: string)
    requires Closed(deps) && r in deps && Reaches(deps, r, x)
    ensures x in deps
  {
    var p :| PathFromTo(deps, p, r, x);
    ReachesStaysIn(deps, deps.Keys, p, r, x);
  }

  /** The dependency graph of all loaded tests: an edge from A to B when A
      depends on B.  A test that depends on itself is reported. */
  method DependencyGraphOf(deps: Edges) returns (r: Result<Graph, GroupError>)
    requires Closed(deps)
    ensures r.Err? <==> DependsOnItself(deps)
    ensures r.Err? ==> r.error == SelfDependency
    ensures r.Ok? ==> fresh(r.value) && fresh(r.value.NodeMap.Values) && Stored(r.value.NodeMap, deps)
  {
    var values := NodeValues(deps);
    var g := new Graph(values);
    assert g.NodeMap.Keys == deps.Keys by {
      assert forall t :: t in deps ==> Keyer(0, t) in values;
    }
    var selfFound := AddAllDependencies(g, deps);
    if selfFound {
      return Err(SelfDependency);
    }
    LooplessIsSame(deps);
    return Ok(g);
  }

  /** The dependencies that AddEdge accepts. */
  ghost function Loopless(deps: Edges): Edges {
    map t | t in deps :: deps[t] - {t}
  }

  lemma LooplessIsSame(deps: Edges)
    requires !DependsOnItself(deps)
    ensures Loopless(deps) == deps
  {
    forall t | t in deps ensures Loopless(deps)[t] == deps[t] {
      assert !IsEdge(deps, t, t);
    }
  }

  method AddAllDependencies(g: Graph, deps: Edges) returns (selfFound: bool)
    requires Closed(deps) && Stored(g.NodeMap, NoEdges(deps.Keys))
    modifies g.NodeMap.Values
    ensures selfFound == DependsOnItself(deps)
    ensures Stored(g.NodeMap, Loopless(deps))
  {
    selfFound := false;
    var todo := deps.Keys;
    WithoutEdgesOfAll(Loopless(deps));
    assert Loopless(deps).Keys == deps.Keys;
    while todo != {}
      invariant todo <= deps.Keys
      invariant Stored(g.NodeMap, WithoutEdgesOf(Loopless(deps), todo))
      invariant selfFound <==> exists t :: t !in todo && IsEdge(deps, t, t)
      decreases todo
    {
      var from :| from in todo;
      var bad := AddDependencies(g, from, deps[from], WithoutEdgesOf(Loopless(deps), todo));
      WithoutEdgesOfFewer(Loopless(deps), todo, from);
      todo := todo - {from};
      if bad {
        assert IsEdge(deps, from, from);
      }
      selfFound := selfFound || bad;
    }
  }

  method NodeValues(deps: Edges) returns (values: seq<Keyer>)
    ensures forall t :: t in deps ==> Keyer(0, t) in values
    ensures forall v :: v in values ==> v.identity == 0 && v.key in deps
  {
    values := [];
    var todo := deps.Keys;
    while todo != {}
      invariant todo <= deps.Keys
      invariant forall t :: t in deps && t !in todo ==> Keyer(0, t) in values
      invariant forall v :: v in values ==> v.identity == 0 && v.key in deps
      decreases todo
    {
      var t :| t in todo;
      values := values + [Keyer(0, t)];
      todo := todo - {t};
    }
  }

  /** Adds the edges from one test to its dependencies, noting a refused one. */
  method AddDependencies(g: Graph, from: string, targets: set<string>, ghost now: Edges) returns (bad: bool)
    requires Stored(g.NodeMap, now) && from in now && targets <= now.Keys
    modifies g.NodeMap.Values
    ensures bad <==> from in targets
    ensures Stored(g.NodeMap, WithEdges(now, from, targets - {from}))
  {
    hide Stored;
    bad := false;
    ghost var added := {};
    WithEdgesNone(now, from);
    var todo := targets;
    while todo != {}
      invariant todo <= targets && added == targets - todo - {from}
      invariant bad <==> from in targets - todo
      invariant Stored(g.NodeMap, WithEdges(now, from, added))
      decreases todo
    {
      var to :| to in todo;
      StoredNames(g.NodeMap, WithEdges(now, from, added));
      var res := g.AddEdge(Keyer(0, from), Keyer(0, to), WithEdges(now, from, added));
      if res.Err? {
        bad := true;
      } else {
        WithEdgesMore(now, from, added, to);
        added := added + {to};
      }
      todo := todo - {to};
    }
    assert added == targets - {from};
  }

  /** Appends the node's test and, recursively, those of everything it points to.
      A test reachable along several paths is appended several times. */
  method GetDepNodes(g: Graph, node: Node, acc: seq<string>, ghost deps: Edges, ghost order: seq<string>)
    returns (tests: seq<string>)
    requires Stored(g.NodeMap, deps) && TopOrder(deps, order)
    requires node.Name in g.NodeMap && g.NodeMap[node.Name] == node
    ensures acc <= tests
    ensures forall x :: x in tests[|acc|..] <==> Reaches(deps, node.Name, x)
    decreases Remaining(order, node.Name)
  {
    ghost var name := node.Name;
    tests := acc + [node.Name];
    ReachesSelf(deps, name);
    StoredEdges(g.NodeMap, deps, name);
    var todo := node.EdgesOut.Keys;
    while todo != {}
      invariant todo <= deps[name] && acc <= tests
      invariant forall x :: x in tests[|acc|..] <==> x == name || ReachesFrom(deps, deps[name] - todo, x)
      decreases todo
    {
      var id :| id in todo;
      EdgeShortens(deps, order, name, id);
      var before := tests;
      tests := GetDepNodes(g, g.NodeMap[id], tests, deps, order);
      assert tests[|acc|..] == before[|acc|..] + tests[|before|..];
      ReachesFromMore(deps, deps[name] - todo, id);
      todo := todo - {id};
      assert deps[name] - todo == deps[name] - (todo + {id}) + {id};
    }
    assert deps[name] - {} == deps[name];
    forall x ensures Reaches(deps, name, x) <==> x == name || ReachesFrom(deps, deps[name], x) {
      ReachesOneStep(deps, name, x);
    }
  }

  ghost predicate ReachesFrom(deps: Edges, starts: set<string>, x: string) {
    exists d :: d in starts && Reaches(deps, d, x)
  }

  lemma ReachesFromMore(deps: Edges, starts: set<string>, id: string)
    ensures forall x :: ReachesFrom(deps, starts + {id}, x) <==> ReachesFrom(deps, starts, x) || Reaches(deps, id, x)
  {
    forall x ensures ReachesFrom(deps, starts + {id}, x) <==> ReachesFrom(deps, starts, x) || Reaches(deps, id, x) {
      if Reaches(deps, id, x) {
        assert id in starts + {id};
      }
    }
  }

  lemma ReachesOneStep(deps: Edges, name: string, x: string)
    requires name in deps
    ensures Reaches(deps, name, x) <==> x == name || ReachesFrom(deps, deps[name], x)
  {
    ReachesSelf(deps, name);
    if Reaches(deps, name, x) && x != name {
      var b := ReachesSplit(deps, name, x);
    }
    if ReachesFrom(deps, deps[name], x) {
      var d :| d in deps[name] && Reaches(deps, d, x);
      ReachesByEdge(deps, name, d, x);
    }
  }

  /** How much of the topological order lies behind a node: the measure that makes
      the recursion safe exactly on graphs TopSort accepts. */
  ghost function Remaining(order: seq<string>, name: string): nat {
    if name in order then |order| - IndexOf(order, name) else 0
  }

  lemma EdgeShortens(deps: Edges, order: seq<string>, a: string, b: string)
    requires Closed(deps) && TopOrder(deps, order) && IsEdge(deps, a, b)
    ensures Remaining(order, b) < Remaining(order, a)
  {
    assert a in Elements(order) && b in Elements(order);
    assert IsEdge(deps, order[IndexOf(order, a)], order[IndexOf(order, b)]);
  }

  class TestGroup {
    var Tests: set<string>
    /** The tests whose IsDependency flag is set. */
    var IsDependency: set<string>

    constructor (requested: set<string>, flagged: set<string>)
      ensures Tests == requested && IsDependency == flagged
    {
      Tests, IsDependency := requested, flagged;
    }

    /** Merges one worker's list; a test is flagged when it is newly added. */
    method Merge(list: seq<string>)
      modifies this
      ensures Tests == old(Tests) + Elements(list)
      ensures IsDependency == old(IsDependency) + (Elements(list) - old(Tests))
    {
      for i := 0 to |list|
        invariant Tests == old(Tests) + Elements(list[..i])
        invariant IsDependency == old(IsDependency) + (Elements(list[..i]) - old(Tests))
      {
        assert Elements(list[..i + 1]) == Elements(list[..i]) + {list[i]};
        if list[i] !in Tests {
          IsDependency := IsDependency + {list[i]};
          Tests := Tests + {list[i]};
        }
      }
      assert list[..|list|] == list;
    }
  }

  /** Builds the group.  deps are the expanded dependencies of all loaded tests,
      requested the expansion of the configured test expressions, flagged the
      tests already marked as dependencies. */
  method GroupFromConfig(deps: Edges, requested: set<string>, useDeps: bool, flagged: set<string>)
    returns (r: Result<TestGroup, GroupError>)
    requires Closed(deps) && requested <= deps.Keys
    ensures !useDeps ==> r.Ok? && r.value.Tests == requested && r.value.IsDependency == flagged
    ensures useDeps ==> (r.Ok? <==> !Cyclic(deps))
    ensures r.Err? ==> r.error == if DependsOnItself(deps) then SelfDependency else DependencyCycle
    ensures useDeps && r.Ok? ==> r.value.Tests == Closure(deps, requested)
    ensures useDeps && r.Ok? ==> r.value.IsDependency == flagged + (Closure(deps, requested) - requested)
  {
    var tg := new TestGroup(requested, flagged);
    if !useDeps {
      return Ok(tg);
    }
    var built := DependencyGraphOf(deps);
    if built.Err? {
      SelfDependencyIsCycle(deps);
      return Err(SelfDependency);
    }
    var g := built.value;
    var sorted := g.TopSort(deps);
    if sorted.Err? {
      return Err(DependencyCycle);
    }
    CollectInto(tg, g, requested, deps, sorted.value);
    return Ok(tg);
  }

  /** The group once the lists of the tests in done have been merged: its tests and
      its newly flagged ones. */
  ghost predicate Collected(tg: TestGroup, deps: Edges, requested: set<string>, done: set<string>, flagged: set<string>)
    reads tg
  {
    && tg.Tests == requested + Closure(deps, done)
    && tg.IsDependency == flagged + (Closure(deps, done) - requested)
  }

  /** One worker's list. */
  method CollectOne(tg: TestGroup, g: Graph, id: string, ghost requested: set<string>, ghost done: set<string>,
                    ghost flagged: set<string>, ghost deps: Edges, ghost order: seq<string>)
    requires Stored(g.NodeMap, deps) && TopOrder(deps, order) && id in g.NodeMap && g.NodeMap[id].Name == id
    requires Closed(deps) && id in deps && Collected(tg, deps, requested, done, flagged)
    modifies tg
    ensures Collected(tg, deps, requested, done + {id}, flagged)
  {
    hide Stored, Closure, TopOrder, Reaches, Closed, Elements;
    var list := GetDepNodes(g, g.NodeMap[id], [], deps, order);
    assert list[0..] == list;
    ClosureMore(deps, done, id, list);
    MergeMore(requested, Closure(deps, done), Elements(list), flagged);
    tg.Merge(list);
  }

  /** The workers' lists, merged in whatever order they arrive. */
  method CollectInto(tg: TestGroup, g: Graph, requested: set<string>, ghost deps: Edges, ghost order: seq<string>)
    requires Stored(g.NodeMap, deps) && TopOrder(deps, order) && requested <= deps.Keys
    requires tg.Tests == requested
    modifies tg
    ensures tg.Tests == Closure(deps, requested)
    ensures tg.IsDependency == old(tg.IsDependency) + (Closure(deps, requested) - requested)
  {
    hide *;
    StoredNames(g.NodeMap, deps);
    StoredIsClosed(g.NodeMap, deps);
    ClosureContains(deps, requested);
    ghost var flagged := tg.IsDependency;
    NothingCollected(tg, deps);
    assert requested - requested == {};
    var todo := requested;
    while todo != {}
      invariant todo <= requested && Collected(tg, deps, requested, requested - todo, flagged)
      decreases todo
    {
      var id :| id in todo;
      CollectOne(tg, g, id, requested, requested - todo, flagged, deps, order);
      assert requested - todo + {id} == requested - (todo - {id});
      todo := todo - {id};
    }
    assert requested - {} == requested;
    AllCollected(tg, deps, requested, flagged);
  }

  lemma AllCollected(tg: TestGroup, deps: Edges, requested: set<string>, flagged: set<string>)
    requires Collected(tg, deps, requested, requested, flagged) && requested <= Closure(deps, requested)
    ensures tg.Tests == Closure(deps, requested) && tg.IsDependency == flagged + (Closure(deps, requested) - requested)
  {
  }

  lemma MergeMore(requested: set<string>, closed: set<string>, more: set<string>, flagged: set<string>)
    ensures requested + closed + more == requested + (closed + more)
    ensures flagged + (closed - requested) + (more - (requested + closed)) == flagged + (closed + more - requested)
  {
  }

  lemma StoredIsClosed(nodes: map<string, Node>, deps: Edges)
    requires Stored(nodes, deps)
    ensures Closed(deps)
  {
  }

  lemma NothingCollected(tg: TestGroup, deps: Edges)
    ensures Collected(tg, deps, tg.Tests, {}, tg.IsDependency)
  {
    assert Closure(deps, {}) == {};
  }

  lemma ClosureMore(deps: Edges, starts: set<string>, id: string, list: seq<string>)
    requires Closed(deps) && id in deps
    requires forall x :: x in list <==> Reaches(deps, id, x)
    ensures Closure(deps, starts + {id}) == Closure(deps, starts) + Elements(list)
  {
    forall x | x in list ensures x in Closure(deps, starts + {id}) {
      ReachableIsNode(deps, id, x);
      assert id in starts + {id};
    }
  }

  lemma ClosureContains(deps: Edges, requested: set<string>)
    requires requested <= deps.Keys
    ensures requested <= Closure(deps, requested)
  {
    forall t | t in requested ensures t in Closure(deps, requested) {
      ReachesSelf(deps, t);
    }
  }

  // ----- What the group gives the runner -----

  function Restrict(deps: Edges, tests: set<string>): Edges {
    map t | t in deps && t in tests :: deps[t]
  }

  lemma {:induction false} RestrictedPath(deps: Edges, tests: set<string>, p: seq<string>)
    requires IsPath(Restrict(deps, tests), p)
    ensures IsPath(deps, p)
  {
    forall i | 0 <= i < |p| - 1 ensures IsEdge(deps, p[i], p[i + 1]) {
      assert IsEdge(Restrict(deps, tests), p[i], p[i + 1]);
    }
  }

  lemma RestrictSuits(deps: Edges, requested: set<string>)
    requires Closed(deps) && requested <= deps.Keys && !Cyclic(deps)
    ensures var tests := Closure(deps, requested);
      Restrict(deps, tests).Keys == tests && Closed(Restrict(deps, tests)) && !Cyclic(Restrict(deps, tests))
  {
    var tests := Closure(deps, requested);
    var part := Restrict(deps, tests);
    forall t | t in part ensures part[t] <= part.Keys {
      var r :| r in requested && Reaches(deps, r, t);
      forall d | d in deps[t] ensures d in tests {
        ReachesThenEdge(deps, r, t, d);
      }
    }
    forall p | IsCycle(part, p) ensures false {
      RestrictedPath(deps, tests, p);
      assert IsCycle(deps, p);
      assert false;
    }
  }

  /** The group is closed under dependencies and acyclic: just what the runner's
      termination and schedule-independence rest on. */
  lemma GroupSuitsRunner(deps: Edges, requested: set<string>, c: R.Config)
    requires Closed(deps) && requested <= deps.Keys && !Cyclic(deps)
    requires c.deps == Restrict(deps, Closure(deps, requested)) && R.Typed(c)
    ensures R.ValidConfig(c) && c.deps.Keys == Closure(deps, requested)
  {
    RestrictSuits(deps, requested);
  }
}
