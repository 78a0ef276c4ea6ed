/** Finite directed graphs as adjacency maps.  An edge a -> b of a dependency
    graph says that test a depends on test b.  This module holds the vocabulary
    (paths, cycles, topological orders) in which the graph, group and runner
    modules state what they do. */
module Digraph {

  type Edges = map<string, set<string>>

  /** Every successor is itself a node. */
  ghost predicate Closed(g: Edges) {
    forall n :: n in g ==> g[n] <= g.Keys
  }

  ghost predicate IsEdge(g: Edges, a: string, b: string) {
    a in g && b in g[a]
  }

  /** A walk along edges, given by the nodes it visits. */
  ghost predicate IsPath(g: Edges, p: seq<string>) {
    |p| > 0 && forall i :: 0 <= i < |p| - 1 ==> IsEdge(g, p[i], p[i + 1])
  }

  ghost predicate PathFromTo(g: Edges, p: seq<string>, a: string, b: string) {
    IsPath(g, p) && p[0] == a && p[|p| - 1] == b
  }

  /** b can be reached from a in zero or more steps. */
  ghost predicate Reaches(g: Edges, a: string, b: string) {
    exists p :: PathFromTo(g, p, a, b)
  }

  ghost predicate IsCycle(g: Edges, p: seq<string>) {
    |p| > 1 && IsPath(g, p) && p[0] == p[|p| - 1]
  }

  ghost predicate Cyclic(g: Edges) {
    exists p :: IsCycle(g, p)
  }

  ghost predicate NoDuplicates<T>(s: seq<T>) {
    forall i, j :: 0 <= i < j < |s| ==> s[i] != s[j]
  }

  ghost function Elements<T>(s: seq<T>): set<T> {
    set x | x in s
  }

  /** A duplicate-free listing of the nodes in which every edge points forward. */
  ghost predicate TopOrder(g: Edges, order: seq<string>) {
    && NoDuplicates(order)
    && Elements(order) == g.Keys
    && EdgesForward(g, order)
  }

  ghost predicate EdgesForward(g: Edges, order: seq<string>) {
    forall i, j :: 0 <= i < |order| && 0 <= j < |order| && IsEdge(g, order[i], order[j]) ==> i < j
  }

  ghost function IndexOf(order: seq<string>, x: string): (i: nat)
    requires x in order
    ensures i < |order| && order[i] == x
  {
    var i :| 0 <= i < |order| && order[i] == x;
    i
  }

  // ----- Paths -----

  lemma ReachesSelf(g: Edges, a: string)
    ensures Reaches(g, a, a)
  {
    assert PathFromTo(g, [a], a, a);
  }

  lemma ReachesByEdge(g: Edges, a: string, b: string, c: string)
    requires IsEdge(g, a, b) && Reaches(g, b, c)
    ensures Reaches(g, a, c)
  {
    var p :| PathFromTo(g, p, b, c);
    assert PathFromTo(g, [a] + p, a, c);
  }

  lemma ReachesThenEdge(g: Edges, a: string, b: string, c: string)
    requires Reaches(g, a, b) && IsEdge(g, b, c)
    ensures Reaches(g, a, c)
  {
    var p :| PathFromTo(g, p, a, b);
    assert PathFromTo(g, p + [c], a, c);
  }

  /** Reaching somewhere else means leaving by one of one's own edges. */
  lemma ReachesSplit(g: Edges, a: string, c: string) returns (b: string)
    requires Reaches(g, a, c) && a != c
    ensures IsEdge(g, a, b) && Reaches(g, b, c)
  {
    var p :| PathFromTo(g, p, a, c);
    b := p[1];
    assert IsEdge(g, p[0], p[1]);
    assert PathFromTo(g, p[1..], b, c) by {
      forall i | 0 <= i < |p[1..]| - 1 ensures IsEdge(g, p[1..][i], p[1..][i + 1]) {
        assert IsEdge(g, p[i + 1], p[i + 1 + 1]);
      }
    }
  }

  /** A set that no edge leaves contains everything reachable from it. */
  lemma {:induction false} ReachesStaysIn(g: Edges, s: set<string>, p: seq<string>, a: string, b: string)
    requires forall x, y :: x in s && IsEdge(g, x, y) ==> y in s
    requires a in s && PathFromTo(g, p, a, b)
    ensures b in s
    decreases |p|
  {
    if |p| > 1 {
      assert IsEdge(g, p[0], p[1]);
      assert IsPath(g, p[1..]) by {
        forall i | 0 <= i < |p[1..]| - 1 ensures IsEdge(g, p[1..][i], p[1..][i + 1]) {
          assert IsEdge(g, p[i + 1], p[i + 1 + 1]);
        }
      }
      ReachesStaysIn(g, s, p[1..], p[1], b);
    }
  }

  // ----- Cycles and orders -----

  lemma {:induction false} DistinctFits<T>(p: seq<T>, s: set<T>)
    requires NoDuplicates(p) && forall i :: 0 <= i < |p| ==> p[i] in s
    ensures |p| <= |s|
  {
    if |p| > 0 {
      var last := |p| - 1;
      DistinctFits(p[..last], s - {p[last]});
    }
  }

  /** A duplicate-free list has as many entries as elements. */
  lemma {:induction false} DistinctCount<T>(p: seq<T>)
    requires NoDuplicates(p)
    ensures |Elements(p)| == |p|
  {
    if |p| == 0 {
      assert Elements(p) == {};
    } else {
      var last := |p| - 1;
      DistinctCount(p[..last]);
      assert Elements(p) == Elements(p[..last]) + {p[last]};
    }
  }

  ghost predicate HasPredecessorIn(g: Edges, s: set<string>, n: string) {
    exists m :: m in s && IsEdge(g, m, n)
  }

  /** Walking backwards inside a set whose members all have a predecessor in it. */
  lemma {:induction false} BackwardWalk(g: Edges, s: set<string>, k: nat) returns (p: seq<string>)
    requires s != {} && forall n :: n in s ==> HasPredecessorIn(g, s, n)
    ensures |p| == k + 1 && IsPath(g, p) && forall i :: 0 <= i < |p| ==> p[i] in s
  {
    if k == 0 {
      var n :| n in s;
      p := [n];
    } else {
      var q := BackwardWalk(g, s, k - 1);
      assert HasPredecessorIn(g, s, q[0]);
      var m :| m in s && IsEdge(g, m, q[0]);
      p := [m] + q;
      forall i | 0 <= i < |p| - 1 ensures IsEdge(g, p[i], p[i + 1]) {
        if i > 0 {
          assert IsEdge(g, q[i - 1], q[i - 1 + 1]);
        }
      }
    }
  }

  lemma RepeatMeansCycle(g: Edges, p: seq<string>, i: nat, j: nat)
    requires IsPath(g, p) && i < j < |p| && p[i] == p[j]
    ensures Cyclic(g)
  {
    var c := p[i..j + 1];
    forall k | 0 <= k < |c| - 1 ensures IsEdge(g, c[k], c[k + 1]) {
      assert IsEdge(g, p[i + k], p[i + k + 1]);
    }
    assert IsCycle(g, c);
  }

  lemma NoSourceMeansCycle(g: Edges, s: set<string>)
    requires s != {} && forall n :: n in s ==> HasPredecessorIn(g, s, n)
    ensures Cyclic(g)
  {
    var p := BackwardWalk(g, s, |s|);
    if forall i, j :: 0 <= i < j < |p| ==> p[i] != p[j] {
      DistinctFits(p, s);
      assert false;
    }
    var i, j :| 0 <= i < j < |p| && p[i] == p[j];
    RepeatMeansCycle(g, p, i, j);
  }

  lemma {:induction false} PathClimbs(g: Edges, order: seq<string>, p: seq<string>, first: nat, last: nat)
    requires EdgesForward(g, order) && IsPath(g, p) && |p| > 1
    requires forall i :: 0 <= i < |p| ==> p[i] in order
    requires first < |order| && order[first] == p[0]
    requires last < |order| && order[last] == p[|p| - 1]
    ensures first < last
    decreases |p|
  {
    assert IsEdge(g, p[0], p[1]);
    if |p| > 2 {
      var next := IndexOf(order, p[1]);
      assert IsPath(g, p[1..]) by {
        forall i | 0 <= i < |p[1..]| - 1 ensures IsEdge(g, p[1..][i], p[1..][i + 1]) {
          assert IsEdge(g, p[i + 1], p[i + 1 + 1]);
        }
      }
      PathClimbs(g, order, p[1..], next, last);
    }
  }

  /** A graph with a topological order has no cycle. */
  lemma OrderedIsAcyclic(g: Edges, order: seq<string>)
    requires Closed(g) && TopOrder(g, order)
    ensures !Cyclic(g)
  {
    if Cyclic(g) {
      var p :| IsCycle(g, p);
      forall i | 0 <= i < |p| ensures p[i] in order {
        if i < |p| - 1 {
          assert IsEdge(g, p[i], p[i + 1]);
        } else {
          assert IsEdge(g, p[0], p[1]);
        }
        assert p[i] in Elements(order);
      }
      var at := IndexOf(order, p[0]);
      PathClimbs(g, order, p, at, at);
    }
  }

  lemma {:induction false} OrderPart(g: Edges, s: set<string>) returns (order: seq<string>)
    requires s <= g.Keys && !Cyclic(g)
    ensures NoDuplicates(order) && Elements(order) == s && EdgesForward(g, order)
    decreases |s|
  {
    if s == {} {
      order := [];
    } else {
      hide Elements, NoDuplicates, EdgesForward, Cyclic;
      if forall n :: n in s ==> HasPredecessorIn(g, s, n) {
        NoSourceMeansCycle(g, s);
        assert false;
      }
      var source :| source in s && !HasPredecessorIn(g, s, source);
      var rest := OrderPart(g, s - {source});
      order := [source] + rest;
      SourceComesFirst(g, s, source, rest);
    }
  }

  lemma SourceComesFirst(g: Edges, s: set<string>, source: string, rest: seq<string>)
    requires source in s && !HasPredecessorIn(g, s, source)
    requires NoDuplicates(rest) && Elements(rest) == s - {source} && EdgesForward(g, rest)
    ensures var order := [source] + rest; NoDuplicates(order) && Elements(order) == s && EdgesForward(g, order)
  {
    var order := [source] + rest;
    assert forall i :: 0 <= i < |rest| ==> rest[i] in Elements(rest);
    assert Elements(order) == {source} + Elements(rest);
    forall i, j | 0 <= i < |order| && 0 <= j < |order| && IsEdge(g, order[i], order[j]) ensures i < j {
      assert order[i] in Elements(order);
      if i > 0 && j > 0 {
        assert rest[i - 1] == order[i] && rest[j - 1] == order[j];
      }
    }
  }

  /** A graph without cycles has a topological order. */
  lemma AcyclicHasOrder(g: Edges) returns (order: seq<string>)
    requires !Cyclic(g)
    ensures TopOrder(g, order)
  {
    order := OrderPart(g, g.Keys);
  }

  lemma OrderHasAll(g: Edges, order: seq<string>)
    requires TopOrder(g, order)
    ensures forall x :: x in g ==> x in order
  {
    forall x | x in g ensures x in order {
      assert x in Elements(order);
    }
  }

  /** An edge that closes a path back makes a cycle. */
  lemma WayBackIsCycle(g: Edges, a: string, b: string)
    requires IsEdge(g, a, b) && Reaches(g, b, a)
    ensures Cyclic(g)
  {
    var p :| PathFromTo(g, p, b, a);
    assert IsCycle(g, [a] + p);
  }

  /** In an acyclic closed graph every nonempty set of nodes has a member none
      of whose successors lies in the set. */
  lemma HasSink(g: Edges, s: set<string>) returns (sink: string)
    requires s != {} && s <= g.Keys && !Cyclic(g)
    ensures sink in s && g[sink] !! s
  {
    var order := OrderPart(g, s);
    var some :| some in s;
    assert some in Elements(order);
    var last := |order| - 1;
    sink := order[last];
    assert sink in Elements(order);
    forall x | x in s ensures x !in g[sink] {
      assert x in Elements(order);
      var j := IndexOf(order, x);
      assert j <= last && !IsEdge(g, order[last], order[j]);
    }
  }
}
