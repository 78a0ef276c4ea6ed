/** The mutable dependency graph: nodes carry their edges twice, as EdgesOut and
    as EdgesIn, and TopSort consumes a private copy of them. */
module DependencyGraph {
  import opened Wrappers
  import opened Digraph

  /** A value stored at a node.  Two values with one key may still differ. */
  datatype Keyer = Keyer(identity: nat, key: string)

  datatype GraphError = SelfEdge | FromMissing | ToMissing | CycleFound

  class Node {
    const Name: string
    const Value: Keyer
    var EdgesOut: map<string, Node>
    var EdgesIn: map<string, Node>

    constructor (value: Keyer)
      ensures Name == value.key && Value == value
      ensures EdgesOut == map[] && EdgesIn == map[]
    {
      Name, Value := value.key, value;
      EdgesOut, EdgesIn := map[], map[];
    }

    method AddEdgeIn(other: Node)
      modifies this`EdgesIn
      ensures EdgesIn == old(EdgesIn)[other.Name := other]
    {
      EdgesIn := EdgesIn[other.Name := other];
    }

    method AddEdgeOut(other: Node)
      modifies this`EdgesOut
      ensures EdgesOut == old(EdgesOut)[other.Name := other]
    {
      EdgesOut := EdgesOut[other.Name := other];
    }

    method RemoveEdgeIn(other: Node)
      modifies this`EdgesIn
      ensures EdgesIn == old(EdgesIn) - {other.Name}
    {
      EdgesIn := EdgesIn - {other.Name};
    }
  }

  ghost function Predecessors(g: Edges, k: string): set<string> {
    set j | j in g && k in g[j]
  }

  /** The part of the node map that the names in s select: what an edge map
      holds when its edges are s. */
  ghost function Select(nodes: map<string, Node>, s: set<string>): map<string, Node> {
    map j | j in nodes && j in s :: nodes[j]
  }

  /** The nodes sit under their own names and store exactly the edges g, outgoing
      and incoming alike. */
  ghost predicate Stored(nodes: map<string, Node>, g: Edges)
    reads nodes.Values
  {
    && nodes.Keys == g.Keys && Closed(g)
    && forall k :: k in nodes ==>
      && nodes[k].Name == nodes[k].Value.key == k
      && nodes[k].EdgesOut == Select(nodes, g[k])
      && nodes[k].EdgesIn == Select(nodes, Predecessors(g, k))
  }

  ghost function WithEdges(g: Edges, from: string, targets: set<string>): Edges
    requires from in g
  {
    g[from := g[from] + targets]
  }

  ghost function NoEdges(names: set<string>): Edges {
    map k | k in names :: {}
  }

  /** The graph g with the edges out of the nodes in todo dropped. */
  ghost function WithoutEdgesOf(g: Edges, todo: set<string>): Edges {
    map k | k in g :: if k in todo then {} else g[k]
  }

  lemma WithEdgesNone(g: Edges, from: string)
    requires from in g
    ensures WithEdges(g, from, {}) == g
  {
    assert g[from] + {} == g[from];
  }

  lemma WithEdgesMore(g: Edges, from: string, targets: set<string>, to: string)
    requires from in g
    ensures WithEdges(WithEdges(g, from, targets), from, {to}) == WithEdges(g, from, targets + {to})
  {
    assert g[from] + targets + {to} == g[from] + (targets + {to});
  }

  lemma WithoutEdgesOfAll(g: Edges)
    ensures WithoutEdgesOf(g, g.Keys) == NoEdges(g.Keys) && WithoutEdgesOf(g, {}) == g
  {
  }

  lemma WithoutEdgesOfFewer(g: Edges, todo: set<string>, from: string)
    requires todo <= g.Keys && from in todo
    ensures WithEdges(WithoutEdgesOf(g, todo), from, g[from]) == WithoutEdgesOf(g, todo - {from})
  {
    assert {} + g[from] == g[from];
  }

  lemma SelectMore(nodes: map<string, Node>, s: set<string>, x: string)
    requires x in nodes
    ensures Select(nodes, s + {x}) == Select(nodes, s)[x := nodes[x]]
  {
  }

  lemma SelectLess(nodes: map<string, Node>, s: set<string>, x: string)
    ensures Select(nodes, s - {x}) == Select(nodes, s) - {x}
  {
  }

  lemma PredecessorsWithEdge(g: Edges, from: string, to: string, k: string)
    requires from in g
    ensures Predecessors(WithEdges(g, from, {to}), k)
         == if k == to then Predecessors(g, k) + {from} else Predecessors(g, k)
  {
  }

  lemma StoredNames(nodes: map<string, Node>, g: Edges)
    requires Stored(nodes, g)
    ensures nodes.Keys == g.Keys && forall k :: k in nodes ==> nodes[k].Name == k
  {
  }

  lemma StoredValues(nodes: map<string, Node>, g: Edges)
    requires Stored(nodes, g)
    ensures nodes.Keys == g.Keys && forall k :: k in nodes ==> nodes[k].Value.key == k
  {
  }

  lemma StoredTargets(nodes: map<string, Node>, g: Edges, k: string)
    requires Stored(nodes, g) && k in nodes
    ensures g[k] <= g.Keys && WithoutEdgesOf(g, {}).Keys == g.Keys
    ensures forall todo :: WithoutEdgesOf(g, todo).Keys == g.Keys
  {
  }

  lemma ClosedWithEdge(g: Edges, from: string, to: string)
    requires Closed(g) && from in g && to in g
    ensures Closed(WithEdges(g, from, {to})) && WithEdges(g, from, {to}).Keys == g.Keys
  {
  }

  lemma SelectKeys(nodes: map<string, Node>, s: set<string>)
    requires s <= nodes.Keys
    ensures Select(nodes, s).Keys == s && |Select(nodes, s)| == |s|
  {
    assert Select(nodes, s).Keys == s;
  }

  lemma StoredEdges(nodes: map<string, Node>, g: Edges, k: string)
    requires Stored(nodes, g) && k in nodes
    ensures nodes[k].EdgesOut.Keys == g[k]
    ensures nodes[k].EdgesIn.Keys == Predecessors(g, k)
  {
    assert Select(nodes, g[k]).Keys == g[k];
    assert Select(nodes, Predecessors(g, k)).Keys == Predecessors(g, k);
  }

  // ----- Kahn's algorithm on values -----

  /** The nodes not yet sorted that have no remaining incoming edge. */
  ghost function Ready(rem: Edges, sorted: seq<string>): set<string> {
    set n | n in rem && n !in sorted && Predecessors(rem, n) == {}
  }

  /** What the sorting loop keeps: the edges out of sorted nodes are gone, the
      others are intact, and a sorted node has all its predecessors before it. */
  ghost predicate Sorting(g: Edges, rem: Edges, sorted: seq<string>) {
    && NoDuplicates(sorted) && Elements(sorted) <= g.Keys
    && rem == WithoutEdgesOf(g, Elements(sorted))
    && forall i, x :: 0 <= i < |sorted| && IsEdge(g, x, sorted[i]) ==> x in sorted[..i]
  }

  lemma SortingStarts(g: Edges)
    ensures Sorting(g, g, [])
  {
    WithoutEdgesOfAll(g);
    assert Elements<string>([]) == {};
  }

  lemma PopKeepsSorting(g: Edges, rem: Edges, sorted: seq<string>, k: string)
    requires Sorting(g, rem, sorted) && k in Ready(rem, sorted)
    ensures Sorting(g, Reduced(rem, k, {}), sorted + [k])
    ensures rem[k] == g[k] && forall o :: o in rem[k] ==> o !in sorted + [k]
    ensures Ready(rem, sorted + [k]) == Ready(rem, sorted) - {k}
  {
    assert Elements(sorted + [k]) == Elements(sorted) + {k};
    forall x | IsEdge(g, x, k) ensures x in sorted {
      assert x !in Predecessors(rem, k);
    }
    forall o | o in rem[k] ensures o !in sorted + [k] {
      assert k in Predecessors(rem, o);
      if o in sorted {
        var i := IndexOf(sorted, o);
        assert IsEdge(g, k, sorted[i]);
      }
    }
    var longer := sorted + [k];
    forall i, x | 0 <= i < |longer| && IsEdge(g, x, longer[i]) ensures x in longer[..i] {
      assert longer[..i] == sorted[..i];
    }
  }

  /** rem with the edges out of k cut down to out. */
  ghost function Reduced(rem: Edges, k: string, out: set<string>): Edges
    requires k in rem
  {
    rem[k := out]
  }

  lemma PredecessorsReduced(rem: Edges, k: string, out: set<string>, o: string, n: string)
    requires k in rem && o in out
    ensures Predecessors(Reduced(rem, k, out - {o}), n) ==
      if n == o then Predecessors(Reduced(rem, k, out), n) - {k} else Predecessors(Reduced(rem, k, out), n)
  {
  }

  lemma ReducedElsewhere(rem: Edges, k: string, out: set<string>)
    requires k in rem
    ensures Reduced(rem, k, out).Keys == rem.Keys && forall n :: n in rem && n != k ==>
      Reduced(rem, k, out)[n] == rem[n]
  {
  }

  lemma ClosedReduced(rem: Edges, k: string, out: set<string>, o: string)
    requires k in rem && Closed(Reduced(rem, k, out))
    ensures Closed(Reduced(rem, k, out - {o}))
  {
    var now, fewer := Reduced(rem, k, out), Reduced(rem, k, out - {o});
    assert forall n :: n in fewer ==> fewer[n] <= now[n];
  }

  lemma EdgeRemovalMakesReady(rem: Edges, sorted: seq<string>, k: string, out: set<string>, o: string)
    requires k in rem && o in out && o in rem && o !in sorted
    ensures var now, fewer := Reduced(rem, k, out), Reduced(rem, k, out - {o});
      && Ready(fewer, sorted) == Ready(now, sorted) + (if Predecessors(fewer, o) == {} then {o} else {})
      && o !in Ready(now, sorted)
  {
    assert k in Predecessors(Reduced(rem, k, out), o);
    forall n | n in rem {
      PredecessorsReduced(rem, k, out, o, n);
    }
  }

  ghost predicate HasEdge(g: Edges) {
    exists j, k :: IsEdge(g, j, k)
  }

  /** When nothing is ready and no edge is left, the list is a topological order. */
  lemma DrainedIsSorted(g: Edges, rem: Edges, sorted: seq<string>)
    requires Sorting(g, rem, sorted) && Ready(rem, sorted) == {} && Closed(g) && !HasEdge(rem)
    ensures TopOrder(g, sorted) && !Cyclic(g)
  {
    forall k | k in g ensures k in sorted {
      assert forall j :: j in rem ==> !IsEdge(rem, j, k);
      assert Predecessors(rem, k) == {};
      assert k !in Ready(rem, sorted);
    }
    forall i, j | 0 <= i < |sorted| && 0 <= j < |sorted| && IsEdge(g, sorted[i], sorted[j]) ensures i < j {
      assert sorted[i] in sorted[..j];
    }
    OrderedIsAcyclic(g, sorted);
  }

  /** When nothing is ready but an edge is left, the unsorted nodes hold a cycle. */
  lemma StuckMeansCycle(g: Edges, rem: Edges, sorted: seq<string>)
    requires Sorting(g, rem, sorted) && Ready(rem, sorted) == {} && Closed(g) && HasEdge(rem)
    ensures Cyclic(g)
  {
    var j, k :| IsEdge(rem, j, k);
    var left := g.Keys - Elements(sorted);
    assert j in left;
    forall n | n in left ensures HasPredecessorIn(g, left, n) {
      assert n !in Ready(rem, sorted);
      var m :| m in Predecessors(rem, n);
      assert m in left && IsEdge(g, m, n);
    }
    NoSourceMeansCycle(g, left);
  }

  /** The nodes store rem, except that k still lists the outgoing edges out. */
  ghost predicate StoredBut(nodes: map<string, Node>, rem: Edges, k: string, out: set<string>)
    reads nodes.Values
  {
    && nodes.Keys == rem.Keys && Closed(rem)
    && forall n :: n in nodes ==>
      && nodes[n].Name == nodes[n].Value.key == n
      && nodes[n].EdgesOut == Select(nodes, if n == k then out else rem[n])
      && nodes[n].EdgesIn == Select(nodes, Predecessors(rem, n))
  }

  /** The worklist holds, once each, the nodes named by ready. */
  ghost predicate Holds(nodes: map<string, Node>, work: seq<Node>, ready: set<string>) {
    && (forall i :: 0 <= i < |work| ==>
      work[i].Name in ready && work[i].Name in nodes && nodes[work[i].Name] == work[i])
    && (forall n :: n in ready ==> n in nodes && nodes[n] in work)
    && NoDuplicates(work)
  }

  lemma HoldsMore(nodes: map<string, Node>, work: seq<Node>, ready: set<string>, o: string)
    requires Holds(nodes, work, ready) && o !in ready && o in nodes && nodes[o].Name == o
    ensures Holds(nodes, work + [nodes[o]], ready + {o})
  {
  }

  lemma HoldsRest(nodes: map<string, Node>, work: seq<Node>, ready: set<string>)
    requires Holds(nodes, work, ready) && |work| > 0
    requires forall n :: n in nodes ==> nodes[n].Name == n
    ensures Holds(nodes, work[1..], ready - {work[0].Name})
  {
    var k := work[0].Name;
    forall n | n in ready - {k} ensures nodes[n] in work[1..] {
      var i :| 0 <= i < |work| && work[i] == nodes[n];
      assert i > 0 && work[1..][i - 1] == nodes[n];
    }
  }

  lemma StoredButAll(nodes: map<string, Node>, rem: Edges, k: string)
    requires k in rem
    ensures StoredBut(nodes, rem, k, rem[k]) <==> Stored(nodes, rem)
  {
  }

  class Graph {
    var NodeMap: map<string, Node>

    /** A graph with the given nodes and no edges. */
    constructor (values: seq<Keyer>)
      ensures Stored(NodeMap, NoEdges(NodeMap.Keys)) && fresh(NodeMap.Values)
      ensures forall v :: v in values ==> v.key in NodeMap
      ensures forall k :: k in NodeMap ==> NodeMap[k].Value in values
    {
      NodeMap := map[];
      new;
      for i := 0 to |values|
        invariant forall k :: k in NodeMap ==> fresh(NodeMap[k])
        invariant forall j :: 0 <= j < i ==> values[j].key in NodeMap
        invariant forall k :: k in NodeMap ==>
          NodeMap[k].Value in values && NodeMap[k].Name == NodeMap[k].Value.key == k
        invariant forall k :: k in NodeMap ==> NodeMap[k].EdgesOut == map[] && NodeMap[k].EdgesIn == map[]
      {
        AddNode(values[i]);
      }
    }

    method AddNode(value: Keyer)
      modifies this
      ensures value.key in NodeMap && fresh(NodeMap[value.key])
      ensures NodeMap == old(NodeMap)[value.key := NodeMap[value.key]]
      ensures NodeMap[value.key].Name == value.key && NodeMap[value.key].Value == value
      ensures NodeMap[value.key].EdgesOut == map[] && NodeMap[value.key].EdgesIn == map[]
    {
      var node := new Node(value);
      NodeMap := NodeMap[value.key := node];
    }

    /** Both halves of an edge are stored together. */
    method AddEdgeNodes(from: Node, to: Node, ghost g: Edges)
      requires Stored(NodeMap, g)
      requires from.Name in NodeMap && NodeMap[from.Name] == from
      requires to.Name in NodeMap && NodeMap[to.Name] == to
      modifies from`EdgesOut, to`EdgesIn
      ensures Stored(NodeMap, WithEdges(g, from.Name, {to.Name}))
    {
      hide Select, Predecessors, Closed;
      ClosedWithEdge(g, from.Name, to.Name);
      from.AddEdgeOut(to);
      to.AddEdgeIn(from);
      SelectMore(NodeMap, g[from.Name], to.Name);
      SelectMore(NodeMap, Predecessors(g, to.Name), from.Name);
      forall k | k in NodeMap
        ensures NodeMap[k].EdgesIn == Select(NodeMap, Predecessors(WithEdges(g, from.Name, {to.Name}), k))
      {
        PredecessorsWithEdge(g, from.Name, to.Name, k);
      }
    }

    /** Refuses an edge from a value to itself or between unknown nodes. */
    method AddEdge(from: Keyer, to: Keyer, ghost g: Edges) returns (r: Result<(), GraphError>)
      requires Stored(NodeMap, g)
      modifies NodeMap.Values
      ensures r == (if from == to then Err(SelfEdge)
                    else if from.key !in NodeMap then Err(FromMissing)
                    else if to.key !in NodeMap then Err(ToMissing)
                    else Ok(()))
      ensures Stored(NodeMap, if r.Ok? then WithEdges(g, from.key, {to.key}) else g)
    {
      if from == to {
        return Err(SelfEdge);
      }
      if from.key !in NodeMap {
        return Err(FromMissing);
      } else if to.key !in NodeMap {
        return Err(ToMissing);
      } else {
        AddEdgeNodes(NodeMap[from.key], NodeMap[to.key], g);
        return Ok(());
      }
    }

    method CollectValues() returns (values: seq<Keyer>)
      requires forall k :: k in NodeMap ==> NodeMap[k].Value.key == k
      ensures forall k :: k in NodeMap ==> NodeMap[k].Value in values
      ensures forall v :: v in values ==> v.key in NodeMap
    {
      values := [];
      var todo := NodeMap.Keys;
      while todo != {}
        invariant todo <= NodeMap.Keys
        invariant forall k :: k in NodeMap && k !in todo ==> NodeMap[k].Value in values
        invariant forall v :: v in values ==> v.key in NodeMap
        decreases todo
      {
        var id :| id in todo;
        values := values + [NodeMap[id].Value];
        todo := todo - {id};
      }
    }

    /** Adds the edges from -> to for every to in targets. */
    method AddEdgesFrom(from: string, targets: set<string>, ghost g: Edges)
      requires Stored(NodeMap, g) && from in NodeMap && targets <= NodeMap.Keys
      modifies NodeMap.Values
      ensures Stored(NodeMap, WithEdges(g, from, targets))
    {
      hide Stored, WithEdges;
      var outs := targets;
      ghost var added := {};
      StoredNames(NodeMap, g);
      WithEdgesNone(g, from);
      while outs != {}
        invariant outs !! added && outs + added == targets
        invariant Stored(NodeMap, WithEdges(g, from, added))
        decreases outs
      {
        var to :| to in outs;
        StoredNames(NodeMap, WithEdges(g, from, added));
        AddEdgeNodes(NodeMap[from], NodeMap[to], WithEdges(g, from, added));
        WithEdgesMore(g, from, added, to);
        outs, added := outs - {to}, added + {to};
      }
      assert added == targets;
    }

    /** An independent copy: equal edges, no shared node. */
    method Copy(ghost g: Edges) returns (other: Graph)
      requires Stored(NodeMap, g)
      ensures fresh(other) && Stored(other.NodeMap, g) && fresh(other.NodeMap.Values)
    {
      StoredValues(NodeMap, g);
      hide Stored, NoEdges;
      var values := CollectValues();
      other := new Graph(values);
      assert other.NodeMap.Keys == g.Keys;
      CopyEdges(other, g);
    }

    method CopyEdges(other: Graph, ghost g: Edges)
      requires Stored(NodeMap, g) && Stored(other.NodeMap, NoEdges(g.Keys))
      requires NodeMap.Values !! other.NodeMap.Values
      modifies other.NodeMap.Values
      ensures Stored(other.NodeMap, g)
    {
      hide Stored, WithEdges, WithoutEdgesOf, NoEdges;
      StoredNames(NodeMap, g);
      var todo := NodeMap.Keys;
      WithoutEdgesOfAll(g);
      while todo != {}
        invariant todo <= g.Keys && Stored(NodeMap, g)
        invariant Stored(other.NodeMap, WithoutEdgesOf(g, todo))
        decreases todo
      {
        var from :| from in todo;
        var targets := NodeMap[from].EdgesOut.Keys;
        StoredEdges(NodeMap, g, from);
        StoredNames(other.NodeMap, WithoutEdgesOf(g, todo));
        StoredTargets(NodeMap, g, from);
        WithoutEdgesOfFewer(g, todo, from);
        other.AddEdgesFrom(from, targets, WithoutEdgesOf(g, todo));
        todo := todo - {from};
      }
    }

    method FindSources(ghost rem: Edges) returns (work: seq<Node>)
      requires Stored(NodeMap, rem)
      ensures Holds(NodeMap, work, Ready(rem, []))
    {
      hide Stored, Predecessors;
      work := [];
      StoredNames(NodeMap, rem);
      var todo := NodeMap.Keys;
      while todo != {}
        invariant todo <= NodeMap.Keys
        invariant Holds(NodeMap, work, Ready(rem, []) - todo)
        decreases todo
      {
        var id :| id in todo;
        todo := todo - {id};
        StoredEdges(NodeMap, rem, id);
        if |NodeMap[id].EdgesIn| == 0 {
          work := work + [NodeMap[id]];
        }
      }
      assert Ready(rem, []) - {} == Ready(rem, []);
    }

    /** Deletes the edge from node to outgoing on outgoing's side. */
    method DropEdge(node: Node, outgoing: Node, ghost rem: Edges, ghost out: set<string>, ghost todo: set<string>)
      requires node.Name in rem && node.Name in NodeMap && NodeMap[node.Name] == node
      requires outgoing.Name in todo && outgoing.Name in NodeMap && NodeMap[outgoing.Name] == outgoing
      requires StoredBut(NodeMap, Reduced(rem, node.Name, todo), node.Name, out)
      modifies outgoing`EdgesIn
      ensures StoredBut(NodeMap, Reduced(rem, node.Name, todo - {outgoing.Name}), node.Name, out)
    {
      hide Select, Predecessors, Closed, Reduced;
      ghost var k, o := node.Name, outgoing.Name;
      ClosedReduced(rem, k, todo, o);
      ReducedElsewhere(rem, k, todo);
      ReducedElsewhere(rem, k, todo - {o});
      SelectLess(NodeMap, Predecessors(Reduced(rem, k, todo), o), k);
      outgoing.RemoveEdgeIn(node);
      forall n | n in NodeMap
        ensures NodeMap[n].EdgesIn == Select(NodeMap, Predecessors(Reduced(rem, k, todo - {o}), n))
      {
        PredecessorsReduced(rem, k, todo, o, n);
      }
    }

    /** Deletes one edge and queues its target if that was the last edge into it. */
    method ReleaseOne(node: Node, outgoing: Node, work: seq<Node>, ghost rem: Edges, ghost sorted: seq<string>,
                      ghost out: set<string>, ghost todo: set<string>) returns (grown: seq<Node>)
      requires node.Name in rem && node.Name in NodeMap && NodeMap[node.Name] == node
      requires outgoing.Name in todo && outgoing.Name in NodeMap && NodeMap[outgoing.Name] == outgoing
      requires outgoing.Name !in sorted
      requires StoredBut(NodeMap, Reduced(rem, node.Name, todo), node.Name, out)
      requires Holds(NodeMap, work, Ready(Reduced(rem, node.Name, todo), sorted))
      modifies outgoing`EdgesIn
      ensures StoredBut(NodeMap, Reduced(rem, node.Name, todo - {outgoing.Name}), node.Name, out)
      ensures Holds(NodeMap, grown, Ready(Reduced(rem, node.Name, todo - {outgoing.Name}), sorted))
    {
      ghost var k, o := node.Name, outgoing.Name;
      DropEdge(node, outgoing, rem, out, todo);
      grown := work;
      EdgeRemovalMakesReady(rem, sorted, k, todo, o);
      SelectKeys(NodeMap, Predecessors(Reduced(rem, k, todo - {o}), o));
      HoldsMore(NodeMap, work, Ready(Reduced(rem, k, todo), sorted), o);
      if |outgoing.EdgesIn| == 0 {
        grown := work + [outgoing];
      }
    }

    method Retire(node: Node, ghost rem: Edges, ghost out: set<string>)
      requires node.Name in NodeMap && NodeMap[node.Name] == node
      requires StoredBut(NodeMap, rem, node.Name, out) && rem[node.Name] == {}
      modifies node`EdgesOut
      ensures Stored(NodeMap, rem)
    {
      node.EdgesOut := map[];
    }

    /** Deletes every edge out of a popped node, queueing the nodes it frees. */
    method Release(node: Node, work: seq<Node>, ghost rem: Edges, ghost sorted: seq<string>) returns (grown: seq<Node>)
      requires node.Name in rem && node.Name in NodeMap && NodeMap[node.Name] == node
      requires Stored(NodeMap, rem) && Holds(NodeMap, work, Ready(rem, sorted))
      requires forall o :: o in rem[node.Name] ==> o !in sorted
      modifies NodeMap.Values
      ensures Stored(NodeMap, Reduced(rem, node.Name, {}))
      ensures Holds(NodeMap, grown, Ready(Reduced(rem, node.Name, {}), sorted))
    {
      grown := work;
      ghost var k := node.Name;
      ghost var out := rem[k];
      StoredEdges(NodeMap, rem, k);
      var todo := node.EdgesOut.Keys;
      assert Reduced(rem, k, out) == rem;
      StoredButAll(NodeMap, rem, k);
      while todo != {}
        invariant todo <= out
        invariant StoredBut(NodeMap, Reduced(rem, k, todo), k, out)
        invariant Holds(NodeMap, grown, Ready(Reduced(rem, k, todo), sorted))
        decreases todo
      {
        var o :| o in todo;
        grown := ReleaseOne(node, NodeMap[o], grown, rem, sorted, out, todo);
        todo := todo - {o};
      }
      Retire(node, Reduced(rem, k, {}), out);
    }

    /** Whether an incoming or outgoing edge survived the sorting loop. */
    method AnyEdgeLeft(ghost rem: Edges) returns (left: bool)
      requires Stored(NodeMap, rem)
      ensures left == HasEdge(rem)
    {
      var todo := NodeMap.Keys;
      while todo != {}
        invariant todo <= NodeMap.Keys
        invariant forall k :: k in rem && k !in todo ==> rem[k] == {} && Predecessors(rem, k) == {}
        decreases todo
      {
        var id :| id in todo;
        StoredEdges(NodeMap, rem, id);
        if |NodeMap[id].EdgesIn| > 0 || |NodeMap[id].EdgesOut| > 0 {
          left := true;
          if |NodeMap[id].EdgesIn| > 0 {
            ghost var j :| j in NodeMap[id].EdgesIn.Keys;
            assert IsEdge(rem, j, id);
          } else {
            ghost var k :| k in NodeMap[id].EdgesOut.Keys;
            assert IsEdge(rem, id, k);
          }
          return;
        }
        todo := todo - {id};
      }
      left := false;
    }

    /** The sorting loop: pops ready nodes until none is left, eating the edges. */
    method Drain(ghost g: Edges) returns (sorted: seq<string>, ghost rem: Edges)
      requires Stored(NodeMap, g)
      modifies NodeMap.Values
      ensures Stored(NodeMap, rem) && Sorting(g, rem, sorted) && Ready(rem, sorted) == {}
    {
      sorted, rem := [], g;
      SortingStarts(g);
      var work := FindSources(g);
      while |work| > 0
        invariant Stored(NodeMap, rem) && Sorting(g, rem, sorted)
        invariant Holds(NodeMap, work, Ready(rem, sorted))
        decreases g.Keys - Elements(sorted)
      {
        var node := work[0];
        PopKeepsSorting(g, rem, sorted, node.Name);
        HoldsRest(NodeMap, work, Ready(rem, sorted));
        sorted := sorted + [node.Name];
        work := work[1..];
        work := Release(node, work, rem, sorted);
        rem := Reduced(rem, node.Name, {});
      }
    }

    /** Lists the nodes so that every edge points forward, or reports a cycle.
        Works on a copy, so the graph itself keeps its edges. */
    method TopSort(ghost g: Edges) returns (r: Result<seq<string>, GraphError>)
      requires Stored(NodeMap, g)
      ensures r.Ok? <==> !Cyclic(g)
      ensures r.Ok? ==> TopOrder(g, r.value)
      ensures r.Err? ==> r.error == CycleFound
    {
      var copy := Copy(g);
      var sorted; ghost var rem;
      sorted, rem := copy.Drain(g);
      var left := copy.AnyEdgeLeft(rem);
      if left {
        StuckMeansCycle(g, rem, sorted);
        return Err(CycleFound);
      }
      DrainedIsSorted(g, rem, sorted);
      return Ok(sorted);
    }
  }
}
