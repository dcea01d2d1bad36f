/** `has_event_bearing_cycle`: two graphs over the event-bearing nodes, one from child lists and one
    from parent pointers, each checked for a cycle. */
module BearingCycle {
  import opened Common
  import opened Sequences
  import opened ForestModel
  import opened CycleCheck
  import opened AlignmentSpec

  ghost predicate ChildEdge(f: Forest, u: Id, v: Id) {
    Bearing(f, u) && Bearing(f, v) && v in f.nodes[u].children
  }

  ghost predicate ParentEdge(f: Forest, u: Id, v: Id) {
    Bearing(f, u) && Bearing(f, v) && f.nodes[v].parentId == Some(u)
  }

  function BearingNodes(f: Forest): set<Id> {
    set n | n in f.nodes && f.nodes[n].subtreeEvents != 0
  }

  ghost predicate RisesAlongChildren(f: Forest, rank: map<Id, nat>) {
    BearingNodes(f) <= rank.Keys && forall u, v {:trigger ChildEdge(f, u, v)} :: ChildEdge(f, u, v) ==> rank[u] < rank[v]
  }

  ghost predicate RisesAlongParents(f: Forest, rank: map<Id, nat>) {
    BearingNodes(f) <= rank.Keys && forall u, v {:trigger ParentEdge(f, u, v)} :: ParentEdge(f, u, v) ==> rank[u] < rank[v]
  }

  // ----- building a graph edge by edge -----

  lemma {:induction false} EdgesIntoAdd(from: set<Id>, edges: Edges, u: Id, v: Id, w: Id)
    ensures EdgesInto(from, edges[u := Successors(edges, u) + [v]], w) ==
            EdgesInto(from, edges, w) + if u in from && w == v then 1 else 0
    decreases |from|
  {
    var more := edges[u := Successors(edges, u) + [v]];
    if from != {} {
      var x :| x in from;
      EdgesIntoRemove(from, edges, w, x);
      EdgesIntoRemove(from, more, w, x);
      EdgesIntoAdd(from - {x}, edges, u, v, w);
    }
  }

  lemma AddEdge(indegrees: map<Id, nat>, edges: Edges, u: Id, v: Id)
    requires ConsistentGraph(indegrees, edges) && u in indegrees && v in indegrees
    ensures ConsistentGraph(indegrees[v := indegrees[v] + 1], edges[u := Successors(edges, u) + [v]])
    ensures forall x, y {:trigger Edge(edges[u := Successors(edges, u) + [v]], x, y)} ::
              Edge(edges[u := Successors(edges, u) + [v]], x, y) <==> Edge(edges, x, y) || (x == u && y == v)
  {
    var more, counts := edges[u := Successors(edges, u) + [v]], indegrees[v := indegrees[v] + 1];
    assert counts.Keys == indegrees.Keys;
    forall w | w in counts ensures counts[w] == EdgesInto(counts.Keys, more, w) {
      EdgesIntoAdd(counts.Keys, edges, u, v, w);
    }
    forall x, y ensures Edge(more, x, y) <==> Edge(edges, x, y) || (x == u && y == v) {
      if x == u {
        assert Successors(more, x) == Successors(edges, x) + [v];
      } else {
        assert Successors(more, x) == Successors(edges, x);
      }
    }
  }

  lemma {:induction false} NoEdgesYet(from: set<Id>, v: Id)
    ensures EdgesInto(from, map[], v) == 0
  {
    EdgesIntoNone(from, map[], v);
  }

  method EmptyGraph(nodes: set<Id>) returns (indegrees: map<Id, nat>, edges: Edges)
    ensures indegrees.Keys == nodes && ConsistentGraph(indegrees, edges)
    ensures forall u, v :: !Edge(edges, u, v)
  {
    indegrees, edges := map n | n in nodes :: 0, map[];
    forall v | v in indegrees ensures indegrees[v] == EdgesInto(indegrees.Keys, edges, v) {
      NoEdgesYet(indegrees.Keys, v);
    }
  }

  /** One node's child list joins the graph. */
  method AddChildren(f: Forest, n: Id, indegrees: map<Id, nat>, edges: Edges) returns (indegrees': map<Id, nat>, edges': Edges)
    requires Bearing(f, n) && indegrees.Keys == BearingNodes(f) && ConsistentGraph(indegrees, edges)
    ensures indegrees'.Keys == indegrees.Keys && ConsistentGraph(indegrees', edges')
    ensures forall u, v {:trigger Edge(edges', u, v)} :: Edge(edges', u, v) <==> Edge(edges, u, v) || (u == n && ChildEdge(f, n, v))
  {
    indegrees', edges' := indegrees, edges;
    var children := f.nodes[n].children;
    for i := 0 to |children|
      invariant indegrees'.Keys == indegrees.Keys && ConsistentGraph(indegrees', edges')
      invariant forall u, v {:trigger Edge(edges', u, v)} :: Edge(edges', u, v) <==>
                  Edge(edges, u, v) || (u == n && Bearing(f, v) && v in children[..i])
    {
      var child := children[i];
      PrefixGrows(children, i);
      if Bearing(f, child) {
        AddEdge(indegrees', edges', n, child);
        indegrees' := indegrees'[child := indegrees'[child] + 1];
        edges' := edges'[n := Successors(edges', n) + [child]];
      }
    }
    assert children[..|children|] == children;
  }

  method ChildGraph(f: Forest) returns (indegrees: map<Id, nat>, edges: Edges)
    ensures indegrees.Keys == BearingNodes(f) && ConsistentGraph(indegrees, edges)
    ensures forall u, v {:trigger Edge(edges, u, v)} :: Edge(edges, u, v) <==> ChildEdge(f, u, v)
  {
    indegrees, edges := EmptyGraph(BearingNodes(f));
    var order := AnyOrder(f.nodes.Keys);
    for i := 0 to |order|
      invariant indegrees.Keys == BearingNodes(f) && ConsistentGraph(indegrees, edges)
      invariant forall u, v {:trigger Edge(edges, u, v)} :: Edge(edges, u, v) <==> ChildEdge(f, u, v) && u in order[..i]
    {
      PrefixGrows(order, i);
      if Bearing(f, order[i]) {
        indegrees, edges := AddChildren(f, order[i], indegrees, edges);
      }
    }
    assert order[..|order|] == order;
    assert forall u :: u in f.nodes ==> u in ToSet(order);
  }

  method ParentGraph(f: Forest) returns (indegrees: map<Id, nat>, edges: Edges)
    ensures indegrees.Keys == BearingNodes(f) && ConsistentGraph(indegrees, edges)
    ensures forall u, v {:trigger Edge(edges, u, v)} :: Edge(edges, u, v) <==> ParentEdge(f, u, v)
  {
    indegrees, edges := EmptyGraph(BearingNodes(f));
    var order := AnyOrder(f.nodes.Keys);
    for i := 0 to |order|
      invariant indegrees.Keys == BearingNodes(f) && ConsistentGraph(indegrees, edges)
      invariant forall u, v {:trigger Edge(edges, u, v)} :: Edge(edges, u, v) <==> ParentEdge(f, u, v) && v in order[..i]
    {
      var n := order[i];
      PrefixGrows(order, i);
      if Bearing(f, n) && f.nodes[n].parentId.Some? && Bearing(f, f.nodes[n].parentId.value) {
        var parent := f.nodes[n].parentId.value;
        AddEdge(indegrees, edges, parent, n);
        indegrees := indegrees[n := indegrees[n] + 1];
        edges := edges[parent := Successors(edges, parent) + [n]];
      }
    }
    assert order[..|order|] == order;
    assert forall u :: u in f.nodes ==> u in ToSet(order);
  }

  /** No cycle is reported exactly when ranks rise along the child lists, and along the parent pointers. */
  method HasEventBearingCycle(f: Forest) returns (cyclic: bool)
    ensures !cyclic <==> (exists rank :: RisesAlongChildren(f, rank)) && (exists rank :: RisesAlongParents(f, rank))
  {
    var indegrees, edges := ChildGraph(f);
    cyclic := DirectedGraphHasCycle(indegrees, edges);
    SameRanksChildren(f, edges);
    if !cyclic {
      indegrees, edges := ParentGraph(f);
      cyclic := DirectedGraphHasCycle(indegrees, edges);
      SameRanksParents(f, edges);
    }
  }

  lemma SameRanksChildren(f: Forest, edges: Edges)
    requires forall u, v {:trigger Edge(edges, u, v)} :: Edge(edges, u, v) <==> ChildEdge(f, u, v)
    ensures HasRank(BearingNodes(f), edges) <==> exists rank :: RisesAlongChildren(f, rank)
  {
    forall rank ensures TopologicalRank(BearingNodes(f), edges, rank) <==> RisesAlongChildren(f, rank) {
      if TopologicalRank(BearingNodes(f), edges, rank) {
        forall u, v | ChildEdge(f, u, v) ensures rank[u] < rank[v] {
          assert Edge(edges, u, v);
        }
      }
    }
  }

  lemma SameRanksParents(f: Forest, edges: Edges)
    requires forall u, v {:trigger Edge(edges, u, v)} :: Edge(edges, u, v) <==> ParentEdge(f, u, v)
    ensures HasRank(BearingNodes(f), edges) <==> exists rank :: RisesAlongParents(f, rank)
  {
    forall rank ensures TopologicalRank(BearingNodes(f), edges, rank) <==> RisesAlongParents(f, rank) {
      if TopologicalRank(BearingNodes(f), edges, rank) {
        forall u, v | ParentEdge(f, u, v) ensures rank[u] < rank[v] {
          assert Edge(edges, u, v);
        }
      }
    }
  }

  // ----- rising ranks, falling ranks, and trees -----

  lemma {:induction false} Bounded(s: set<Id>, rank: map<Id, nat>) returns (bound: nat)
    requires s <= rank.Keys
    ensures forall n :: n in s ==> rank[n] < bound
  {
    if s == {} {
      bound := 0;
    } else {
      var x :| x in s;
      var b := Bounded(s - {x}, rank);
      bound := if rank[x] >= b then rank[x] + 1 else b;
    }
  }

  /** A rank rising along the child lists, turned over, falls from each node to its children. */
  lemma TurnOver(f: Forest, rank: map<Id, nat>) returns (down: map<Id, nat>)
    requires RisesAlongChildren(f, rank)
    ensures Falling(f, down)
  {
    var bound := Bounded(BearingNodes(f), rank);
    down := map n | n in BearingNodes(f) :: bound - rank[n];
    forall n, c | Bearing(f, n) && c in f.nodes[n].children && Bearing(f, c) ensures down[c] < down[n] {
      assert ChildEdge(f, n, c);
    }
  }

  /** A tree-shaped forest is never refused. */
  lemma TreesRise(f: Forest)
    requires TreeShaped(f)
    ensures (exists rank :: RisesAlongChildren(f, rank)) && (exists rank :: RisesAlongParents(f, rank))
  {
    var height :| Ranked(f, height);
    var bound := Bounded(f.nodes.Keys, height);
    var rank := map n | n in f.nodes :: bound - height[n];
    assert RisesAlongChildren(f, rank);
    forall u, v | ParentEdge(f, u, v) ensures rank[u] < rank[v] {
      assert v in f.nodes[u].children;
    }
    assert RisesAlongParents(f, rank);
  }
}
