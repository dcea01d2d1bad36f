/** Kahn's algorithm, as `align` uses it to refuse a forest whose event-bearing part is cyclic. */
module CycleCheck {
  import opened Common
  import opened Sequences

  type Edges = map<Id, seq<Id>>

  function Successors(edges: Edges, u: Id): seq<Id> {
    if u in edges then edges[u] else []
  }

  ghost predicate Edge(edges: Edges, u: Id, v: Id) {
    v in Successors(edges, u)
  }

  /** A rank that rises along every edge between the nodes. */
  ghost predicate TopologicalRank(nodes: set<Id>, edges: Edges, rank: map<Id, nat>) {
    && nodes <= rank.Keys
    && forall u, v {:trigger Edge(edges, u, v)} :: u in nodes && v in nodes && Edge(edges, u, v) ==> rank[u] < rank[v]
  }

  ghost predicate HasRank(nodes: set<Id>, edges: Edges) {
    exists rank :: TopologicalRank(nodes, edges, rank)
  }

  /** How many edges into `v` start in `from`, parallel edges counted each. */
  ghost function EdgesInto(from: set<Id>, edges: Edges, v: Id): nat {
    if from == {} then 0
    else var u :| u in from; multiset(Successors(edges, u))[v] + EdgesInto(from - {u}, edges, v)
  }

  lemma {:induction false} EdgesIntoRemove(from: set<Id>, edges: Edges, v: Id, u: Id)
    requires u in from
    ensures EdgesInto(from, edges, v) == multiset(Successors(edges, u))[v] + EdgesInto(from - {u}, edges, v)
    decreases |from|
  {
    var w :| w in from && EdgesInto(from, edges, v) == multiset(Successors(edges, w))[v] + EdgesInto(from - {w}, edges, v);
    if w != u {
      EdgesIntoRemove(from - {w}, edges, v, u);
      EdgesIntoRemove(from - {u}, edges, v, w);
      assert from - {w} - {u} == from - {u} - {w};
    }
  }

  lemma {:induction false} EdgesIntoNone(from: set<Id>, edges: Edges, v: Id)
    ensures EdgesInto(from, edges, v) == 0 <==> forall u :: u in from ==> !Edge(edges, u, v)
    decreases |from|
  {
    if from != {} {
      var u :| u in from && EdgesInto(from, edges, v) == multiset(Successors(edges, u))[v] + EdgesInto(from - {u}, edges, v);
      EdgesIntoNone(from - {u}, edges, v);
      assert Edge(edges, u, v) <==> multiset(Successors(edges, u))[v] > 0;
    }
  }

  /** Edges stay inside the nodes, and each indegree counts the edges into its node. */
  ghost predicate ConsistentGraph(indegrees: map<Id, nat>, edges: Edges) {
    && (forall u, v {:trigger Edge(edges, u, v)} :: Edge(edges, u, v) ==> u in indegrees && v in indegrees)
    && (forall v {:trigger indegrees[v]} :: v in indegrees ==> indegrees[v] == EdgesInto(indegrees.Keys, edges, v))
  }

  // ----- the loop's invariant -----

  ghost predicate Stacked(nodes: set<Id>, popped: set<Id>, ready: seq<Id>) {
    NoDup(ready) && popped <= nodes && forall v :: v in ready ==> v in nodes && v !in popped
  }

  /** With `popped` removed from the graph and `done` of the current node's edges removed too, every
      node still waiting has its remaining in-edges counted. */
  ghost predicate Draining(nodes: set<Id>, edges: Edges, popped: set<Id>, left: seq<Id>, ready: seq<Id>, indegrees: map<Id, nat>) {
    && indegrees.Keys == nodes
    && Stacked(nodes, popped, ready)
    && forall v {:trigger indegrees[v]} :: v in nodes ==>
         && indegrees[v] == EdgesInto(nodes - popped, edges, v) + multiset(left)[v]
         && (indegrees[v] == 0 <==> v in ready || v in popped)
  }

  /** Popped nodes are ranked by when they were popped: all their predecessors went first. */
  ghost predicate RankedByPop(edges: Edges, popped: set<Id>, rank: map<Id, nat>) {
    && rank.Keys == popped
    && (forall v :: v in popped ==> rank[v] < |popped|)
    && forall u, v {:trigger Edge(edges, u, v)} :: v in popped && Edge(edges, u, v) ==> u in popped && rank[u] < rank[v]
  }

  lemma PopRanks(nodes: set<Id>, edges: Edges, popped: set<Id>, ready: seq<Id>, indegrees: map<Id, nat>, rank: map<Id, nat>, v: Id)
    requires Draining(nodes, edges, popped, [], ready, indegrees) && RankedByPop(edges, popped, rank) && v in ready
    requires forall x {:trigger Edge(edges, x, v)} :: Edge(edges, x, v) ==> x in nodes
    ensures RankedByPop(edges, popped + {v}, rank[v := |popped|])
  {
    assert indegrees[v] == 0;
    EdgesIntoNone(nodes - popped, edges, v);
    RankLast(edges, popped, rank, v);
  }

  lemma RankLast(edges: Edges, popped: set<Id>, rank: map<Id, nat>, v: Id)
    requires RankedByPop(edges, popped, rank) && v !in popped
    requires forall u :: Edge(edges, u, v) ==> u in popped
    ensures RankedByPop(edges, popped + {v}, rank[v := |popped|])
  {
  }

  lemma PopStarts(nodes: set<Id>, edges: Edges, popped: set<Id>, ready: seq<Id>, indegrees: map<Id, nat>, v: Id, rest: seq<Id>)
    requires Draining(nodes, edges, popped, [], ready, indegrees) && ready != []
    requires v == ready[|ready| - 1] && rest == ready[..|ready| - 1]
    ensures Draining(nodes, edges, popped + {v}, Successors(edges, v), rest, indegrees)
  {
    assert ready == rest + [v];
    forall w | w in nodes
      ensures indegrees[w] == EdgesInto(nodes - (popped + {v}), edges, w) + multiset(Successors(edges, v))[w]
    {
      EdgesIntoRemove(nodes - popped, edges, w, v);
      assert nodes - popped - {v} == nodes - (popped + {v});
    }
  }

  lemma PushFresh(nodes: set<Id>, popped: set<Id>, ready: seq<Id>, v: Id)
    requires Stacked(nodes, popped, ready) && v in nodes && v !in popped && v !in ready
    ensures Stacked(nodes, popped, ready + [v])
  {
  }

  lemma HeadCounts(left: seq<Id>)
    requires left != []
    ensures multiset(left) == multiset{left[0]} + multiset(left[1..])
  {
    assert left == [left[0]] + left[1..];
  }

  lemma ReleaseOne(nodes: set<Id>, edges: Edges, popped: set<Id>, left: seq<Id>, ready: seq<Id>, indegrees: map<Id, nat>)
    requires left != [] && left[0] in nodes && Draining(nodes, edges, popped, left, ready, indegrees)
    ensures indegrees[left[0]] > 0
    ensures
      var n := indegrees[left[0]] - 1;
      Draining(nodes, edges, popped, left[1..], if n == 0 then ready + [left[0]] else ready, indegrees[left[0] := n])
  {
    var child := left[0];
    HeadCounts(left);
    assert indegrees[child] > 0;
    var n := indegrees[child] - 1;
    var more := if n == 0 then ready + [child] else ready;
    PushFresh(nodes, popped, ready, child);
    forall v | v in nodes
      ensures indegrees[child := n][v] == EdgesInto(nodes - popped, edges, v) + multiset(left[1..])[v]
      ensures indegrees[child := n][v] == 0 <==> v in more || v in popped
    {
      assert indegrees[v] == EdgesInto(nodes - popped, edges, v) + multiset(left)[v];
    }
  }

  /** A rank leaves no room for a stuck node: the lowest-ranked unpopped node has nothing before it. */
  lemma {:induction false} RankDrains(nodes: set<Id>, edges: Edges, popped: set<Id>, indegrees: map<Id, nat>, rank: map<Id, nat>, v: Id)
    requires Draining(nodes, edges, popped, [], [], indegrees) && TopologicalRank(nodes, edges, rank) && v in nodes
    ensures v in popped
    decreases rank[v]
  {
    if v !in popped {
      assert indegrees[v] > 0;
      EdgesIntoNone(nodes - popped, edges, v);
      var u :| u in nodes - popped && Edge(edges, u, v);
      RankDrains(nodes, edges, popped, indegrees, rank, u);
    }
  }

  method ReleaseSuccessors(successors: seq<Id>, indegrees: map<Id, nat>, ready: seq<Id>,
                           ghost nodes: set<Id>, ghost edges: Edges, ghost popped: set<Id>)
    returns (indegrees': map<Id, nat>, ready': seq<Id>)
    requires Draining(nodes, edges, popped, successors, ready, indegrees)
    requires forall v :: v in successors ==> v in nodes
    ensures Draining(nodes, edges, popped, [], ready', indegrees')
  {
    indegrees', ready' := indegrees, ready;
    for i := 0 to |successors|
      invariant Draining(nodes, edges, popped, successors[i..], ready', indegrees')
    {
      var child := successors[i];
      ReleaseOne(nodes, edges, popped, successors[i..], ready', indegrees');
      assert successors[i..][1..] == successors[i + 1..];
      indegrees' := indegrees'[child := indegrees'[child] - 1];
      if indegrees'[child] == 0 {
        ready' := ready' + [child];
      }
    }
    assert successors[|successors|..] == [];
  }

  /** `directed_graph_has_cycle`: no cycle is reported exactly when the graph can be ranked. */
  method DirectedGraphHasCycle(indegrees: map<Id, nat>, edges: Edges) returns (cyclic: bool)
    requires ConsistentGraph(indegrees, edges)
    ensures !cyclic <==> HasRank(indegrees.Keys, edges)
  {
    ghost var nodes := indegrees.Keys;
    var remaining := indegrees;
    var ready := AnyOrder(set v | v in remaining && remaining[v] == 0);
    var visited := 0;
    ghost var popped: set<Id>, rank: map<Id, nat> := {}, map[];
    StartsDraining(indegrees, edges, ready);
    while ready != []
      invariant Draining(nodes, edges, popped, [], ready, remaining)
      invariant RankedByPop(edges, popped, rank) && visited == |popped|
      decreases nodes - popped
    {
      var v := ready[|ready| - 1];
      PopRanks(nodes, edges, popped, ready, remaining, rank, v);
      PopStarts(nodes, edges, popped, ready, remaining, v, ready[..|ready| - 1]);
      assert v in nodes && v !in popped;
      ready := ready[..|ready| - 1];
      rank, popped, visited := rank[v := |popped|], popped + {v}, visited + 1;
      assert forall w :: w in Successors(edges, v) ==> Edge(edges, v, w);
      remaining, ready := ReleaseSuccessors(Successors(edges, v), remaining, ready, nodes, edges, popped);
    }
    cyclic := visited != |remaining|;
    assert remaining.Keys == nodes;
    SubsetSize(popped, nodes);
    if !cyclic {
      assert popped == nodes;
      assert TopologicalRank(nodes, edges, rank);
    }
    if HasRank(nodes, edges) {
      var r :| TopologicalRank(nodes, edges, r);
      forall v | v in nodes ensures v in popped {
        RankDrains(nodes, edges, popped, remaining, r, v);
      }
      assert popped == nodes;
    }
  }

  lemma StartsDraining(indegrees: map<Id, nat>, edges: Edges, ready: seq<Id>)
    requires ConsistentGraph(indegrees, edges)
    requires NoDup(ready) && ToSet(ready) == set v | v in indegrees && indegrees[v] == 0
    ensures Draining(indegrees.Keys, edges, {}, [], ready, indegrees)
  {
    assert indegrees.Keys - {} == indegrees.Keys;
    forall v ensures v in ready <==> v in indegrees && indegrees[v] == 0 {
      assert v in ToSet(ready) <==> v in indegrees && indegrees[v] == 0;
    }
  }
}
