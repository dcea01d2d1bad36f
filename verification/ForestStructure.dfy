/** `build`'s structure pass: cutting cycles, promoting orphans, and rebuilding child and root lists. */
module ForestStructure {
  import opened Common
  import opened Sequences
  import opened ForestModel
  import opened ParentWalk
  import opened CycleChoice
  import opened CycleCuts

  /** A node's place in creation order; the id breaks ties, so the order is total. */
  function CreatedBefore(creation: map<Id, nat>): (Id, Id) -> bool {
    (a, b) =>
      var x := if a in creation then creation[a] else 0;
      var y := if b in creation then creation[b] else 0;
      x < y || (x == y && a.number <= b.number)
  }

  function ChildOf(kept: Parents, parent: Option<Id>): Id -> bool {
    n => n in kept && kept[n] == parent
  }

  function ParentsOf(nodes: map<Id, ForestNode>): Parents {
    map n | n in nodes :: nodes[n].parentId
  }

  function ParentMap(f: Forest): Parents {
    ParentsOf(f.nodes)
  }

  /** Nodes naming a parent the payload does not carry, and not cut: they are promoted to roots. */
  function Orphans(p: Parents, cuts: set<Id>): set<Id> {
    set n | n in p && n !in cuts && p[n].Some? && p[n].value !in p
  }

  /** Exactly the nodes with that kept parent, once each, oldest first. */
  ghost predicate InCreationOrder(ids: seq<Id>, kept: Parents, parent: Option<Id>, creation: map<Id, nat>) {
    && NoDup(ids)
    && Sorted(ids, CreatedBefore(creation))
    && forall n {:trigger n in ids} {:trigger kept[n]} :: n in ids <==> n in kept && kept[n] == parent
  }

  /** `given` with its edges replaced by the kept ones and its lists rebuilt to match: nothing else
      about a node changes. */
  ghost predicate Restructured(given: Forest, f: Forest, kept: Parents, orphans: set<Id>, creation: map<Id, nat>) {
    && f.correlation == given.correlation
    && f.nodes.Keys == given.nodes.Keys == kept.Keys
    && (forall n {:trigger f.nodes[n]} :: n in f.nodes ==>
          && f.nodes[n] == given.nodes[n].(parentId := kept[n], promoted := n in orphans, children := f.nodes[n].children)
          && InCreationOrder(f.nodes[n].children, kept, Some(n), creation))
    && InCreationOrder(f.roots, kept, None, creation)
  }

  lemma CreationIsPreorder(creation: map<Id, nat>)
    ensures TotalPreorder(CreatedBefore(creation))
    ensures NoTies(CreatedBefore(creation))
  {
  }

  method OrderByCreation(ids: set<Id>, creation: map<Id, nat>) returns (ordered: seq<Id>)
    ensures NoDup(ordered) && ToSet(ordered) == ids && Sorted(ordered, CreatedBefore(creation))
  {
    var any := AnyOrder(ids);
    ordered := Sort(any, CreatedBefore(creation));
    CreationIsPreorder(creation);
    SortSorts(any, CreatedBefore(creation));
    NoDupFromMultiset(any, ordered);
  }

  /** First pass: each node takes its kept parent and forgets its children. */
  method SetParents(nodes: map<Id, ForestNode>, ordered: seq<Id>, p: Parents, cuts: set<Id>)
    returns (out: map<Id, ForestNode>)
    requires nodes.Keys == p.Keys == ToSet(ordered)
    ensures out.Keys == nodes.Keys
    ensures forall n {:trigger out[n]} :: n in out ==>
              out[n] == nodes[n].(parentId := Kept(p, cuts)[n], promoted := n in Orphans(p, cuts), children := [])
  {
    out := nodes;
    for i := 0 to |ordered|
      invariant out.Keys == nodes.Keys
      invariant forall n :: n in ordered[..i] ==>
                  n in out && out[n] == nodes[n].(parentId := Kept(p, cuts)[n], promoted := n in Orphans(p, cuts), children := [])
    {
      var n := ordered[i];
      assert n in ToSet(ordered);
      var parentId, promoted := None, false;
      if n !in cuts {
        match p[n]
        case Some(parent) => if parent in p { parentId := Some(parent); } else { promoted := true; }
        case None =>
      }
      out := out[n := nodes[n].(parentId := parentId, promoted := promoted, children := [])];
      assert ordered[..i + 1] == ordered[..i] + [n];
    }
    assert ordered[..|ordered|] == ordered;
    assert forall n :: n in out ==> n in ToSet(ordered);
  }

  /** Every node lists its children among `seen`, and is otherwise as given. */
  ghost predicate ListsSoFar(nodes: map<Id, ForestNode>, out: map<Id, ForestNode>, seen: seq<Id>, kept: Parents) {
    && out.Keys == nodes.Keys
    && forall n {:trigger out[n]} :: n in out ==> out[n] == nodes[n].(children := Filter(seen, ChildOf(kept, Some(n))))
  }

  lemma ListOneMore(nodes: map<Id, ForestNode>, had: map<Id, ForestNode>, out: map<Id, ForestNode>,
                    seen: seq<Id>, child: Id, kept: Parents)
    requires ListsSoFar(nodes, had, seen, kept) && child in kept
    requires kept[child].None? ==> out == had
    requires kept[child].Some? ==>
               var q := kept[child].value;
               q in had && out == had[q := had[q].(children := had[q].children + [child])]
    ensures ListsSoFar(nodes, out, seen + [child], kept)
  {
    forall n | n in out ensures out[n] == nodes[n].(children := Filter(seen + [child], ChildOf(kept, Some(n)))) {
      assert (seen + [child])[..|seen|] == seen;
      assert had[n] == nodes[n].(children := Filter(seen, ChildOf(kept, Some(n))));
    }
  }

  /** Second pass: each kept edge puts its child on its parent's list, oldest first. */
  method PushChildren(nodes: map<Id, ForestNode>, ordered: seq<Id>, ghost kept: Parents)
    returns (out: map<Id, ForestNode>)
    requires nodes.Keys == kept.Keys
    requires forall i :: 0 <= i < |ordered| ==> ordered[i] in nodes
    requires forall n {:trigger nodes[n]} :: n in nodes ==> nodes[n].parentId == kept[n] && nodes[n].children == []
    requires forall i :: 0 <= i < |ordered| && kept[ordered[i]].Some? ==> kept[ordered[i]].value in nodes
    ensures ListsSoFar(nodes, out, ordered, kept)
  {
    out := nodes;
    for i := 0 to |ordered|
      invariant ListsSoFar(nodes, out, ordered[..i], kept)
    {
      var child := ordered[i];
      ghost var had := out;
      if nodes[child].parentId.Some? {
        var parent := nodes[child].parentId.value;
        out := out[parent := out[parent].(children := out[parent].children + [child])];
      }
      ListOneMore(nodes, had, out, ordered[..i], child, kept);
      assert ordered[..i + 1] == ordered[..i] + [child];
    }
    assert ordered[..|ordered|] == ordered;
  }

  method SortChildren(nodes: map<Id, ForestNode>, creation: map<Id, nat>) returns (out: map<Id, ForestNode>)
    ensures out.Keys == nodes.Keys
    ensures forall n {:trigger out[n]} :: n in out ==>
              out[n] == nodes[n].(children := Sort(nodes[n].children, CreatedBefore(creation)))
  {
    out := nodes;
    var ids := AnyOrder(nodes.Keys);
    for i := 0 to |ids|
      invariant out.Keys == nodes.Keys
      invariant forall n :: n in ids[..i] ==>
                  n in out && out[n] == nodes[n].(children := Sort(nodes[n].children, CreatedBefore(creation)))
      invariant forall n {:trigger out[n]} :: n in out && n !in ids[..i] ==> out[n] == nodes[n]
    {
      var n := ids[i];
      assert n in ToSet(ids);
      out := out[n := nodes[n].(children := Sort(nodes[n].children, CreatedBefore(creation)))];
      assert ids[..i + 1] == ids[..i] + [n];
    }
    assert ids[..|ids|] == ids;
    assert forall n :: n in out ==> n in ToSet(ids);
  }

  lemma SortedSelection(ordered: seq<Id>, kept: Parents, parent: Option<Id>, creation: map<Id, nat>)
    requires NoDup(ordered) && ToSet(ordered) == kept.Keys && Sorted(ordered, CreatedBefore(creation))
    ensures InCreationOrder(Sort(Filter(ordered, ChildOf(kept, parent)), CreatedBefore(creation)), kept, parent, creation)
  {
    FilterKeeps(ordered, ChildOf(kept, parent), CreatedBefore(creation));
    SortOfSorted(Filter(ordered, ChildOf(kept, parent)), CreatedBefore(creation));
    forall n ensures n in ordered <==> n in kept {
      assert n in ToSet(ordered) <==> n in kept.Keys;
    }
  }

  lemma AssembledAsKept(given: Forest, f: Forest, kept: Parents, orphans: set<Id>, creation: map<Id, nat>, ordered: seq<Id>)
    requires NoDup(ordered) && ToSet(ordered) == kept.Keys && Sorted(ordered, CreatedBefore(creation))
    requires f.correlation == given.correlation && f.nodes.Keys == given.nodes.Keys == kept.Keys
    requires f.roots == Sort(Filter(ordered, ChildOf(kept, None)), CreatedBefore(creation))
    requires forall n {:trigger f.nodes[n]} :: n in f.nodes ==> f.nodes[n] == given.nodes[n].(
               parentId := kept[n],
               promoted := n in orphans,
               children := Sort(Filter(ordered, ChildOf(kept, Some(n))), CreatedBefore(creation)))
    ensures Restructured(given, f, kept, orphans, creation)
  {
    SortedSelection(ordered, kept, None, creation);
    forall n | n in f.nodes ensures InCreationOrder(f.nodes[n].children, kept, Some(n), creation) {
      SortedSelection(ordered, kept, Some(n), creation);
    }
  }

  lemma SameParents(nodes: map<Id, ForestNode>, kept: Parents)
    requires nodes.Keys == kept.Keys
    requires forall n {:trigger nodes[n]} :: n in nodes ==> nodes[n].parentId == kept[n]
    ensures ParentsOf(nodes) == kept
  {
  }

  method ReplaceEdges(nodes: map<Id, ForestNode>, p: Parents, ordered: seq<Id>, cuts: set<Id>, creation: map<Id, nat>)
    returns (out: map<Id, ForestNode>)
    requires nodes.Keys == p.Keys == ToSet(ordered)
    ensures out.Keys == nodes.Keys
    ensures forall n {:trigger out[n]} :: n in out ==>
              out[n] == nodes[n].(
                parentId := Kept(p, cuts)[n],
                promoted := n in Orphans(p, cuts),
                children := Sort(Filter(ordered, ChildOf(Kept(p, cuts), Some(n))), CreatedBefore(creation)))
  {
    out := SetParents(nodes, ordered, p, cuts);
    assert forall i :: 0 <= i < |ordered| ==> ordered[i] in ToSet(ordered);
    out := PushChildren(out, ordered, Kept(p, cuts));
    out := SortChildren(out, creation);
  }

  method RebuildLists(forest: Forest, p: Parents, ordered: seq<Id>, cuts: set<Id>, creation: map<Id, nat>)
    returns (out: Forest)
    requires forest.nodes.Keys == p.Keys
    requires NoDup(ordered) && ToSet(ordered) == p.Keys && Sorted(ordered, CreatedBefore(creation))
    ensures Restructured(forest, out, Kept(p, cuts), Orphans(p, cuts), creation)
  {
    var nodes := ReplaceEdges(forest.nodes, p, ordered, cuts, creation);
    out := CollectRoots(forest, nodes, ordered, Kept(p, cuts), Orphans(p, cuts), creation);
  }

  method CollectRoots(forest: Forest, nodes: map<Id, ForestNode>, ordered: seq<Id>,
                      ghost kept: Parents, ghost orphans: set<Id>, creation: map<Id, nat>)
    returns (out: Forest)
    requires NoDup(ordered) && ToSet(ordered) == kept.Keys && Sorted(ordered, CreatedBefore(creation))
    requires nodes.Keys == forest.nodes.Keys == kept.Keys
    requires forall n {:trigger nodes[n]} :: n in nodes ==> nodes[n] == forest.nodes[n].(
               parentId := kept[n],
               promoted := n in orphans,
               children := Sort(Filter(ordered, ChildOf(kept, Some(n))), CreatedBefore(creation)))
    ensures Restructured(forest, out, kept, orphans, creation)
  {
    SameParents(nodes, kept);
    var roots := Sort(Filter(ordered, ChildOf(ParentsOf(nodes), None)), CreatedBefore(creation));
    out := forest.(nodes := nodes, roots := roots);
    AssembledAsKept(forest, out, kept, orphans, creation, ordered);
  }

  /** Structure resolution of one forest: cut, promote, rebuild. */
  method ResolveStructure(forest: Forest, creation: map<Id, nat>)
    returns (out: Forest, ghost cuts: set<Id>, reasons: seq<(Id, Id)>)
    ensures OneCutPerCycle(ParentMap(forest), cuts) && Reasons(reasons, cuts)
    ensures cuts == TheCuts(ParentMap(forest), CreatedBefore(creation))
    ensures NamesChoices(ParentMap(forest), CreatedBefore(creation), reasons)
    ensures Restructured(forest, out, Kept(ParentMap(forest), cuts), Orphans(ParentMap(forest), cuts), creation)
  {
    var ordered := OrderByCreation(forest.nodes.Keys, creation);
    CreationIsPreorder(creation);
    var cut, found := CutCycles(ordered, ParentMap(forest), CreatedBefore(creation));
    out := RebuildLists(forest, ParentMap(forest), ordered, cut, creation);
    cuts, reasons := cut, found;
  }

  // ----- the result is a tree-shaped forest, whatever the parent pointers were -----

  /** Child and root lists hold exactly the nodes whose kept parent says so. */
  ghost predicate ListsMatch(f: Forest, kept: Parents) {
    && f.nodes.Keys == kept.Keys
    && (forall n {:trigger f.nodes[n]} :: n in f.nodes ==>
          f.nodes[n].nodeId == n && f.nodes[n].parentId == kept[n] && NoDup(f.nodes[n].children))
    && (forall n, c {:trigger c in f.nodes[n].children} :: n in f.nodes && c in f.nodes[n].children ==> c in kept && kept[c] == Some(n))
    && (forall c, q :: c in kept && kept[c] == Some(q) ==> q in kept)
    && (forall c, q {:trigger kept[c], f.nodes[q]} :: c in kept && q in f.nodes && kept[c] == Some(q) ==> c in f.nodes[q].children)
    && NoDup(f.roots)
    && (forall n {:trigger n in f.roots} {:trigger kept[n]} :: n in f.roots <==> n in kept && kept[n] == None)
  }

  lemma RestructuredListsMatch(given: Forest, f: Forest, kept: Parents, orphans: set<Id>, creation: map<Id, nat>)
    requires Restructured(given, f, kept, orphans, creation)
    requires forall n {:trigger given.nodes[n]} :: n in given.nodes ==> given.nodes[n].nodeId == n
    requires forall c, q :: c in kept && kept[c] == Some(q) ==> q in kept
    ensures ListsMatch(f, kept)
  {
  }

  lemma MatchedListsRanked(f: Forest, kept: Parents)
    requires Acyclic(kept) && ListsMatch(f, kept)
    ensures exists rank :: Ranked(f, rank)
  {
    var rank := HeightRank(kept);
    forall n, c | n in f.nodes && c in f.nodes[n].children ensures rank[c] < rank[n] {
      assert HasParent(kept, c);
    }
    assert Ranked(f, rank);
  }

  lemma MatchedListsLinked(f: Forest, kept: Parents)
    requires ListsMatch(f, kept)
    ensures Linked(f)
  {
    forall n, c {:trigger c in f.nodes[n].children} | n in f.nodes && c in f.nodes[n].children
      ensures c in f.nodes && f.nodes[c].parentId == Some(n)
    {
    }
  }

  lemma RestructuredIsTree(given: Forest, f: Forest, cuts: set<Id>, creation: map<Id, nat>)
    requires OneCutPerCycle(ParentMap(given), cuts)
    requires Restructured(given, f, Kept(ParentMap(given), cuts), Orphans(ParentMap(given), cuts), creation)
    requires forall n {:trigger given.nodes[n]} :: n in given.nodes ==> given.nodes[n].nodeId == n
    ensures TreeShaped(f)
  {
    var kept := Kept(ParentMap(given), cuts);
    KeptAcyclic(ParentMap(given), cuts);
    RestructuredListsMatch(given, f, kept, Orphans(ParentMap(given), cuts), creation);
    MatchedListsRanked(f, kept);
    MatchedListsLinked(f, kept);
  }
}
