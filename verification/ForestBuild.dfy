/** `build`: from nodes and events to forests, in the original's five passes. */
module ForestBuild {
  import opened Common
  import opened Sequences
  import opened ParentWalk
  import opened CycleChoice
  import opened CycleCuts
  import opened ForestModel
  import opened ForestStructure
  import opened ForestSets
  import opened ForestTotals
  import opened ForestContents
  import opened EventPlacement
  import opened EventAttachment
  import opened ForestFinish

  function IdsOf(nodes: seq<GraphNode>): seq<Id> {
    seq(|nodes|, i requires 0 <= i < |nodes| => nodes[i].nodeId)
  }

  function Blank(n: GraphNode): ForestNode {
    ForestNode(n.nodeId, n.parentId, false, n.spanName, [], [], 0)
  }

  // ----- first pass: a blank forest per correlation -----

  ghost predicate HoldsNode(forests: Forests, n: GraphNode) {
    && n.correlation in forests
    && n.nodeId in forests[n.correlation].nodes
    && forests[n.correlation].nodes[n.nodeId] == Blank(n)
  }

  /** Each input node is in the forest of its correlation, and the forests hold nothing else. */
  ghost predicate Partitioned(nodes: seq<GraphNode>, forests: Forests) {
    && None in forests
    && (forall c {:trigger forests[c]} :: c in forests ==> forests[c].correlation == c && forests[c].roots == [])
    && (forall i :: 0 <= i < |nodes| ==> HoldsNode(forests, nodes[i]))
    && (forall c, id {:trigger id in forests[c].nodes} :: c in forests && id in forests[c].nodes ==> Given(nodes, c, id))
    && (forall c {:trigger c in forests} :: c in forests && c != None ==> exists i :: 0 <= i < |nodes| && nodes[i].correlation == c)
  }

  ghost predicate Indexed(nodes: seq<GraphNode>, partition: map<Id, Option<string>>, creation: map<Id, nat>) {
    && partition.Keys == creation.Keys == ToSet(IdsOf(nodes))
    && forall i :: 0 <= i < |nodes| ==>
         nodes[i].nodeId in partition && partition[nodes[i].nodeId] == nodes[i].correlation && creation[nodes[i].nodeId] == nodes[i].sequence
  }

  lemma IdsGrow(nodes: seq<GraphNode>, i: nat)
    requires i < |nodes|
    ensures IdsOf(nodes[..i + 1]) == IdsOf(nodes[..i]) + [nodes[i].nodeId]
    ensures nodes[..i + 1] == nodes[..i] + [nodes[i]]
  {
  }

  lemma PartitionGrows(nodes: seq<GraphNode>, forests: Forests, n: GraphNode, grown: Forests)
    requires Partitioned(nodes, forests) && n.nodeId !in ToSet(IdsOf(nodes))
    requires
      var f := if n.correlation in forests then forests[n.correlation] else Forest(n.correlation, map[], []);
      grown == forests[n.correlation := f.(nodes := f.nodes[n.nodeId := Blank(n)])]
    ensures Partitioned(nodes + [n], grown)
  {
    var more := nodes + [n];
    forall i | 0 <= i < |more| ensures HoldsNode(grown, more[i]) {
      if i < |nodes| {
        assert HoldsNode(forests, nodes[i]);
        assert IdsOf(nodes)[i] == nodes[i].nodeId;
      }
    }
    forall c, id | c in grown && id in grown[c].nodes ensures Given(more, c, id) {
      if c in forests && id in forests[c].nodes {
        assert Given(nodes, c, id);
        var i :| 0 <= i < |nodes| && nodes[i].nodeId == id && nodes[i].correlation == c;
        assert more[i] == nodes[i];
      } else {
        assert more[|nodes|] == n;
      }
    }
    forall c | c in grown && c != None ensures exists i :: 0 <= i < |more| && more[i].correlation == c {
      if c in forests {
        var i :| 0 <= i < |nodes| && nodes[i].correlation == c;
        assert more[i] == nodes[i];
      } else {
        assert more[|nodes|] == n;
      }
    }
  }

  /** Adding one node whose id is new. */
  method AddNode(n: GraphNode, forests: Forests, ghost nodes: seq<GraphNode>) returns (grown: Forests)
    requires Partitioned(nodes, forests) && n.nodeId !in ToSet(IdsOf(nodes))
    ensures Partitioned(nodes + [n], grown)
  {
    var f := if n.correlation in forests then forests[n.correlation] else Forest(n.correlation, map[], []);
    grown := forests[n.correlation := f.(nodes := f.nodes[n.nodeId := Blank(n)])];
    PartitionGrows(nodes, forests, n, grown);
  }

  lemma IndexGrows(nodes: seq<GraphNode>, partition: map<Id, Option<string>>, creation: map<Id, nat>, n: GraphNode)
    requires Indexed(nodes, partition, creation) && n.nodeId !in partition
    ensures Indexed(nodes + [n], partition[n.nodeId := n.correlation], creation[n.nodeId := n.sequence])
  {
    assert IdsOf(nodes + [n]) == IdsOf(nodes) + [n.nodeId];
  }

  method PartitionNodes(nodes: seq<GraphNode>)
    returns (duplicate: Option<Id>, forests: Forests, partition: map<Id, Option<string>>, creation: map<Id, nat>)
    ensures duplicate.None? <==> NoDup(IdsOf(nodes))
    ensures duplicate.Some? ==> exists i, j :: 0 <= i < j < |nodes| && nodes[i].nodeId == nodes[j].nodeId == duplicate.value
    ensures duplicate.None? ==> Partitioned(nodes, forests) && Indexed(nodes, partition, creation)
  {
    duplicate, forests, partition, creation := None, map[None := Forest(None, map[], [])], map[], map[];
    for i := 0 to |nodes|
      invariant NoDup(IdsOf(nodes[..i]))
      invariant Partitioned(nodes[..i], forests)
      invariant Indexed(nodes[..i], partition, creation)
    {
      var n := nodes[i];
      IdsGrow(nodes, i);
      if n.nodeId in partition {
        duplicate := Some(n.nodeId);
        DuplicateFound(nodes, i);
        return;
      }
      IndexGrows(nodes[..i], partition, creation, n);
      partition, creation := partition[n.nodeId := n.correlation], creation[n.nodeId := n.sequence];
      forests := AddNode(n, forests, nodes[..i]);
    }
    assert nodes[..|nodes|] == nodes;
  }

  lemma DuplicateFound(nodes: seq<GraphNode>, j: nat)
    requires j < |nodes| && nodes[j].nodeId in IdsOf(nodes[..j])
    ensures exists i, k :: 0 <= i < k < |nodes| && nodes[i].nodeId == nodes[k].nodeId == nodes[j].nodeId
    ensures !NoDup(IdsOf(nodes))
  {
    var i :| 0 <= i < j && IdsOf(nodes[..j])[i] == nodes[j].nodeId;
    assert IdsOf(nodes)[i] == nodes[i].nodeId && IdsOf(nodes)[j] == nodes[j].nodeId;
  }

  // ----- second pass: structure, forest by forest -----

  /** On each cycle the cut falls where the walk from the earliest created node leading to it enters. */
  ghost predicate CutsAsOrdered(blank: Forest, creation: map<Id, nat>, cuts: set<Id>) {
    cuts == TheCuts(ParentMap(blank), CreatedBefore(creation))
  }

  /** One forest after its structure pass. */
  ghost predicate Resolved(blank: Forest, f: Forest, cuts: set<Id>, creation: map<Id, nat>) {
    && OneCutPerCycle(ParentMap(blank), cuts) && CutsAsOrdered(blank, creation, cuts)
    && Restructured(blank, f, Kept(ParentMap(blank), cuts), Orphans(ParentMap(blank), cuts), creation)
  }

  /** Named correlations that had a cycle, each with its reasons; the ambient forest has no name to list. */
  ghost predicate UnusableAre(cuts: map<Option<string>, set<Id>>, unusable: map<string, seq<(Id, Id)>>) {
    && (forall name {:trigger name in unusable} {:trigger cuts[Some(name)]} ::
          name in unusable <==> Some(name) in cuts && cuts[Some(name)] != {})
    && (forall name {:trigger unusable[name]} :: name in unusable && Some(name) in cuts ==>
          Reasons(unusable[name], cuts[Some(name)]))
  }

  /** Each reason names a cycle's choice: the node whose walk found it, and the node cut. */
  ghost predicate ReasonsAsOrdered(blank: Forests, creation: map<Id, nat>, unusable: map<string, seq<(Id, Id)>>) {
    forall name {:trigger unusable[name]} :: name in unusable ==>
      Some(name) in blank && NamesChoices(ParentMap(blank[Some(name)]), CreatedBefore(creation), unusable[name])
  }

  lemma ReasonsOneMore(blank: Forests, creation: map<Id, nat>, unusable: map<string, seq<(Id, Id)>>, c: Option<string>, reasons: seq<(Id, Id)>)
    requires ReasonsAsOrdered(blank, creation, unusable) && c in blank
    requires NamesChoices(ParentMap(blank[c]), CreatedBefore(creation), reasons)
    ensures ReasonsAsOrdered(blank, creation, if c.Some? && reasons != [] then unusable[c.value := reasons] else unusable)
  {
  }

  lemma UnusableGrows(cuts: map<Option<string>, set<Id>>, unusable: map<string, seq<(Id, Id)>>,
                      c: Option<string>, cut: set<Id>, reasons: seq<(Id, Id)>)
    requires UnusableAre(cuts, unusable) && c !in cuts && Reasons(reasons, cut)
    ensures UnusableAre(cuts[c := cut], if c.Some? && cut != {} then unusable[c.value := reasons] else unusable)
  {
  }

  ghost predicate ResolvedForests(blank: Forests, forests: Forests, cuts: map<Option<string>, set<Id>>, creation: map<Id, nat>) {
    && forests.Keys == cuts.Keys <= blank.Keys
    && forall c {:trigger forests[c]} :: c in forests ==> Resolved(blank[c], forests[c], cuts[c], creation)
  }

  method ResolveAll(blank: Forests, creation: map<Id, nat>)
    returns (forests: Forests, ghost cuts: map<Option<string>, set<Id>>, unusable: map<string, seq<(Id, Id)>>)
    ensures ResolvedForests(blank, forests, cuts, creation) && forests.Keys == blank.Keys
    ensures UnusableAre(cuts, unusable) && ReasonsAsOrdered(blank, creation, unusable)
  {
    forests, cuts, unusable := map[], map[], map[];
    var order := AnyOrder(blank.Keys);
    for i := 0 to |order|
      invariant forests.Keys == ToSet(order[..i])
      invariant ResolvedForests(blank, forests, cuts, creation)
      invariant UnusableAre(cuts, unusable) && ReasonsAsOrdered(blank, creation, unusable)
    {
      var c := order[i];
      assert c in ToSet(order);
      PrefixGrows(order, i);
      ghost var cut;
      forests, cut, unusable := ResolveOne(c, blank, creation, forests, unusable, cuts);
      cuts := cuts[c := cut];
    }
    assert order[..|order|] == order;
  }

  lemma ResolvedOneMore(blank: Forests, forests: Forests, cuts: map<Option<string>, set<Id>>, creation: map<Id, nat>,
                        c: Option<string>, f: Forest, cut: set<Id>)
    requires ResolvedForests(blank, forests, cuts, creation) && c in blank && Resolved(blank[c], f, cut, creation)
    ensures ResolvedForests(blank, forests[c := f], cuts[c := cut], creation)
  {
  }

  method ResolveOne(c: Option<string>, blank: Forests, creation: map<Id, nat>, forests: Forests,
                    unusable: map<string, seq<(Id, Id)>>, ghost cuts: map<Option<string>, set<Id>>)
    returns (forests': Forests, ghost cut: set<Id>, unusable': map<string, seq<(Id, Id)>>)
    requires ResolvedForests(blank, forests, cuts, creation)
    requires UnusableAre(cuts, unusable) && ReasonsAsOrdered(blank, creation, unusable)
    requires c in blank && c !in forests
    ensures ResolvedForests(blank, forests', cuts[c := cut], creation)
    ensures UnusableAre(cuts[c := cut], unusable') && ReasonsAsOrdered(blank, creation, unusable')
    ensures forests'.Keys == forests.Keys + {c}
  {
    var f, found, reasons := ResolveStructure(blank[c], creation);
    cut := found;
    forests' := forests[c := f];
    unusable' := if c.Some? && reasons != [] then unusable[c.value := reasons] else unusable;
    ResolvedOneMore(blank, forests, cuts, creation, c, f, cut);
    UnusableOneMore(cuts, unusable, c, cut, reasons);
    ReasonsOneMore(blank, creation, unusable, c, reasons);
  }

  lemma UnusableOneMore(cuts: map<Option<string>, set<Id>>, unusable: map<string, seq<(Id, Id)>>,
                        c: Option<string>, cut: set<Id>, reasons: seq<(Id, Id)>)
    requires UnusableAre(cuts, unusable) && c !in cuts && Reasons(reasons, cut)
    ensures UnusableAre(cuts[c := cut], if c.Some? && reasons != [] then unusable[c.value := reasons] else unusable)
  {
    UnusableGrows(cuts, unusable, c, cut, reasons);
    ReasonsSayWhether(reasons, cut);
  }

  // ----- what a build is -----

  /** A blank forest with kept parents, promotions, rebuilt lists and sorted events. */
  ghost predicate BuiltNodes(blank: Forest, f: Forest, kept: Parents, orphans: set<Id>, creation: map<Id, nat>,
                             events: seq<EventRef>, carried: set<Id>) {
    && f.correlation == blank.correlation && f.nodes.Keys == blank.nodes.Keys == kept.Keys
    && (forall n {:trigger f.nodes[n]} :: n in f.nodes ==>
          && f.nodes[n] == blank.nodes[n].(
               parentId := kept[n],
               promoted := n in orphans,
               children := f.nodes[n].children,
               events := Sort(PlacedAt(events, carried, AtNode(n)), AtMost()),
               subtreeEvents := f.nodes[n].subtreeEvents)
          && InCreationOrder(f.nodes[n].children, kept, Some(n), creation))
    && InCreationOrder(f.roots, kept, None, creation)
  }

  ghost predicate BuiltForest(blank: Forest, f: Forest, cut: set<Id>, creation: map<Id, nat>,
                              events: seq<EventRef>, carried: set<Id>) {
    && OneCutPerCycle(ParentMap(blank), cut) && CutsAsOrdered(blank, creation, cut)
    && BuiltNodes(blank, f, Kept(ParentMap(blank), cut), Orphans(ParentMap(blank), cut), creation, events, carried)
    && RollupCounts(f)
  }

  /** What the passes chose on the way: the partition, the creation order, and the edges cut. */
  datatype Passes = Passes(blank: Forests, partition: Partition, creation: map<Id, nat>, cuts: map<Option<string>, set<Id>>)

  ghost predicate Built(nodes: seq<GraphNode>, events: seq<EventRef>, fs: ForestSet, w: Passes) {
    && Partitioned(nodes, w.blank) && Indexed(nodes, w.partition, w.creation) && NoDup(IdsOf(nodes))
    && fs.forests.Keys == w.blank.Keys == w.cuts.Keys
    && (forall c {:trigger fs.forests[c]} :: c in fs.forests ==>
          BuiltForest(w.blank[c], fs.forests[c], w.cuts[c], w.creation, events, w.partition.Keys))
    && fs.annex == Annex(
         Sort(PlacedAt(events, w.partition.Keys, NamesNoNode), AtMost()),
         Sort(PlacedAt(events, w.partition.Keys, NamesAbsentNode), AtMost()),
         Sort(PlacedAt(events, w.partition.Keys, NoCounterpart), AtMost()))
    && UnusableAre(w.cuts, fs.unusable) && ReasonsAsOrdered(w.blank, w.creation, fs.unusable)
  }

  // ----- the passes compose -----

  lemma PartitionLocates(nodes: seq<GraphNode>, blank: Forests, partition: Partition, creation: map<Id, nat>)
    requires Partitioned(nodes, blank) && Indexed(nodes, partition, creation)
    ensures Locates(partition, blank)
  {
    forall n | n in partition ensures partition[n] in blank && n in blank[partition[n]].nodes {
      assert n in ToSet(IdsOf(nodes));
      var i :| 0 <= i < |nodes| && IdsOf(nodes)[i] == n;
      assert HoldsNode(blank, nodes[i]);
    }
    forall c, n | c in blank && n in blank[c].nodes ensures n in partition && partition[n] == c {
      assert Given(nodes, c, n);
    }
  }

  lemma BlankIds(nodes: seq<GraphNode>, blank: Forests, c: Option<string>, n: Id)
    requires Partitioned(nodes, blank) && NoDup(IdsOf(nodes)) && c in blank && n in blank[c].nodes
    ensures blank[c].nodes[n].nodeId == n && blank[c].nodes[n].events == []
  {
    assert Given(nodes, c, n);
    var i :| 0 <= i < |nodes| && nodes[i].nodeId == n && nodes[i].correlation == c;
    assert HoldsNode(blank, nodes[i]);
  }

  lemma StagesCompose(blank: Forest, resolved: Forest, placed: Forest, f: Forest, cut: set<Id>, creation: map<Id, nat>,
                      events: seq<EventRef>, carried: set<Id>)
    requires Resolved(blank, resolved, cut, creation) && AttachedForest(resolved, placed, events, carried) && Finished(placed, f)
    ensures BuiltForest(blank, f, cut, creation, events, carried)
  {
    NodesCompose(blank, resolved, placed, f, Kept(ParentMap(blank), cut), Orphans(ParentMap(blank), cut), creation, events, carried);
  }

  lemma NodesCompose(blank: Forest, resolved: Forest, placed: Forest, f: Forest, kept: Parents, orphans: set<Id>,
                     creation: map<Id, nat>, events: seq<EventRef>, carried: set<Id>)
    requires Restructured(blank, resolved, kept, orphans, creation)
    requires AttachedForest(resolved, placed, events, carried) && Finished(placed, f)
    ensures BuiltNodes(blank, f, kept, orphans, creation, events, carried)
  {
    forall n | n in f.nodes
      ensures f.nodes[n].children == resolved.nodes[n].children
      ensures f.nodes[n] == blank.nodes[n].(
                parentId := kept[n],
                promoted := n in orphans,
                children := f.nodes[n].children,
                events := Sort(PlacedAt(events, carried, AtNode(n)), AtMost()),
                subtreeEvents := f.nodes[n].subtreeEvents)
    {
      assert placed.nodes[n] == resolved.nodes[n].(events := PlacedAt(events, carried, AtNode(n)));
    }
  }

  lemma PlacedIsTree(blank: Forest, resolved: Forest, placed: Forest, cut: set<Id>, creation: map<Id, nat>,
                     events: seq<EventRef>, carried: set<Id>)
    requires Resolved(blank, resolved, cut, creation) && AttachedForest(resolved, placed, events, carried)
    requires forall n {:trigger blank.nodes[n]} :: n in blank.nodes ==> blank.nodes[n].nodeId == n
    ensures TreeShaped(placed)
  {
    RestructuredIsTree(blank, resolved, cut, creation);
    SameEdgesTree(resolved, placed);
  }

  // ----- the self-checks -----

  lemma SortedListsGather(slots: map<Home, seq<nat>>, events: seq<EventRef>, carried: set<Id>)
    requires forall h {:trigger slots[h]} :: h in slots ==> slots[h] == Sort(PlacedAt(events, carried, AtNode(h.1)), AtMost())
    ensures Gather(slots) == NodesPlaced(events, carried, slots.Keys)
  {
    forall h | h in slots ensures multiset(slots[h]) == multiset(PlacedAt(events, carried, AtNode(h.1))) {
      SortSorts(PlacedAt(events, carried, AtNode(h.1)), AtMost());
    }
    GatherPlaced(slots, events, carried);
  }

  lemma BuiltSlot(nodes: seq<GraphNode>, events: seq<EventRef>, fs: ForestSet, w: Passes, c: Option<string>, n: Id)
    requires Built(nodes, events, fs, w) && Locates(w.partition, w.blank)
    requires c in fs.forests && n in fs.forests[c].nodes
    ensures fs.forests[c].nodes[n].events == Sort(PlacedAt(events, w.partition.Keys, AtNode(n)), AtMost())
    ensures n in w.partition && w.partition[n] == c && fs.forests[c].nodes[n].nodeId == n
  {
    assert BuiltForest(w.blank[c], fs.forests[c], w.cuts[c], w.creation, events, w.partition.Keys);
    assert n in w.blank[c].nodes;
    BlankIds(nodes, w.blank, c, n);
  }

  lemma BuiltHome(nodes: seq<GraphNode>, events: seq<EventRef>, fs: ForestSet, w: Passes, n: Id)
    requires Built(nodes, events, fs, w) && Locates(w.partition, w.blank) && n in w.partition
    ensures w.partition[n] in fs.forests && n in fs.forests[w.partition[n]].nodes
  {
    var c := w.partition[n];
    assert BuiltForest(w.blank[c], fs.forests[c], w.cuts[c], w.creation, events, w.partition.Keys);
    assert n in w.blank[c].nodes;
  }

  lemma BuiltSlots(nodes: seq<GraphNode>, events: seq<EventRef>, fs: ForestSet, w: Passes)
    requires Built(nodes, events, fs, w)
    ensures forall h {:trigger NodeSlots(fs)[h]} :: h in NodeSlots(fs) ==>
              NodeSlots(fs)[h] == Sort(PlacedAt(events, w.partition.Keys, AtNode(h.1)), AtMost())
    ensures HomesOnce(NodeSlots(fs).Keys, w.partition.Keys)
  {
    PartitionLocates(nodes, w.blank, w.partition, w.creation);
    forall h | h in NodeSlots(fs)
      ensures NodeSlots(fs)[h] == Sort(PlacedAt(events, w.partition.Keys, AtNode(h.1)), AtMost())
      ensures h.1 in w.partition && w.partition[h.1] == h.0
    {
      SlotOf(fs, h);
      BuiltSlot(nodes, events, fs, w, h.0, h.1);
    }
    forall n | n in w.partition ensures exists h :: h in NodeSlots(fs).Keys && h.1 == n {
      BuiltHome(nodes, events, fs, w, n);
      SlotOf(fs, (w.partition[n], n));
      assert (w.partition[n], n).1 == n;
    }
  }

  lemma BuiltIds(nodes: seq<GraphNode>, events: seq<EventRef>, fs: ForestSet, w: Passes)
    requires Built(nodes, events, fs, w)
    ensures IdsAgree(fs) && OneForestEach(fs)
  {
    PartitionLocates(nodes, w.blank, w.partition, w.creation);
    forall c, n | c in fs.forests && n in fs.forests[c].nodes
      ensures n in w.partition && w.partition[n] == c && fs.forests[c].nodes[n].nodeId == n
    {
      BuiltSlot(nodes, events, fs, w, c, n);
    }
  }

  /** Nodes and annex together hold exactly the tape. */
  lemma BuiltHoldsTape(nodes: seq<GraphNode>, events: seq<EventRef>, fs: ForestSet, w: Passes)
    requires Built(nodes, events, fs, w)
    ensures AllSequences(fs) == multiset(SequencesOf(events))
  {
    var carried := w.partition.Keys;
    BuiltSlots(nodes, events, fs, w);
    SortedListsGather(NodeSlots(fs), events, carried);
    SortSorts(PlacedAt(events, carried, NamesNoNode), AtMost());
    SortSorts(PlacedAt(events, carried, NamesAbsentNode), AtMost());
    SortSorts(PlacedAt(events, carried, NoCounterpart), AtMost());
    EveryEventPlacedOnce(events, carried, NodeSlots(fs).Keys);
  }

  lemma BuiltBalances(nodes: seq<GraphNode>, events: seq<EventRef>, fs: ForestSet, w: Passes)
    requires Built(nodes, events, fs, w)
    ensures Balanced(fs, |events|) <==> NoDup(SequencesOf(events))
  {
    BuiltIds(nodes, events, fs, w);
    BuiltHoldsTape(nodes, events, fs, w);
    NoDupIffSingle(SequencesOf(events));
    assert |multiset(SequencesOf(events))| == |events|;
  }

  /** Every sequence in the set, in some order. */
  method ListSequences(fs: ForestSet) returns (all: seq<nat>)
    ensures multiset(all) == AllSequences(fs)
  {
    var slots := NodeSlots(fs);
    var homes := AnyOrder(slots.Keys);
    all := [];
    assert Visited(slots, []) == map[];
    for i := 0 to |homes|
      invariant multiset(all) == Gather(Visited(slots, homes[..i]))
    {
      assert homes[i] in ToSet(homes);
      PrefixGrows(homes, i);
      VisitOneMore(slots, homes[..i], homes[i]);
      all := all + slots[homes[i]];
    }
    assert homes[..|homes|] == homes;
    AllVisited(slots, homes);
    all := all + AnnexedSequences(fs.annex);
  }

  lemma SortedSame(xs: seq<nat>, ys: seq<nat>)
    requires multiset(xs) == multiset(ys)
    ensures Sort(xs, AtMost()) == Sort(ys, AtMost())
  {
    SortSorts(xs, AtMost());
    SortSorts(ys, AtMost());
    SortedUnique(Sort(xs, AtMost()), Sort(ys, AtMost()), AtMost());
  }

  method CheckAccounting(fs: ForestSet, events: seq<EventRef>, ghost nodes: seq<GraphNode>, ghost w: Passes)
    returns (r: Result<(), BuildError>)
    requires Built(nodes, events, fs, w)
    ensures r.Ok? <==> NoDup(SequencesOf(events))
    ensures r.Err? ==> r.error.Imbalanced? && r.error.eventsIn == |events| == r.error.attached + r.error.annexed
  {
    BuiltIds(nodes, events, fs, w);
    BuiltHoldsTape(nodes, events, fs, w);
    BuiltBalances(nodes, events, fs, w);
    r := Balance(fs, |events|);
    assert |AllSequences(fs)| == |Gather(NodeSlots(fs))| + |AnnexedSequences(fs.annex)| == |events|;
    if r.Ok? {
      var accounted := ListSequences(fs);
      SortedSame(accounted, SequencesOf(events));
      if Sort(accounted, AtMost()) != Sort(SequencesOf(events), AtMost()) {
        assert false;
      }
    }
  }

  // ----- build -----

  method RunPasses(nodes: seq<GraphNode>, events: seq<EventRef>, blank: Forests, partition: Partition, creation: map<Id, nat>)
    returns (fs: ForestSet, ghost w: Passes)
    requires Partitioned(nodes, blank) && Indexed(nodes, partition, creation) && NoDup(IdsOf(nodes))
    ensures Built(nodes, events, fs, w)
  {
    PartitionLocates(nodes, blank, partition, creation);
    var resolved, cuts, unusable := ResolveAll(blank, creation);
    ResolvedLocates(nodes, blank, resolved, cuts, partition, creation);
    var placed, annex := PlaceEvents(events, partition, resolved);
    annex := Annex(Sort(annex.namesNoNode, AtMost()), Sort(annex.namesAbsentNode, AtMost()), Sort(annex.noCounterpart, AtMost()));
    forall c | c in placed ensures TreeShaped(placed[c]) {
      assert Resolved(blank[c], resolved[c], cuts[c], creation);
      forall n | n in blank[c].nodes ensures blank[c].nodes[n].nodeId == n {
        BlankIds(nodes, blank, c, n);
      }
      PlacedIsTree(blank[c], resolved[c], placed[c], cuts[c], creation, events, partition.Keys);
    }
    var forests := FinishAll(placed);
    fs := ForestSet(forests, annex, unusable);
    w := Passes(blank, partition, creation, cuts);
    forall c | c in forests ensures BuiltForest(blank[c], forests[c], cuts[c], creation, events, partition.Keys) {
      assert Resolved(blank[c], resolved[c], cuts[c], creation);
      StagesCompose(blank[c], resolved[c], placed[c], forests[c], cuts[c], creation, events, partition.Keys);
    }
  }

  lemma ResolvedLocates(nodes: seq<GraphNode>, blank: Forests, resolved: Forests, cuts: map<Option<string>, set<Id>>,
                        partition: Partition, creation: map<Id, nat>)
    requires Partitioned(nodes, blank) && NoDup(IdsOf(nodes)) && Locates(partition, blank)
    requires ResolvedForests(blank, resolved, cuts, creation) && resolved.Keys == blank.Keys
    ensures Locates(partition, resolved)
    ensures forall c, n {:trigger n in resolved[c].nodes} :: c in resolved && n in resolved[c].nodes ==> resolved[c].nodes[n].events == []
  {
    forall c | c in resolved
      ensures resolved[c].nodes.Keys == blank[c].nodes.Keys
      ensures forall n :: n in resolved[c].nodes ==> resolved[c].nodes[n].events == []
    {
      assert Resolved(blank[c], resolved[c], cuts[c], creation);
      forall n | n in resolved[c].nodes ensures resolved[c].nodes[n].events == [] {
        BlankIds(nodes, blank, c, n);
      }
    }
  }

  // ----- what is built, in the fields of what was given -----

  lemma CarriedIds(nodes: seq<GraphNode>, w: Passes, id: Id)
    requires Indexed(nodes, w.partition, w.creation)
    ensures id in w.partition <==> exists i :: 0 <= i < |nodes| && nodes[i].nodeId == id
  {
    assert id in w.partition <==> id in IdsOf(nodes);
    if i :| 0 <= i < |nodes| && nodes[i].nodeId == id {
      assert IdsOf(nodes)[i] == id;
    }
  }

  lemma BuiltRoutes(nodes: seq<GraphNode>, events: seq<EventRef>, fs: ForestSet, w: Passes)
    requires Built(nodes, events, fs, w)
    ensures EventsRouted(nodes, events, fs)
  {
    var carried := w.partition.Keys;
    PartitionLocates(nodes, w.blank, w.partition, w.creation);
    forall c, n | c in fs.forests && n in fs.forests[c].nodes ensures AttachedAt(events, fs.forests[c].nodes[n].events, n) {
      BuiltSlot(nodes, events, fs, w, c, n);
      SlotRoutes(events, carried, n);
    }
    AnnexRoutes(nodes, events, fs.annex, w);
  }

  lemma AnnexRoutes(nodes: seq<GraphNode>, events: seq<EventRef>, annex: Annex, w: Passes)
    requires Indexed(nodes, w.partition, w.creation)
    requires annex.namesNoNode == Sort(PlacedAt(events, w.partition.Keys, NamesNoNode), AtMost())
    requires annex.namesAbsentNode == Sort(PlacedAt(events, w.partition.Keys, NamesAbsentNode), AtMost())
    requires annex.noCounterpart == Sort(PlacedAt(events, w.partition.Keys, NoCounterpart), AtMost())
    ensures AnnexRouted(nodes, events, annex)
  {
    var carried := w.partition.Keys;
    PlacedAndSorted(events, carried, NamesNoNode);
    PlacedAndSorted(events, carried, NamesAbsentNode);
    PlacedAndSorted(events, carried, NoCounterpart);
    forall e ensures PlaceOf(e, carried) == NamesAbsentNode <==>
      e.counterpartPossible && e.graphNodeId.Some? && forall i :: 0 <= i < |nodes| ==> nodes[i].nodeId != e.graphNodeId.value
    {
      if e.graphNodeId.Some? {
        CarriedIds(nodes, w, e.graphNodeId.value);
      }
    }
  }

  lemma BuiltLists(nodes: seq<GraphNode>, events: seq<EventRef>, fs: ForestSet, w: Passes)
    requires Built(nodes, events, fs, w) && NoDup(SequencesOf(events))
    ensures ListsIncrease(fs)
  {
    var carried, all := w.partition.Keys, AllSequences(fs);
    BuiltHoldsTape(nodes, events, fs, w);
    NoDupIffSingle(SequencesOf(events));
    PartitionLocates(nodes, w.blank, w.partition, w.creation);
    forall c, n | c in fs.forests && n in fs.forests[c].nodes ensures Increasing(fs.forests[c].nodes[n].events) {
      SlotOf(fs, (c, n));
      GatherRemove(NodeSlots(fs), (c, n));
      BuiltSlot(nodes, events, fs, w, c, n);
      SortSorts(PlacedAt(events, carried, AtNode(n)), AtMost());
      SortedIncreases(PlacedAt(events, carried, AtNode(n)), all);
    }
    AnnexIncreases(fs.annex, PlacedAt(events, carried, NoCounterpart), PlacedAt(events, carried, NamesNoNode),
                   PlacedAt(events, carried, NamesAbsentNode), all);
  }

  lemma AnnexIncreases(annex: Annex, without: seq<nat>, nowhere: seq<nat>, absent: seq<nat>, all: multiset<nat>)
    requires NoRepeats(all) && multiset(AnnexedSequences(annex)) <= all
    requires annex == Annex(Sort(nowhere, AtMost()), Sort(absent, AtMost()), Sort(without, AtMost()))
    ensures Increasing(annex.noCounterpart) && Increasing(annex.namesNoNode) && Increasing(annex.namesAbsentNode)
  {
    SortSorts(without, AtMost());
    SortSorts(nowhere, AtMost());
    SortSorts(absent, AtMost());
    SortedIncreases(without, all);
    SortedIncreases(nowhere, all);
    SortedIncreases(absent, all);
  }

  lemma BuiltCounts(nodes: seq<GraphNode>, events: seq<EventRef>, fs: ForestSet, w: Passes)
    requires Built(nodes, events, fs, w) && NoDup(SequencesOf(events))
    ensures SubtreesCounted(fs)
  {
    BuiltLists(nodes, events, fs, w);
    assert NoRepeats(AllSequences(fs)) by {
      BuiltHoldsTape(nodes, events, fs, w);
      NoDupIffSingle(SequencesOf(events));
    }
    forall c | c in fs.forests
      ensures forall n {:trigger fs.forests[c].nodes[n]} :: n in fs.forests[c].nodes ==>
                fs.forests[c].nodes[n].subtreeEvents == |EventsUnder(fs.forests[c], n)|
    {
      assert BuiltForest(w.blank[c], fs.forests[c], w.cuts[c], w.creation, events, w.partition.Keys);
      HeldApart(fs, c);
      SubtreeCounts(fs.forests[c]);
    }
  }

  lemma BuiltCarries(nodes: seq<GraphNode>, events: seq<EventRef>, fs: ForestSet, w: Passes)
    requires Built(nodes, events, fs, w)
    ensures SpansCarried(nodes, fs)
  {
    forall i | 0 <= i < |nodes| ensures Carries(fs, nodes[i]) {
      var g := nodes[i];
      assert HoldsNode(w.blank, g);
      assert BuiltForest(w.blank[g.correlation], fs.forests[g.correlation], w.cuts[g.correlation], w.creation, events, w.partition.Keys);
    }
    forall c, n | c in fs.forests && n in fs.forests[c].nodes ensures Given(nodes, c, n) {
      assert BuiltForest(w.blank[c], fs.forests[c], w.cuts[c], w.creation, events, w.partition.Keys);
    }
    forall c ensures c in fs.forests <==> c == None || exists i :: 0 <= i < |nodes| && nodes[i].correlation == c {
      if i :| 0 <= i < |nodes| && nodes[i].correlation == c {
        assert HoldsNode(w.blank, nodes[i]);
      }
    }
  }

  lemma CreationIs(nodes: seq<GraphNode>, w: Passes, a: Id, b: Id)
    requires Indexed(nodes, w.partition, w.creation) && a in w.partition && b in w.partition && a != b
    requires CreatedBefore(w.creation)(a, b)
    ensures CreatedFirst(nodes, a, b)
  {
    assert a in IdsOf(nodes) && b in IdsOf(nodes);
    var i :| 0 <= i < |nodes| && IdsOf(nodes)[i] == a;
    var j :| 0 <= j < |nodes| && IdsOf(nodes)[j] == b;
    assert nodes[i].nodeId == a && nodes[j].nodeId == b;
  }

  lemma ListCreated(nodes: seq<GraphNode>, w: Passes, ids: seq<Id>, kept: Parents, parent: Option<Id>)
    requires Indexed(nodes, w.partition, w.creation) && kept.Keys <= w.partition.Keys
    requires InCreationOrder(ids, kept, parent, w.creation)
    ensures Created(nodes, ids)
  {
    forall i, j | 0 <= i < j < |ids| ensures CreatedFirst(nodes, ids[i], ids[j]) {
      assert ids[i] in ids && ids[j] in ids;
      CreationIs(nodes, w, ids[i], ids[j]);
    }
  }

  lemma BuiltListed(nodes: seq<GraphNode>, events: seq<EventRef>, fs: ForestSet, w: Passes)
    requires Built(nodes, events, fs, w)
    ensures ListedAsCreated(nodes, fs)
  {
    PartitionLocates(nodes, w.blank, w.partition, w.creation);
    forall c | c in fs.forests
      ensures Created(nodes, fs.forests[c].roots)
      ensures forall n {:trigger fs.forests[c].nodes[n]} :: n in fs.forests[c].nodes ==> Created(nodes, fs.forests[c].nodes[n].children)
    {
      var kept := Kept(ParentMap(w.blank[c]), w.cuts[c]);
      assert BuiltForest(w.blank[c], fs.forests[c], w.cuts[c], w.creation, events, w.partition.Keys);
      assert forall n :: n in kept ==> n in w.blank[c].nodes;
      ListCreated(nodes, w, fs.forests[c].roots, kept, None);
      forall n | n in fs.forests[c].nodes ensures Created(nodes, fs.forests[c].nodes[n].children) {
        ListCreated(nodes, w, fs.forests[c].nodes[n].children, kept, Some(n));
      }
    }
  }

  method Build(nodes: seq<GraphNode>, events: seq<EventRef>) returns (r: Result<ForestSet, BuildError>, ghost w: Passes)
    ensures r.Ok? <==> NoDup(IdsOf(nodes)) && NoDup(SequencesOf(events))
    ensures r.Ok? ==> Built(nodes, events, r.value, w)
    ensures r.Ok? ==> AllSequences(r.value) == multiset(SequencesOf(events)) && Balanced(r.value, |events|)
    ensures r.Ok? ==> EventsRouted(nodes, events, r.value) && ListsIncrease(r.value) && SubtreesCounted(r.value)
    ensures r.Ok? ==> SpansCarried(nodes, r.value) && ListedAsCreated(nodes, r.value)
    ensures r.Err? ==> (r.error.NodePartition? <==> !NoDup(IdsOf(nodes)))
    ensures r.Err? && r.error.NodePartition? ==>
              r.error.forests == 2 && exists i, j :: 0 <= i < j < |nodes| && nodes[i].nodeId == nodes[j].nodeId == r.error.nodeId
    ensures r.Err? && r.error.Imbalanced? ==> r.error.eventsIn == |events| == r.error.attached + r.error.annexed
  {
    w := Passes(map[], map[], map[], map[]);
    var duplicate, blank, partition, creation := PartitionNodes(nodes);
    if duplicate.Some? {
      return Err(NodePartition(duplicate.value, 2)), w;
    }
    var fs;
    fs, w := RunPasses(nodes, events, blank, partition, creation);
    BuiltHoldsTape(nodes, events, fs, w);
    BuiltBalances(nodes, events, fs, w);
    var checked := CheckAccounting(fs, events, nodes, w);
    match checked
    case Ok(_) =>
      BuiltRoutes(nodes, events, fs, w);
      BuiltLists(nodes, events, fs, w);
      BuiltCounts(nodes, events, fs, w);
      BuiltCarries(nodes, events, fs, w);
      BuiltListed(nodes, events, fs, w);
      r := Ok(fs);
    case Err(e) => r := Err(e);
  }

  // ----- what a build promises -----

  /** A correlation is unusable exactly when its parent pointers had a cycle. */
  lemma UnusableExactlyOnCycle(nodes: seq<GraphNode>, events: seq<EventRef>, fs: ForestSet, w: Passes, name: string)
    requires Built(nodes, events, fs, w)
    ensures name in fs.unusable <==> Some(name) in w.blank && exists n :: OnCycle(ParentMap(w.blank[Some(name)]), n)
    ensures name in fs.unusable ==> Reasons(fs.unusable[name], w.cuts[Some(name)])
  {
    var c := Some(name);
    if c in w.blank {
      assert BuiltForest(w.blank[c], fs.forests[c], w.cuts[c], w.creation, events, w.partition.Keys);
      var p := ParentMap(w.blank[c]);
      if n :| OnCycle(p, n) {
        var b :| b in w.cuts[c] && Reaches(p, n, b);
      }
      if w.cuts[c] != {} {
        var b :| b in w.cuts[c];
        assert OnCycle(p, b);
      }
    }
  }

  /** A carried edge survives unless its child is the one cut of a cycle; a dangling parent promotes. */
  lemma EdgesKeptExactly(nodes: seq<GraphNode>, events: seq<EventRef>, fs: ForestSet, w: Passes, c: Option<string>, n: Id)
    requires Built(nodes, events, fs, w) && c in fs.forests && n in fs.forests[c].nodes
    ensures
      var given := w.blank[c].nodes[n].parentId;
      var node := fs.forests[c].nodes[n];
      && (n in w.cuts[c] ==> OnCycle(ParentMap(w.blank[c]), n) && node.parentId == None && !node.promoted)
      && (n !in w.cuts[c] && given.Some? && given.value in fs.forests[c].nodes ==> node.parentId == given && !node.promoted)
      && (given.Some? && given.value !in fs.forests[c].nodes ==> node.parentId == None && node.promoted)
      && (given.None? ==> node.parentId == None && !node.promoted)
  {
    assert BuiltForest(w.blank[c], fs.forests[c], w.cuts[c], w.creation, events, w.partition.Keys);
    var p := ParentMap(w.blank[c]);
    if n in w.cuts[c] {
      CycleNodeHasParent(p, n);
    }
  }

  /** The parent pointers the passes work on are those of the spans. */
  lemma PointersGiven(nodes: seq<GraphNode>, events: seq<EventRef>, fs: ForestSet, w: Passes, i: nat)
    requires Built(nodes, events, fs, w) && i < |nodes|
    ensures
      var g := nodes[i];
      && g.correlation in w.blank && g.nodeId in ParentMap(w.blank[g.correlation])
      && ParentMap(w.blank[g.correlation])[g.nodeId] == g.parentId
  {
    assert HoldsNode(w.blank, nodes[i]);
  }

  /** A span is promoted exactly when no span of its correlation is its parent; one that has its parent keeps
      it unless it is cut. */
  lemma SpanEdges(nodes: seq<GraphNode>, events: seq<EventRef>, fs: ForestSet, w: Passes, i: nat)
    requires Built(nodes, events, fs, w) && i < |nodes| && Carries(fs, nodes[i])
    ensures
      var g := nodes[i];
      var node, with := fs.forests[g.correlation].nodes[g.nodeId], g.parentId.Some? && Given(nodes, g.correlation, g.parentId.value);
      && (node.promoted <==> g.parentId.Some? && !with)
      && node.parentId == if with && g.nodeId !in w.cuts[g.correlation] then g.parentId else None
  {
    var g := nodes[i];
    var c := g.correlation;
    PointersGiven(nodes, events, fs, w, i);
    EdgesKeptExactly(nodes, events, fs, w, c, g.nodeId);
    assert BuiltForest(w.blank[c], fs.forests[c], w.cuts[c], w.creation, events, w.partition.Keys);
    if g.parentId.Some? {
      GivenIs(nodes, w, c, g.parentId.value);
    }
    if g.nodeId in w.cuts[c] {
      CycleNodeHasParent(ParentMap(w.blank[c]), g.nodeId);
    }
  }

  lemma GivenIs(nodes: seq<GraphNode>, w: Passes, c: Option<string>, id: Id)
    requires Partitioned(nodes, w.blank) && c in w.blank
    ensures Given(nodes, c, id) <==> id in w.blank[c].nodes
  {
    if i :| 0 <= i < |nodes| && nodes[i].nodeId == id && nodes[i].correlation == c {
      assert HoldsNode(w.blank, nodes[i]);
    }
  }

  /** The node cut on a cycle is where the walk enters it from the first created of all that lead there. */
  lemma CutFollowsCreation(nodes: seq<GraphNode>, events: seq<EventRef>, fs: ForestSet, w: Passes, c: Option<string>, b: Id) returns (r: Id)
    requires Built(nodes, events, fs, w) && c in fs.forests && b in w.cuts[c]
    ensures
      var p := ParentMap(w.blank[c]);
      r in p && EntersAt(p, r, b) && forall m :: m in p && m != r && Reaches(p, m, b) ==> CreatedFirst(nodes, r, m)
  {
    var p := ParentMap(w.blank[c]);
    assert BuiltForest(w.blank[c], fs.forests[c], w.cuts[c], w.creation, events, w.partition.Keys);
    assert ChosenCut(p, CreatedBefore(w.creation), b);
    r :| EarliestInto(p, CreatedBefore(w.creation), r, b);
    PartitionLocates(nodes, w.blank, w.partition, w.creation);
    forall m | m in p && m != r && Reaches(p, m, b) ensures CreatedFirst(nodes, r, m) {
      assert m in w.blank[c].nodes && r in w.blank[c].nodes;
      CreationIs(nodes, w, r, m);
    }
  }

  lemma CycleNodeHasParent(p: Parents, n: Id)
    requires OnCycle(p, n)
    ensures HasParent(p, n)
  {
    if !HasParent(p, n) {
      TerminalOffCycle(p, n);
    }
  }

  /** Following the built parent pointers from any node ends at exactly one root. */
  lemma OneRootEach(nodes: seq<GraphNode>, events: seq<EventRef>, fs: ForestSet, w: Passes, c: Option<string>, n: Id)
    requires Built(nodes, events, fs, w) && c in fs.forests && n in fs.forests[c].nodes
    ensures exists r :: r in fs.forests[c].roots && Reaches(ParentMap(fs.forests[c]), n, r)
    ensures forall r, s :: (r in fs.forests[c].roots && s in fs.forests[c].roots &&
              Reaches(ParentMap(fs.forests[c]), n, r) && Reaches(ParentMap(fs.forests[c]), n, s)) ==> r == s
  {
    var f := fs.forests[c];
    var kept := Kept(ParentMap(w.blank[c]), w.cuts[c]);
    assert BuiltForest(w.blank[c], f, w.cuts[c], w.creation, events, w.partition.Keys);
    KeptAcyclic(ParentMap(w.blank[c]), w.cuts[c]);
    BuiltParents(w.blank[c], f, kept, Orphans(ParentMap(w.blank[c]), w.cuts[c]), w.creation, events, w.partition.Keys);
    RootOfNode(f, kept, n);
  }

  lemma BuiltParents(blank: Forest, f: Forest, kept: Parents, orphans: set<Id>, creation: map<Id, nat>,
                     events: seq<EventRef>, carried: set<Id>)
    requires BuiltNodes(blank, f, kept, orphans, creation, events, carried)
    ensures ParentMap(f) == kept
    ensures forall r :: r in f.roots <==> r in kept && kept[r] == None
  {
    SameParents(f.nodes, kept);
  }

  lemma RootOfNode(f: Forest, kept: Parents, n: Id)
    requires Acyclic(kept) && n in kept && ParentMap(f) == kept
    requires forall r :: r in f.roots <==> r in kept && kept[r] == None
    requires forall m, q :: m in kept && kept[m] == Some(q) ==> q in kept
    ensures exists r :: r in f.roots && Reaches(kept, n, r)
    ensures forall r, s :: r in f.roots && s in f.roots && Reaches(kept, n, r) && Reaches(kept, n, s) ==> r == s
  {
    ReachesOneRoot(kept, n);
    var r :| RootOf(kept, n, r);
    assert r in f.roots;
    forall s | s in f.roots && Reaches(kept, n, s) ensures s == r {
      assert RootOf(kept, n, s);
    }
  }
}
