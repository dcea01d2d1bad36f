/** What a built set holds, told in the fields of the spans and events it was built from. */
module ForestContents {
  import opened Common
  import opened Sequences
  import opened ForestModel
  import opened ForestTotals
  import opened ForestSets
  import opened EventPlacement

  // ----- events -----

  /** Each event is where it says it happened, unless the other side can never have its counterpart. */
  ghost predicate EventsRouted(nodes: seq<GraphNode>, events: seq<EventRef>, fs: ForestSet) {
    && (forall c, n {:trigger fs.forests[c].nodes[n]} :: c in fs.forests && n in fs.forests[c].nodes ==>
          AttachedAt(events, fs.forests[c].nodes[n].events, n))
    && AnnexRouted(nodes, events, fs.annex)
  }

  ghost predicate AttachedAt(events: seq<EventRef>, list: seq<nat>, n: Id) {
    forall x :: x in list <==> exists e :: e in events && e.globalSequence == x && e.counterpartPossible && e.graphNodeId == Some(n)
  }

  ghost predicate AnnexRouted(nodes: seq<GraphNode>, events: seq<EventRef>, annex: Annex) {
    && (forall x :: x in annex.noCounterpart <==> exists e :: e in events && e.globalSequence == x && !e.counterpartPossible)
    && (forall x :: x in annex.namesNoNode <==>
          exists e :: e in events && e.globalSequence == x && e.counterpartPossible && e.graphNodeId == None)
    && (forall x :: x in annex.namesAbsentNode <==>
          exists e :: e in events && e.globalSequence == x && e.counterpartPossible && e.graphNodeId.Some?
                      && forall i :: 0 <= i < |nodes| ==> nodes[i].nodeId != e.graphNodeId.value)
  }

  ghost predicate Increasing(xs: seq<nat>) {
    forall i, j :: 0 <= i < j < |xs| ==> xs[i] < xs[j]
  }

  ghost predicate ListsIncrease(fs: ForestSet) {
    && (forall c, n {:trigger fs.forests[c].nodes[n]} :: c in fs.forests && n in fs.forests[c].nodes ==> Increasing(fs.forests[c].nodes[n].events))
    && Increasing(fs.annex.noCounterpart) && Increasing(fs.annex.namesNoNode) && Increasing(fs.annex.namesAbsentNode)
  }

  lemma PlacedAndSorted(events: seq<EventRef>, carried: set<Id>, slot: Slot)
    ensures forall x :: x in Sort(PlacedAt(events, carried, slot), AtMost()) <==>
              exists e :: e in events && PlaceOf(e, carried) == slot && e.globalSequence == x
  {
    var placed := PlacedAt(events, carried, slot);
    SortSorts(placed, AtMost());
    forall x ensures x in Sort(placed, AtMost()) <==> exists e :: e in events && PlaceOf(e, carried) == slot && e.globalSequence == x {
      assert x in multiset(Sort(placed, AtMost())) <==> x in multiset(placed);
      PlacedAtHas(events, carried, slot, x);
    }
  }

  lemma SlotRoutes(events: seq<EventRef>, carried: set<Id>, n: Id)
    requires n in carried
    ensures AttachedAt(events, Sort(PlacedAt(events, carried, AtNode(n)), AtMost()), n)
  {
    PlacedAndSorted(events, carried, AtNode(n));
    assert forall e :: PlaceOf(e, carried) == AtNode(n) <==> e.counterpartPossible && e.graphNodeId == Some(n);
  }

  /** A list whose elements are met once each in `m`, sorted, increases. */
  lemma SortedIncreases(xs: seq<nat>, m: multiset<nat>)
    requires NoRepeats(m) && multiset(xs) <= m
    ensures Increasing(Sort(xs, AtMost()))
  {
    var ys := Sort(xs, AtMost());
    SortSorts(xs, AtMost());
    forall i, j | 0 <= i < j < |ys| ensures ys[i] < ys[j] {
      assert AtMost()(ys[i], ys[j]);
      if ys[i] == ys[j] {
        TwiceCounted(ys, i, j);
      }
    }
  }

  ghost predicate SubtreesCounted(fs: ForestSet) {
    forall c, n {:trigger fs.forests[c].nodes[n]} :: c in fs.forests && n in fs.forests[c].nodes ==>
      fs.forests[c].nodes[n].subtreeEvents == |EventsUnder(fs.forests[c], n)|
  }

  lemma SharedTwice(fs: ForestSet, g: Home, h: Home, x: nat)
    requires g in NodeSlots(fs) && h in NodeSlots(fs) && g != h && x in NodeSlots(fs)[g] && x in NodeSlots(fs)[h]
    ensures AllSequences(fs)[x] >= 2
  {
    var slots := NodeSlots(fs);
    GatherRemove(slots, g);
    GatherRemove(slots - {g}, h);
    assert (slots - {g})[h] == slots[h] && x in multiset(slots[g]) && x in multiset(slots[h]);
  }

  lemma HeldApart(fs: ForestSet, c: Option<string>)
    requires ListsIncrease(fs) && NoRepeats(AllSequences(fs)) && c in fs.forests
    ensures EventsApart(fs.forests[c])
  {
    var f := fs.forests[c];
    forall n | n in f.nodes ensures NoDup(f.nodes[n].events) {
      assert Increasing(fs.forests[c].nodes[n].events);
    }
    forall m, n, x | m in f.nodes && n in f.nodes && x in f.nodes[m].events && x in f.nodes[n].events ensures m == n {
      if m != n {
        SlotOf(fs, (c, m));
        SlotOf(fs, (c, n));
        SharedTwice(fs, (c, m), (c, n), x);
      }
    }
  }

  // ----- spans -----

  /** The forests hold the spans given, under their own ids and names, and nothing else. */
  ghost predicate SpansCarried(nodes: seq<GraphNode>, fs: ForestSet) {
    && (forall c :: c in fs.forests <==> c == None || exists i :: 0 <= i < |nodes| && nodes[i].correlation == c)
    && (forall i :: 0 <= i < |nodes| ==> Carries(fs, nodes[i]))
    && (forall c, n {:trigger n in fs.forests[c].nodes} :: c in fs.forests && n in fs.forests[c].nodes ==>
          Given(nodes, c, n))
  }

  /** Some span of correlation `c` has this id. */
  ghost predicate Given(nodes: seq<GraphNode>, c: Option<string>, id: Id) {
    exists i :: 0 <= i < |nodes| && nodes[i].nodeId == id && nodes[i].correlation == c
  }

  ghost predicate Carries(fs: ForestSet, g: GraphNode) {
    && g.correlation in fs.forests && fs.forests[g.correlation].correlation == g.correlation
    && g.nodeId in fs.forests[g.correlation].nodes
    && fs.forests[g.correlation].nodes[g.nodeId].nodeId == g.nodeId
    && fs.forests[g.correlation].nodes[g.nodeId].spanName == g.spanName
  }

  /** `a` was created before `b`: by its sequence, or on a tie by its id. */
  ghost predicate CreatedFirst(nodes: seq<GraphNode>, a: Id, b: Id) {
    exists i, j :: 0 <= i < |nodes| && 0 <= j < |nodes| && nodes[i].nodeId == a && nodes[j].nodeId == b &&
      (nodes[i].sequence < nodes[j].sequence || (nodes[i].sequence == nodes[j].sequence && a.number < b.number))
  }

  ghost predicate Created(nodes: seq<GraphNode>, ids: seq<Id>) {
    forall i, j :: 0 <= i < j < |ids| ==> CreatedFirst(nodes, ids[i], ids[j])
  }

  /** Roots and children are listed as they were created. */
  ghost predicate ListedAsCreated(nodes: seq<GraphNode>, fs: ForestSet) {
    forall c {:trigger fs.forests[c]} :: c in fs.forests ==>
      && Created(nodes, fs.forests[c].roots)
      && forall n {:trigger fs.forests[c].nodes[n]} :: n in fs.forests[c].nodes ==> Created(nodes, fs.forests[c].nodes[n].children)
  }
}
