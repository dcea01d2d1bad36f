/** `build`'s event pass: one walk over the tape, then each list put in sequence order. */
module EventAttachment {
  import opened Common
  import opened ForestModel
  import opened ForestSets
  import opened EventPlacement

  type Forests = map<Option<string>, Forest>
  type Partition = map<Id, Option<string>>

  /** The partition says which forest each node is in, and knows every node. */
  ghost predicate Locates(partition: Partition, forests: Forests) {
    && (forall n {:trigger partition[n]} :: n in partition ==> partition[n] in forests && n in forests[partition[n]].nodes)
    && (forall c, n {:trigger n in forests[c].nodes} :: c in forests && n in forests[c].nodes ==> n in partition && partition[n] == c)
  }

  /** `f` is `r` with the events placed at each of its nodes, and nothing else changed. */
  ghost predicate AttachedForest(r: Forest, f: Forest, events: seq<EventRef>, carried: set<Id>) {
    && f.correlation == r.correlation && f.roots == r.roots && f.nodes.Keys == r.nodes.Keys
    && forall n {:trigger f.nodes[n]} :: n in f.nodes ==>
         f.nodes[n] == r.nodes[n].(events := PlacedAt(events, carried, AtNode(n)))
  }

  ghost predicate Attached(resolved: Forests, forests: Forests, events: seq<EventRef>, carried: set<Id>) {
    && forests.Keys == resolved.Keys
    && forall c {:trigger forests[c]} :: c in forests ==> AttachedForest(resolved[c], forests[c], events, carried)
  }

  ghost predicate AnnexHolds(annex: Annex, events: seq<EventRef>, carried: set<Id>) {
    && annex.namesNoNode == PlacedAt(events, carried, NamesNoNode)
    && annex.namesAbsentNode == PlacedAt(events, carried, NamesAbsentNode)
    && annex.noCounterpart == PlacedAt(events, carried, NoCounterpart)
  }

  lemma ElsewhereSame(r: Forest, f: Forest, events: seq<EventRef>, e: EventRef, carried: set<Id>)
    requires AttachedForest(r, f, events, carried)
    requires forall n :: n in f.nodes ==> PlaceOf(e, carried) != AtNode(n)
    ensures AttachedForest(r, f, events + [e], carried)
  {
    forall n | n in f.nodes ensures f.nodes[n] == r.nodes[n].(events := PlacedAt(events + [e], carried, AtNode(n))) {
      PlacedMore(events, e, carried, AtNode(n));
    }
  }

  lemma HereMore(r: Forest, f: Forest, events: seq<EventRef>, e: EventRef, carried: set<Id>, n: Id, f': Forest)
    requires AttachedForest(r, f, events, carried) && n in f.nodes && PlaceOf(e, carried) == AtNode(n)
    requires f' == f.(nodes := f.nodes[n := f.nodes[n].(events := f.nodes[n].events + [e.globalSequence])])
    ensures AttachedForest(r, f', events + [e], carried)
  {
    forall m | m in f'.nodes ensures f'.nodes[m] == r.nodes[m].(events := PlacedAt(events + [e], carried, AtNode(m))) {
      PlacedMore(events, e, carried, AtNode(m));
      assert f.nodes[m] == r.nodes[m].(events := PlacedAt(events, carried, AtNode(m)));
    }
  }

  lemma OthersSame(resolved: Forests, forests: Forests, partition: Partition, events: seq<EventRef>, e: EventRef, d: Option<string>)
    requires Attached(resolved, forests, events, partition.Keys) && Locates(partition, resolved)
    requires e.graphNodeId.Some? && e.graphNodeId.value in partition && d in forests && d != partition[e.graphNodeId.value]
    ensures AttachedForest(resolved[d], forests[d], events + [e], partition.Keys)
  {
    assert e.graphNodeId.value !in resolved[d].nodes;
    ElsewhereSame(resolved[d], forests[d], events, e, partition.Keys);
  }

  function AppendEvent(f: Forest, n: Id, sequence: nat): Forest
    requires n in f.nodes
  {
    f.(nodes := f.nodes[n := f.nodes[n].(events := f.nodes[n].events + [sequence])])
  }

  lemma AttachMore(resolved: Forests, forests: Forests, partition: Partition, events: seq<EventRef>, e: EventRef, n: Id, forests': Forests)
    requires Attached(resolved, forests, events, partition.Keys) && Locates(partition, resolved)
    requires PlaceOf(e, partition.Keys) == AtNode(n)
    requires
      var c := partition[n];
      c in forests && n in forests[c].nodes && forests' == forests[c := AppendEvent(forests[c], n, e.globalSequence)]
    ensures Attached(resolved, forests', events + [e], partition.Keys)
  {
    var c := partition[n];
    HereMore(resolved[c], forests[c], events, e, partition.Keys, n, forests'[c]);
    forall d | d in forests' && d != c ensures AttachedForest(resolved[d], forests'[d], events + [e], partition.Keys) {
      OthersSame(resolved, forests, partition, events, e, d);
    }
  }

  lemma HomeExists(resolved: Forests, forests: Forests, partition: Partition, events: seq<EventRef>, n: Id)
    requires Attached(resolved, forests, events, partition.Keys) && Locates(partition, resolved) && n in partition
    ensures partition[n] in forests && n in forests[partition[n]].nodes
  {
  }

  lemma AnnexMore(resolved: Forests, forests: Forests, events: seq<EventRef>, e: EventRef, carried: set<Id>, annex: Annex, annex': Annex)
    requires Attached(resolved, forests, events, carried) && AnnexHolds(annex, events, carried)
    requires match PlaceOf(e, carried)
             case NoCounterpart => annex' == annex.(noCounterpart := annex.noCounterpart + [e.globalSequence])
             case NamesNoNode => annex' == annex.(namesNoNode := annex.namesNoNode + [e.globalSequence])
             case NamesAbsentNode => annex' == annex.(namesAbsentNode := annex.namesAbsentNode + [e.globalSequence])
             case AtNode(_) => annex' == annex
    ensures AnnexHolds(annex', events + [e], carried)
    ensures !PlaceOf(e, carried).AtNode? ==> Attached(resolved, forests, events + [e], carried)
  {
    PlacedMore(events, e, carried, NamesNoNode);
    PlacedMore(events, e, carried, NamesAbsentNode);
    PlacedMore(events, e, carried, NoCounterpart);
    if !PlaceOf(e, carried).AtNode? {
      forall c | c in forests ensures AttachedForest(resolved[c], forests[c], events + [e], carried) {
        ElsewhereSame(resolved[c], forests[c], events, e, carried);
      }
    }
  }

  method PlaceEvents(events: seq<EventRef>, partition: Partition, resolved: Forests)
    returns (forests: Forests, annex: Annex)
    requires Locates(partition, resolved)
    requires forall c, n {:trigger n in resolved[c].nodes} :: c in resolved && n in resolved[c].nodes ==> resolved[c].nodes[n].events == []
    ensures Attached(resolved, forests, events, partition.Keys) && AnnexHolds(annex, events, partition.Keys)
  {
    forests, annex := resolved, Annex([], [], []);
    for i := 0 to |events|
      invariant Attached(resolved, forests, events[..i], partition.Keys)
      invariant AnnexHolds(annex, events[..i], partition.Keys)
    {
      var e := events[i];
      ghost var had, hadAnnex := forests, annex;
      assert events[..i + 1] == events[..i] + [e];
      if !e.counterpartPossible {
        annex := annex.(noCounterpart := annex.noCounterpart + [e.globalSequence]);
      } else {
        match e.graphNodeId
        case None => annex := annex.(namesNoNode := annex.namesNoNode + [e.globalSequence]);
        case Some(n) =>
          if n !in partition {
            annex := annex.(namesAbsentNode := annex.namesAbsentNode + [e.globalSequence]);
          } else {
            HomeExists(resolved, forests, partition, events[..i], n);
            var f := forests[partition[n]];
            var node := f.nodes[n].(events := f.nodes[n].events + [e.globalSequence]);
            forests := forests[partition[n] := f.(nodes := f.nodes[n := node])];
            AttachMore(resolved, had, partition, events[..i], e, n, forests);
          }
      }
      AnnexMore(resolved, had, events[..i], e, partition.Keys, hadAnnex, annex);
    }
    assert events[..|events|] == events;
  }
}
