/** Where `build` puts each event: on the node it names, or in the annex bucket for its cause. */
module EventPlacement {
  import opened Common
  import opened ForestSets

  datatype EventRef = EventRef(globalSequence: nat, graphNodeId: Option<Id>, counterpartPossible: bool)

  datatype Slot = AtNode(node: Id) | NamesNoNode | NamesAbsentNode | NoCounterpart

  /** The first question is whether the other side can ever match the event; only then where it is. */
  function PlaceOf(e: EventRef, carried: set<Id>): Slot {
    if !e.counterpartPossible then NoCounterpart
    else match e.graphNodeId
      case None => NamesNoNode
      case Some(n) => if n in carried then AtNode(n) else NamesAbsentNode
  }

  function SequencesOf(events: seq<EventRef>): seq<nat> {
    seq(|events|, i requires 0 <= i < |events| => events[i].globalSequence)
  }

  /** The sequences of the events placed at `slot`, in tape order. */
  function PlacedAt(events: seq<EventRef>, carried: set<Id>, slot: Slot): seq<nat> {
    if events == [] then []
    else
      var e := events[|events| - 1];
      PlacedAt(events[..|events| - 1], carried, slot) + if PlaceOf(e, carried) == slot then [e.globalSequence] else []
  }

  lemma {:induction false} PlacedAtHas(events: seq<EventRef>, carried: set<Id>, slot: Slot, x: nat)
    ensures x in PlacedAt(events, carried, slot) <==> exists e :: e in events && PlaceOf(e, carried) == slot && e.globalSequence == x
  {
    if events != [] {
      var init, last := events[..|events| - 1], events[|events| - 1];
      assert events == init + [last];
      PlacedAtHas(init, carried, slot, x);
    }
  }

  function AtMost(): (nat, nat) -> bool {
    (a, b) => a <= b
  }

  ghost function AnnexPlaced(events: seq<EventRef>, carried: set<Id>): multiset<nat> {
    multiset(PlacedAt(events, carried, NamesNoNode)) + multiset(PlacedAt(events, carried, NamesAbsentNode))
      + multiset(PlacedAt(events, carried, NoCounterpart))
  }

  /** Everything placed on the nodes of `homes`, each carried node having one home. */
  ghost function NodesPlaced(events: seq<EventRef>, carried: set<Id>, homes: set<Home>): multiset<nat> {
    if homes == {} then multiset{}
    else var h :| h in homes; multiset(PlacedAt(events, carried, AtNode(h.1))) + NodesPlaced(events, carried, homes - {h})
  }

  ghost predicate HomesOnce(homes: set<Home>, carried: set<Id>) {
    && (forall h :: h in homes ==> h.1 in carried)
    && (forall h, g :: h in homes && g in homes && h.1 == g.1 ==> h == g)
    && (forall n :: n in carried ==> exists h :: h in homes && h.1 == n)
  }

  lemma {:induction false} NodesPlacedRemove(events: seq<EventRef>, carried: set<Id>, homes: set<Home>, h: Home)
    requires h in homes
    ensures NodesPlaced(events, carried, homes) ==
            multiset(PlacedAt(events, carried, AtNode(h.1))) + NodesPlaced(events, carried, homes - {h})
    decreases |homes|
  {
    var g :| g in homes && NodesPlaced(events, carried, homes) ==
                           multiset(PlacedAt(events, carried, AtNode(g.1))) + NodesPlaced(events, carried, homes - {g});
    if g != h {
      NodesPlacedRemove(events, carried, homes - {g}, h);
      NodesPlacedRemove(events, carried, homes - {h}, g);
      assert homes - {g} - {h} == homes - {h} - {g};
    }
  }

  lemma PlacedMore(events: seq<EventRef>, e: EventRef, carried: set<Id>, slot: Slot)
    ensures PlacedAt(events + [e], carried, slot) ==
            PlacedAt(events, carried, slot) + if PlaceOf(e, carried) == slot then [e.globalSequence] else []
  {
    assert (events + [e])[..|events|] == events;
  }

  lemma {:induction false} NodesKeep(events: seq<EventRef>, e: EventRef, carried: set<Id>, homes: set<Home>)
    requires forall h :: h in homes ==> PlaceOf(e, carried) != AtNode(h.1)
    ensures NodesPlaced(events + [e], carried, homes) == NodesPlaced(events, carried, homes)
    decreases |homes|
  {
    if homes != {} {
      var h :| h in homes;
      NodesPlacedRemove(events, carried, homes, h);
      NodesPlacedRemove(events + [e], carried, homes, h);
      NodesKeep(events, e, carried, homes - {h});
      PlacedMore(events, e, carried, AtNode(h.1));
    }
  }

  lemma NodeGains(events: seq<EventRef>, e: EventRef, carried: set<Id>, homes: set<Home>)
    requires HomesOnce(homes, carried)
    ensures NodesPlaced(events + [e], carried, homes) ==
            NodesPlaced(events, carried, homes) + if PlaceOf(e, carried).AtNode? then multiset{e.globalSequence} else multiset{}
  {
    if PlaceOf(e, carried).AtNode? {
      var h :| h in homes && h.1 == PlaceOf(e, carried).node;
      NodesPlacedRemove(events, carried, homes, h);
      NodesPlacedRemove(events + [e], carried, homes, h);
      NodesKeep(events, e, carried, homes - {h});
      PlacedMore(events, e, carried, AtNode(h.1));
    } else {
      NodesKeep(events, e, carried, homes);
    }
  }

  lemma {:induction false} NothingPlaced(carried: set<Id>, homes: set<Home>)
    ensures NodesPlaced([], carried, homes) == multiset{}
    decreases |homes|
  {
    if homes != {} {
      var h :| h in homes;
      NodesPlacedRemove([], carried, homes, h);
      NothingPlaced(carried, homes - {h});
    }
  }

  lemma AnnexGains(events: seq<EventRef>, e: EventRef, carried: set<Id>)
    ensures AnnexPlaced(events + [e], carried) ==
            AnnexPlaced(events, carried) + if PlaceOf(e, carried).AtNode? then multiset{} else multiset{e.globalSequence}
  {
    PlacedMore(events, e, carried, NamesNoNode);
    PlacedMore(events, e, carried, NamesAbsentNode);
    PlacedMore(events, e, carried, NoCounterpart);
  }

  lemma OneEventMore(events: seq<EventRef>, e: EventRef, carried: set<Id>, homes: set<Home>)
    requires HomesOnce(homes, carried)
    ensures NodesPlaced(events + [e], carried, homes) + AnnexPlaced(events + [e], carried) ==
            NodesPlaced(events, carried, homes) + AnnexPlaced(events, carried) + multiset{e.globalSequence}
  {
    NodeGains(events, e, carried, homes);
    AnnexGains(events, e, carried);
  }

  /** Every event is in exactly one place: nodes and annex together hold the tape's sequences. */
  lemma {:induction false} EveryEventPlacedOnce(events: seq<EventRef>, carried: set<Id>, homes: set<Home>)
    requires HomesOnce(homes, carried)
    ensures NodesPlaced(events, carried, homes) + AnnexPlaced(events, carried) == multiset(SequencesOf(events))
  {
    if events == [] {
      NothingPlaced(carried, homes);
      assert SequencesOf(events) == [];
    } else {
      var init, e := events[..|events| - 1], events[|events| - 1];
      assert events == init + [e];
      EveryEventPlacedOnce(init, carried, homes);
      OneEventMore(init, e, carried, homes);
      assert SequencesOf(events) == SequencesOf(init) + [e.globalSequence];
    }
  }

  /** Slots holding what was placed, in any order, gather to it. */
  lemma {:induction false} GatherPlaced(slots: map<Home, seq<nat>>, events: seq<EventRef>, carried: set<Id>)
    requires forall h :: h in slots ==> multiset(slots[h]) == multiset(PlacedAt(events, carried, AtNode(h.1)))
    ensures Gather(slots) == NodesPlaced(events, carried, slots.Keys)
    decreases |slots|
  {
    if slots != map[] {
      assert slots.Keys != {};
      var h :| h in slots;
      assert (slots - {h}).Keys == slots.Keys - {h};
      GatherRemove(slots, h);
      GatherPlaced(slots - {h}, events, carried);
      NodesPlacedRemove(events, carried, slots.Keys, h);
    }
  }
}
