/** `align` itself: skeleton pruning, the cycle guard, and the walk from the roots. */
module AlignForests {
  import opened Common
  import opened Sequences
  import opened ForestModel
  import opened ForestSets
  import opened BearingCycle
  import opened AlignmentSpec
  import opened AlignmentTree
  import opened AlignmentBalance
  import opened AlignmentRun
  import opened Alignments
  import opened RenameShapes
  import opened AddressJoin

  function EventLists(f: Forest): map<Id, seq<nat>> {
    map n | n in f.nodes :: f.nodes[n].events
  }

  /** The lists not yet taken, and what they hold together. */
  ghost function Untaken(lists: map<Id, seq<nat>>, order: seq<Id>, i: nat): multiset<nat>
    requires i <= |order|
  {
    Gather(lists - ToSet(order[..i]))
  }

  lemma TakeNext(lists: map<Id, seq<nat>>, order: seq<Id>, i: nat)
    requires i < |order| && NoDup(order) && ToSet(order) == lists.Keys
    ensures order[i] in lists
    ensures Untaken(lists, order, i) == multiset(lists[order[i]]) + Untaken(lists, order, i + 1)
  {
    PrefixGrows(order, i);
    assert order[i] in ToSet(order);
    GatherRemove(lists - ToSet(order[..i]), order[i]);
    assert lists - ToSet(order[..i]) - {order[i]} == lists - ToSet(order[..i + 1]);
  }

  lemma TakeAll(lists: map<Id, seq<nat>>, order: seq<Id>)
    requires ToSet(order) == lists.Keys
    ensures Untaken(lists, order, 0) == Gather(lists) && Untaken(lists, order, |order|) == multiset{}
  {
    assert lists - ToSet(order[..0]) == lists;
    assert order[..|order|] == order;
    assert lists - ToSet(order) == map[];
  }

  ghost predicate Attaches(f: Forest, x: nat) {
    exists n :: n in f.nodes && x in f.nodes[n].events
  }

  lemma ListsAttach(f: Forest, x: nat)
    ensures x in Gather(EventLists(f)) <==> Attaches(f, x)
  {
    GatherHas(EventLists(f), x);
    if n :| n in f.nodes && x in f.nodes[n].events {
      assert n in EventLists(f) && EventLists(f)[n] == f.nodes[n].events;
    }
  }

  lemma AllAttached(record: Forest, replay: Forest, events: seq<nat>)
    requires multiset(events) == Gather(EventLists(record)) + Gather(EventLists(replay))
    ensures forall x :: x in events <==> Attaches(record, x) || Attaches(replay, x)
  {
    forall x ensures x in events <==> Attaches(record, x) || Attaches(replay, x) {
      assert x in events <==> x in multiset(events);
      ListsAttach(record, x);
      ListsAttach(replay, x);
    }
  }

  /** Every event of the forest, in no particular order. */
  method BoundaryEvents(f: Forest) returns (events: seq<nat>)
    ensures multiset(events) == Gather(EventLists(f))
  {
    ghost var lists := EventLists(f);
    var order := AnyOrder(f.nodes.Keys);
    events := [];
    TakeAll(lists, order);
    for i := 0 to |order|
      invariant multiset(events) + Untaken(lists, order, i) == Gather(lists)
    {
      TakeNext(lists, order, i);
      events := events + f.nodes[order[i]].events;
    }
  }

  /** The event-bearing part of the forest has no cycle, by child lists or by parent pointers. */
  ghost predicate Walked(f: Forest) {
    (exists rank :: RisesAlongChildren(f, rank)) && (exists rank :: RisesAlongParents(f, rank))
  }

  function BearingRoots(f: Forest): seq<Id> {
    EventBearing(f, f.roots)
  }

  ghost function RootsOutput(record: Forest, replay: Forest, down: map<Id, nat>): Output
    requires Falling(record, down)
  {
    EventBearingIs(record, record.roots);
    EventBearingIs(replay, replay.roots);
    SiblingOutput(Sides(record, replay, down), BearingRoots(record), BearingRoots(replay))
  }

  /** A row of the address join of two whole forests. */
  ghost predicate JoinRow(record: Forest, replay: Forest, row: AlignedNode) {
    exists address: Address :: address != [] && RowAt(record, replay, BearingRoots(record), BearingRoots(replay), address) == Some(row)
  }

  /** The walk of two whole forests from nothing. */
  ghost function RootsRun(record: Forest, replay: Forest, down: map<Id, nat>): Progress
    requires Falling(record, down)
  {
    EventBearingIs(record, record.roots);
    EventBearingIs(replay, replay.roots);
    SiblingRun(Sides(record, replay, down), BearingRoots(record), BearingRoots(replay), Progress([], [], [], {}))
  }

  /** The alignment is what the walk of these forests leaves. */
  ghost predicate RunsTo(record: Forest, replay: Forest, nodes: seq<AlignedNode>, renames: seq<(Id, Id)>, flat: seq<nat>) {
    exists down :: Falling(record, down) &&
      var run := RootsRun(record, replay, down); run.nodes == nodes && run.renames == renames && run.flat == flat
  }

  /** The alignment is exactly the output of the two forests. */
  ghost predicate GivesOutput(record: Forest, replay: Forest, nodes: seq<AlignedNode>, renames: seq<(Id, Id)>) {
    exists down :: Falling(record, down) && RootsOutput(record, replay, down) == Output(nodes, renames)
  }

  /** Suspected renames are unmatched siblings that are alike, and no two such siblings are both passed over. */
  ghost predicate RenamesAre(record: Forest, replay: Forest, renames: seq<(Id, Id)>) {
    && (forall q :: q in renames ==> UnmatchedSiblings(record, replay, BearingRoots(record), BearingRoots(replay), q.0, q.1))
    && (forall r, p :: UnmatchedSiblings(record, replay, BearingRoots(record), BearingRoots(replay), r, p) && Alike(record, r, replay, p) ==>
          Suspected(renames, r, p))
  }

  lemma OutputRenames(record: Forest, replay: Forest, down: map<Id, nat>)
    requires Falling(record, down)
    ensures RenamesAre(record, replay, RootsOutput(record, replay, down).renames)
  {
    var s := Sides(record, replay, down);
    EventBearingIs(record, record.roots);
    EventBearingIs(replay, replay.roots);
    forall q | q in RootsOutput(record, replay, down).renames
      ensures UnmatchedSiblings(record, replay, BearingRoots(record), BearingRoots(replay), q.0, q.1)
    {
      SuspectedUnmatched(s, BearingRoots(record), BearingRoots(replay), q);
    }
    forall r, p | UnmatchedSiblings(record, replay, BearingRoots(record), BearingRoots(replay), r, p) && Alike(record, r, replay, p)
      ensures Suspected(RootsOutput(record, replay, down).renames, r, p)
    {
      var at: Address, x, y :| Unmatched(record, replay, BearingRoots(record), BearingRoots(replay), at + [x], at + [y], r, p);
      UnmatchedSuspected(s, BearingRoots(record), BearingRoots(replay), at, x, y, r, p);
    }
  }

  /** On a tree the walk meets no pair twice: it comes to the output, and its rows are the join. */
  lemma TreeRun(record: Forest, replay: Forest, down: map<Id, nat>)
    requires Falling(record, down) && TreeShaped(record)
    ensures
      var run := RootsRun(record, replay, down);
      && run.flat == [] && RootsOutput(record, replay, down) == Output(run.nodes, run.renames)
      && forall row :: row in run.nodes <==> JoinRow(record, replay, row)
  {
    var s := Sides(record, replay, down);
    EventBearingIs(record, record.roots);
    EventBearingIs(replay, replay.roots);
    RootsSpread(record, down);
    SiblingsAdvance(s, BearingRoots(record), BearingRoots(replay), Progress([], [], [], {}));
    forall row ensures row in RootsOutput(record, replay, down).rows <==> JoinRow(record, replay, row) {
      RowsAreTheJoin(s, BearingRoots(record), BearingRoots(replay), row);
    }
  }

  /** On any forest that is walked: pairs are matched once, the flat tier is made of pairs met again, and suspected
      renames are alike. */
  lemma RunLaws(record: Forest, replay: Forest, down: map<Id, nat>)
    requires Falling(record, down)
    ensures
      var run := RootsRun(record, replay, down);
      AllAlike(record, replay, run.renames) && MatchedOnce(run.nodes) && FlatAgain(record, replay, run.nodes, run.flat)
  {
    var s := Sides(record, replay, down);
    EventBearingIs(record, record.roots);
    EventBearingIs(replay, replay.roots);
    assert MetAgain(record, replay, [], [], []);
    RunTidy(s, BearingRoots(record), BearingRoots(replay), Progress([], [], [], {}));
    RunAlike(s, BearingRoots(record), BearingRoots(replay), Progress([], [], [], {}));
  }

  method AlignRoots(record: Forest, replay: Forest, ghost down: map<Id, nat>) returns (alignment: Alignment)
    requires Falling(record, down)
    ensures fresh(alignment)
    ensures var run := RootsRun(record, replay, down);
            alignment.nodes == run.nodes && alignment.suspectedRenames == run.renames && alignment.flatTierEvents == run.flat
  {
    alignment := new Alignment();
    EventBearingIs(record, record.roots);
    EventBearingIs(replay, replay.roots);
    var seen := AlignSiblings(Sides(record, replay, down), BearingRoots(record), BearingRoots(replay), {}, alignment);
  }

  /** `align`: a cyclic side sends everything to the flat tier; otherwise the forests are walked, and on a tree the
      rows are the address join. */
  method Align(record: Forest, replay: Forest) returns (alignment: Alignment)
    ensures fresh(alignment)
    ensures !(Walked(record) && Walked(replay)) ==>
              && alignment.nodes == [] && alignment.suspectedRenames == []
              && multiset(alignment.flatTierEvents) == Gather(EventLists(record)) + Gather(EventLists(replay))
              && forall x :: x in alignment.flatTierEvents <==> Attaches(record, x) || Attaches(replay, x)
    ensures Walked(record) && Walked(replay) ==>
              RunsTo(record, replay, alignment.nodes, alignment.suspectedRenames, alignment.flatTierEvents)
    ensures Walked(record) && Walked(replay) && TreeShaped(record) ==>
              && alignment.flatTierEvents == []
              && GivesOutput(record, replay, alignment.nodes, alignment.suspectedRenames)
              && (forall row :: row in alignment.nodes <==> JoinRow(record, replay, row))
              && RenamesAre(record, replay, alignment.suspectedRenames)
    ensures AllAlike(record, replay, alignment.suspectedRenames) && MatchedOnce(alignment.nodes)
    ensures Walked(record) && Walked(replay) ==> FlatAgain(record, replay, alignment.nodes, alignment.flatTierEvents)
  {
    var cyclic := HasEventBearingCycle(record);
    if !cyclic {
      cyclic := HasEventBearingCycle(replay);
    }
    if cyclic {
      alignment := new Alignment();
      var mine := BoundaryEvents(record);
      var theirs := BoundaryEvents(replay);
      alignment.flatTierEvents := mine + theirs;
      AllAttached(record, replay, mine + theirs);
      return;
    }
    ghost var rank :| RisesAlongChildren(record, rank);
    ghost var down := TurnOver(record, rank);
    alignment := AlignRoots(record, replay, down);
    RunLaws(record, replay, down);
    if TreeShaped(record) {
      TreeRun(record, replay, down);
      OutputRenames(record, replay, down);
    }
  }
}
