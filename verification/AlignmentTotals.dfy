/** What an alignment of two built forests adds up to. */
module AlignmentTotals {
  import opened Common
  import opened Sequences
  import opened ForestModel
  import opened ForestRollup
  import opened ForestSets
  import opened EventPlacement
  import opened ForestBuild
  import opened BearingCycle
  import opened AlignmentSpec
  import opened AlignmentTree
  import opened AlignmentBalance
  import opened AddressJoin
  import opened Addresses
  import opened AlignForests
  import opened AlignmentConservation

  // ----- own events, summed over a multiset of nodes -----

  function Own(f: Forest, n: Id): nat {
    if n in f.nodes then |f.nodes[n].events| else 0
  }

  ghost function Mass(f: Forest, m: multiset<Id>): nat
    decreases |m|
  {
    if m == multiset{} then 0 else var x :| x in m; Own(f, x) + Mass(f, m - multiset{x})
  }

  lemma TwoTaken(m: multiset<Id>, x: Id, y: Id)
    requires x in m && y in m && x != y
    ensures x in m - multiset{y} && y in m - multiset{x}
    ensures |m - multiset{y}| < |m| && |m - multiset{x}| < |m|
    ensures m - multiset{y} - multiset{x} == m - multiset{x} - multiset{y}
  {
  }

  lemma {:induction false} MassRemove(f: Forest, m: multiset<Id>, x: Id)
    requires x in m
    ensures Mass(f, m) == Own(f, x) + Mass(f, m - multiset{x})
    decreases |m|
  {
    var y :| y in m && Mass(f, m) == Own(f, y) + Mass(f, m - multiset{y});
    if y != x {
      TwoTaken(m, x, y);
      MassRemove(f, m - multiset{y}, x);
      MassRemove(f, m - multiset{x}, y);
    }
  }

  lemma {:induction false} MassJoin(f: Forest, a: multiset<Id>, b: multiset<Id>)
    ensures Mass(f, a + b) == Mass(f, a) + Mass(f, b)
    decreases |b|
  {
    if b == multiset{} {
      assert a + b == a;
    } else {
      var x :| x in b;
      MassRemove(f, b, x);
      MassRemove(f, a + b, x);
      assert a + b - multiset{x} == a + (b - multiset{x});
      MassJoin(f, a, b - multiset{x});
    }
  }

  lemma MassOne(f: Forest, n: Id)
    ensures Mass(f, multiset{n}) == Own(f, n)
  {
    MassRemove(f, multiset{n}, n);
    assert multiset{n} - multiset{n} == multiset{};
  }

  lemma {:induction false} MassOfSet(f: Forest, s: set<Id>)
    requires s <= f.nodes.Keys
    ensures Mass(f, multiset(s)) == SumOver(s, OwnEvents(f))
    decreases |s|
  {
    if s != {} {
      var x :| x in s;
      SumOverRemove(s, OwnEvents(f), x);
      MassRemove(f, multiset(s), x);
      assert multiset(s) - multiset{x} == multiset(s - {x});
      MassOfSet(f, s - {x});
    }
  }

  // ----- a subtree's mass is its rollup -----

  ghost function BearingSum(f: Forest, ids: seq<Id>): nat {
    if ids == [] then 0
    else (if Bearing(f, ids[|ids| - 1]) then f.nodes[ids[|ids| - 1]].subtreeEvents else 0) + BearingSum(f, ids[..|ids| - 1])
  }

  /** The sum from the left equals the sum from the right. */
  lemma {:induction false} SumSnoc(f: Forest, ids: seq<Id>, n: Id)
    ensures ChildrenSum(ids + [n], f) == ChildrenSum(ids, f) + if n in f.nodes then f.nodes[n].subtreeEvents else 0
  {
    if ids == [] {
      assert [n][1..] == [];
      assert ids + [n] == [n];
    } else {
      assert (ids + [n])[1..] == ids[1..] + [n];
      SumSnoc(f, ids[1..], n);
    }
  }

  /** Pruning the eventless children loses nothing from the sum. */
  lemma {:induction false} PrunedSum(f: Forest, ids: seq<Id>)
    ensures BearingSum(f, ids) == ChildrenSum(ids, f) == BearingSum(f, EventBearing(f, ids))
  {
    if ids != [] {
      var init, last := ids[..|ids| - 1], ids[|ids| - 1];
      PrunedSum(f, init);
      assert ids == init + [last];
      SumSnoc(f, init, last);
      if Bearing(f, last) {
        assert EventBearing(f, ids) == EventBearing(f, init) + [last];
        assert (EventBearing(f, init) + [last])[..|EventBearing(f, init)|] == EventBearing(f, init);
      } else {
        assert EventBearing(f, ids) == EventBearing(f, init);
      }
    }
  }

  lemma {:induction false} WholeListMass(f: Forest, down: map<Id, nat>, ids: seq<Id>)
    requires Falling(f, down) && AllBearing(f, ids) && RolledUp(f)
    ensures Mass(f, WholeList(f, down, ids)) == BearingSum(f, ids)
    decreases Top(down, ids), 1, |ids|
  {
    if ids != [] {
      var init, last := ids[..|ids| - 1], ids[|ids| - 1];
      assert ids == init + [last];
      TopOfInit(down, ids);
      WholeListMass(f, down, init);
      WholeMass(f, down, last);
      MassJoin(f, WholeList(f, down, init), Whole(f, down, last));
    }
  }

  lemma {:induction false} WholeMass(f: Forest, down: map<Id, nat>, n: Id)
    requires Falling(f, down) && Bearing(f, n) && RolledUp(f)
    ensures Mass(f, Whole(f, down, n)) == f.nodes[n].subtreeEvents
    decreases down[n], 2, 0
  {
    ChildrenBelow(f, down, n);
    WholeListMass(f, down, BearingChildren(f, n));
    PrunedSum(f, f.nodes[n].children);
    MassOne(f, n);
    MassJoin(f, multiset{n}, WholeList(f, down, BearingChildren(f, n)));
  }

  // ----- what each row says of its nodes -----

  /** The node a row names on one side is event-bearing, and a collapsed row carries its rollup. */
  ghost predicate RowFits(side: Side, f: Forest, row: AlignedNode) {
    && (IdOn(side, row).Some? ==> Bearing(f, IdOn(side, row).value))
    && (Collapsed(side, row) ==> IdOn(side, row).Some? && row.outcome.eventsBelow == f.nodes[IdOn(side, row).value].subtreeEvents)
  }

  lemma JoinedRowFits(s: Sides, pDown: map<Id, nat>, rIds: seq<Id>, pIds: seq<Id>, address: Address, row: AlignedNode)
    requires Walkable(s) && Falling(s.replay, pDown) && AllBearing(s.record, rIds) && AllBearing(s.replay, pIds)
    requires address != [] && RowAt(s.record, s.replay, rIds, pIds, address) == Some(row)
    ensures RowFits(RecordSide, s.record, row) && RowFits(ReplaySide, s.replay, row) && SoundRow(row)
  {
    if row.recordNode.Some? {
      ResolvedBears(s.record, s.down, rIds, address, row.recordNode.value);
    }
    if row.replayNode.Some? {
      ResolvedBears(s.replay, pDown, pIds, address, row.replayNode.value);
    }
  }

  /** What one row accounts for on one side: its node's own events, or everything below it. */
  function RowEvents(side: Side, f: Forest, row: AlignedNode): nat {
    if Collapsed(side, row) then row.outcome.eventsBelow
    else if IdOn(side, row).Some? then Own(f, IdOn(side, row).value)
    else 0
  }

  function RowsEvents(side: Side, f: Forest, rows: seq<AlignedNode>): nat {
    if rows == [] then 0 else RowsEvents(side, f, rows[..|rows| - 1]) + RowEvents(side, f, rows[|rows| - 1])
  }

  lemma RowMass(side: Side, f: Forest, down: map<Id, nat>, row: AlignedNode)
    requires Falling(f, down) && RolledUp(f) && RowFits(side, f, row)
    ensures RowEvents(side, f, row) == Mass(f, RowCover(side, f, down, row))
  {
    var id := IdOn(side, row);
    if id.Some? {
      MassOne(f, id.value);
      WholeMass(f, down, id.value);
    }
  }

  lemma {:induction false} RowsMass(side: Side, f: Forest, down: map<Id, nat>, rows: seq<AlignedNode>)
    requires Falling(f, down) && RolledUp(f)
    requires forall row :: row in rows ==> RowFits(side, f, row)
    ensures RowsEvents(side, f, rows) == Mass(f, Cover(side, f, down, rows))
  {
    if rows != [] {
      var init, last := rows[..|rows| - 1], rows[|rows| - 1];
      assert rows == init + [last];
      RowsMass(side, f, down, init);
      MassJoin(f, Cover(side, f, down, init), RowCover(side, f, down, last));
      assert last in rows;
      RowMass(side, f, down, last);
    }
  }

  function NamedBy(side: Side, row: AlignedNode): multiset<Id> {
    if IdOn(side, row).Some? then multiset{IdOn(side, row).value} else multiset{}
  }

  lemma RowNamed(side: Side, f: Forest, down: map<Id, nat>, row: AlignedNode)
    requires Falling(f, down)
    ensures NamedBy(side, row) <= RowCover(side, f, down, row)
    ensures !Collapsed(side, row) ==> NamedBy(side, row) == RowCover(side, f, down, row)
  {
  }

  lemma IdsNext(side: Side, rows: seq<AlignedNode>)
    requires rows != []
    ensures multiset(IdsOn(side, rows)) == multiset(IdsOn(side, rows[..|rows| - 1])) + NamedBy(side, rows[|rows| - 1])
  {
  }

  /** Nodes named in rows are among the nodes covered; without collapsed rows they are all of them. */
  lemma {:induction false} NamedAmongCovered(side: Side, f: Forest, down: map<Id, nat>, rows: seq<AlignedNode>)
    requires Falling(f, down)
    ensures multiset(IdsOn(side, rows)) <= Cover(side, f, down, rows)
    ensures (forall row :: row in rows ==> !Collapsed(side, row)) ==> multiset(IdsOn(side, rows)) == Cover(side, f, down, rows)
  {
    if rows != [] {
      var init, last := rows[..|rows| - 1], rows[|rows| - 1];
      assert rows == init + [last];
      NamedAmongCovered(side, f, down, init);
      IdsNext(side, rows);
      RowNamed(side, f, down, last);
      assert last in rows;
    }
  }

  // ----- the main results, for a forest that `build` produced -----

  ghost predicate BuiltShape(f: Forest) {
    TreeShaped(f) && RolledUp(f)
  }

  lemma SetFromMultiset(m: multiset<Id>, s: set<Id>)
    requires forall x :: m[x] == if x in s then 1 else 0
    ensures m == multiset(s)
  {
  }

  /** The subtrees of the roots hold each event-bearing node once. */
  lemma RootsHoldAll(f: Forest, down: map<Id, nat>)
    requires Falling(f, down) && BuiltShape(f)
    ensures AllBearing(f, BearingRoots(f)) && WholeList(f, down, BearingRoots(f)) == multiset(BearingNodes(f))
  {
    AllReached(f, down);
    var whole := WholeList(f, down, BearingRoots(f));
    forall x ensures whole[x] == if x in BearingNodes(f) then 1 else 0 {
      WholeOnce(f, down, BearingRoots(f), x);
      if x in BelowList(f, down, BearingRoots(f)) {
        BelowBears(f, down, BearingRoots(f), x);
      }
    }
    SetFromMultiset(whole, BearingNodes(f));
  }

  lemma {:induction false} BelowBears(f: Forest, down: map<Id, nat>, ids: seq<Id>, x: Id)
    requires Falling(f, down) && AllBearing(f, ids) && x in BelowList(f, down, ids)
    ensures Bearing(f, x)
    decreases Top(down, ids)
  {
    BelowListIs(f, down, ids, x);
    var n :| n in ids && x in Below(f, down, n);
    if x != n {
      ChildrenBelow(f, down, n);
      BelowBears(f, down, BearingChildren(f, n), x);
    }
  }

  lemma RowsCoverForest(side: Side, record: Forest, replay: Forest, down: map<Id, nat>, other: map<Id, nat>)
    requires Falling(record, down) && Falling(replay, other)
    requires BuiltShape(if side == RecordSide then record else replay)
    ensures
      var f, d := if side == RecordSide then record else replay, if side == RecordSide then down else other;
      Cover(side, f, d, RootsOutput(record, replay, down).rows) == multiset(BearingNodes(f))
  {
    var s := Sides(record, replay, down);
    var d := if side == RecordSide then down else other;
    EventBearingIs(record, record.roots);
    EventBearingIs(replay, replay.roots);
    SiblingCover(side, s, d, BearingRoots(record), BearingRoots(replay));
    RootsHoldAll(ForestOf(side, s), d);
  }

  lemma RowsFit(record: Forest, replay: Forest, down: map<Id, nat>, other: map<Id, nat>)
    requires Falling(record, down) && Falling(replay, other)
    ensures forall row :: row in RootsOutput(record, replay, down).rows ==>
              RowFits(RecordSide, record, row) && RowFits(ReplaySide, replay, row) && SoundRow(row)
  {
    var s := Sides(record, replay, down);
    EventBearingIs(record, record.roots);
    EventBearingIs(replay, replay.roots);
    forall row | row in RootsOutput(record, replay, down).rows
      ensures RowFits(RecordSide, record, row) && RowFits(ReplaySide, replay, row) && SoundRow(row)
    {
      RowsJoin(s, BearingRoots(record), BearingRoots(replay), row);
      var address: Address :| address != [] && RowAt(record, replay, BearingRoots(record), BearingRoots(replay), address) == Some(row);
      JoinedRowFits(s, other, BearingRoots(record), BearingRoots(replay), address, row);
    }
  }

  /** On each side, every event-bearing node is in one row or beneath one collapsed root, exactly once;
      and the rows account for every event attached in that forest. */
  lemma AlignConserves(side: Side, record: Forest, replay: Forest, down: map<Id, nat>, other: map<Id, nat>)
    requires Falling(record, down) && Falling(replay, other) && BuiltShape(record) && BuiltShape(replay)
    ensures
      var f, d := if side == RecordSide then record else replay, if side == RecordSide then down else other;
      var rows := RootsOutput(record, replay, down).rows;
      && Cover(side, f, d, rows) == multiset(BearingNodes(f))
      && RowsEvents(side, f, rows) == SumOver(f.nodes.Keys, OwnEvents(f))
  {
    var f, d := if side == RecordSide then record else replay, if side == RecordSide then down else other;
    RowsCoverForest(side, record, replay, down, other);
    RowsFit(record, replay, down, other);
    RowsMass(side, f, d, RootsOutput(record, replay, down).rows);
    MassOfSet(f, BearingNodes(f));
    EventlessAddNothing(f, f.nodes.Keys);
  }

  /** A node whose rollup is zero carries no event of its own. */
  lemma {:induction false} EventlessAddNothing(f: Forest, s: set<Id>)
    requires RolledUp(f) && BearingNodes(f) <= s <= f.nodes.Keys
    ensures SumOver(s, OwnEvents(f)) == SumOver(BearingNodes(f), OwnEvents(f))
    decreases |s|
  {
    if s != BearingNodes(f) {
      var x :| x in s && x !in BearingNodes(f);
      SumOverRemove(s, OwnEvents(f), x);
      EventlessAddNothing(f, s - {x});
    }
  }

  /** Every alignment of two built forests balances against their event-bearing node counts. */
  lemma AlignBalances(record: Forest, replay: Forest, down: map<Id, nat>)
    requires Falling(record, down) && BuiltShape(record) && BuiltShape(replay)
    ensures BalancedRows(RootsOutput(record, replay, down).rows, |BearingNodes(record)|, |BearingNodes(replay)|)
  {
    TreesRise(replay);
    var rising :| RisesAlongChildren(replay, rising);
    var other := TurnOver(replay, rising);
    RowsFit(record, replay, down, other);
    SideBalances(RecordSide, record, replay, down, other);
    SideBalances(ReplaySide, record, replay, down, other);
  }

  lemma SideBalances(side: Side, record: Forest, replay: Forest, down: map<Id, nat>, other: map<Id, nat>)
    requires Falling(record, down) && Falling(replay, other) && BuiltShape(record) && BuiltShape(replay)
    ensures
      var f, rows := if side == RecordSide then record else replay, RootsOutput(record, replay, down).rows;
      NoDup(IdsOn(side, rows)) && CountFits(side, rows, |BearingNodes(f)|)
  {
    var f, d := if side == RecordSide then record else replay, if side == RecordSide then down else other;
    var rows := RootsOutput(record, replay, down).rows;
    RowsCoverForest(side, record, replay, down, other);
    NamedAmongCovered(side, f, d, rows);
    var ids := IdsOn(side, rows);
    NoDupIffSingle(ids);
    NoDupCount(ids);
    assert ToSet(ids) <= BearingNodes(f) by {
      forall x | x in ids ensures x in BearingNodes(f) {
        assert x in multiset(ids);
      }
    }
    SubsetSize(ToSet(ids), BearingNodes(f));
    if forall row :: row in rows ==> !Collapsed(side, row) {
      assert multiset(ids) == multiset(BearingNodes(f));
      forall x | x in BearingNodes(f) ensures x in ids {
        assert x in multiset(ids);
      }
      assert ToSet(ids) == BearingNodes(f);
    }
  }

  /** `align` never sends a built forest to the flat tier, and its forests have the shape the results above ask for. */
  lemma BuiltNeverDemoted(nodes: seq<GraphNode>, events: seq<EventRef>, fs: ForestSet, w: Passes, c: Option<string>)
    requires Built(nodes, events, fs, w) && c in fs.forests
    ensures BuiltShape(fs.forests[c]) && Walked(fs.forests[c])
  {
    TreesRise(fs.forests[c]);
  }
}
