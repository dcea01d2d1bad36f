/** What aligning two forests gives, in terms of the forests alone. */
module AlignmentResults {
  import opened Common
  import opened ForestModel
  import opened AlignmentSpec
  import opened RenameSuspicion
  import opened AddressJoin
  import opened Addresses
  import opened AlignForests
  import opened AlignmentTotals

  lemma RootRows(record: Forest, replay: Forest, down: map<Id, nat>)
    requires Falling(record, down)
    ensures forall row :: row in RootsOutput(record, replay, down).rows <==> JoinRow(record, replay, row)
  {
    EventBearingIs(record, record.roots);
    EventBearingIs(replay, replay.roots);
    forall row ensures row in RootsOutput(record, replay, down).rows <==> JoinRow(record, replay, row) {
      RowsAreTheJoin(Sides(record, replay, down), BearingRoots(record), BearingRoots(replay), row);
    }
  }

  // ----- matched means one address -----

  ghost predicate MatchedIn(rows: seq<AlignedNode>, r: Id, p: Id) {
    exists row :: row in rows && row.outcome == Matched && row.recordNode == Some(r) && row.replayNode == Some(p)
  }

  /** The alignment matches a record node and a replay node exactly when one address names both. */
  lemma MatchedIffSameAddress(record: Forest, replay: Forest, down: map<Id, nat>, r: Id, p: Id)
    requires Falling(record, down)
    ensures MatchedIn(RootsOutput(record, replay, down).rows, r, p) <==>
              exists a: Address :: a != [] && Resolve(record, BearingRoots(record), a) == Some(r) && Resolve(replay, BearingRoots(replay), a) == Some(p)
  {
    var rows := RootsOutput(record, replay, down).rows;
    RootRows(record, replay, down);
    EventBearingIs(record, record.roots);
    MatchedRowsAreSameAddress(record, replay, BearingRoots(record), BearingRoots(replay), r, p);
    if MatchedIn(rows, r, p) {
      var row :| row in rows && row.outcome == Matched && row.recordNode == Some(r) && row.replayNode == Some(p);
      assert JoinRow(record, replay, row);
    }
    if a: Address, row :| a != [] && RowAt(record, replay, BearingRoots(record), BearingRoots(replay), a) == Some(row)
                          && row.outcome == Matched && row.recordNode == Some(r) && row.replayNode == Some(p) {
      assert JoinRow(record, replay, row);
      assert row in rows;
    }
  }

  // ----- a forest aligned with itself -----

  ghost predicate SamePair(pairs: seq<Pair>) {
    forall p :: p in pairs ==> p.record == p.replay
  }

  lemma {:induction false} SelfGroups(s: Sides, ids: seq<Id>, names: seq<string>)
    requires s.record == s.replay
    ensures SamePair(AllPairs(s, ids, ids, names))
    ensures AllLeftRecord(s, ids, ids, names) == [] && AllLeftReplay(s, ids, ids, names) == []
  {
    if names != [] {
      SelfGroups(s, ids, names[..|names| - 1]);
    }
  }

  lemma NothingToSuspect(s: Sides, left: seq<Left>, right: seq<Left>)
    requires left == [] && right == [] && LeftBearing(s.record, left) && LeftBearing(s.replay, right)
    ensures LeftoverOutput(s, left, right).renames == []
  {
    assert Pairing(Shapes(s.record, left), Shapes(s.replay, right)) == [];
  }

  lemma {:induction false} SelfPairRenames(s: Sides, pairs: seq<Pair>)
    requires s.record == s.replay && Walkable(s) && PairsBearing(s, pairs) && SamePair(pairs)
    ensures PairOutput(s, pairs).renames == []
    decreases Top(s.down, Records(pairs)), 0, |pairs|
  {
    if pairs != [] {
      var init, p := pairs[..|pairs| - 1], pairs[|pairs| - 1];
      InitLower(s, pairs);
      assert Records(pairs)[|pairs| - 1] in Records(pairs);
      assert p in pairs;
      SelfPairRenames(s, init);
      SelfOnePairRenames(s, p);
    }
  }

  lemma {:induction false} SelfOnePairRenames(s: Sides, p: Pair)
    requires s.record == s.replay && Walkable(s) && Bearing(s.record, p.record) && Bearing(s.replay, p.replay) && p.record == p.replay
    ensures OnePairOutput(s, p).renames == []
    decreases s.down[p.record], 2, 0
  {
    ChildrenBelow(s.record, s.down, p.record);
    SelfRenames(s, BearingChildren(s.record, p.record));
  }

  lemma {:induction false} SelfRenames(s: Sides, ids: seq<Id>)
    requires s.record == s.replay && Walkable(s) && AllBearing(s.record, ids)
    ensures SiblingOutput(s, ids, ids).renames == []
    decreases Top(s.down, ids), 1, 0
  {
    var order := GroupOrder(s, ids, ids);
    var pairs := AllPairs(s, ids, ids, order);
    PairsInside(s, ids, ids, order);
    PairsLower(s, ids, pairs);
    SelfGroups(s, ids, order);
    SelfPairRenames(s, pairs);
    NothingToSuspect(s, AllLeftRecord(s, ids, ids, order), AllLeftReplay(s, ids, ids, order));
  }

  ghost predicate NamedIn(rows: seq<AlignedNode>, n: Id) {
    exists row :: row in rows && row.recordNode == Some(n)
  }

  lemma SelfRows(f: Forest, down: map<Id, nat>, row: AlignedNode)
    requires Falling(f, down) && row in RootsOutput(f, f, down).rows
    ensures row.outcome == Matched && row.recordNode == row.replayNode && row.recordNode.Some?
  {
    RootRows(f, f, down);
    var a: Address :| a != [] && RowAt(f, f, BearingRoots(f), BearingRoots(f), a) == Some(row);
    SelfRow(f, BearingRoots(f), a);
  }

  /** The record node of a row is what its address names. */
  lemma RowNames(record: Forest, replay: Forest, rIds: seq<Id>, pIds: seq<Id>, a: Address, row: AlignedNode, n: Id)
    requires RowAt(record, replay, rIds, pIds, a) == Some(row) && row.recordNode == Some(n)
    ensures Resolve(record, rIds, a) == Some(n)
  {
  }

  lemma SelfNames(f: Forest, down: map<Id, nat>, n: Id)
    requires Falling(f, down) && BuiltShape(f)
    ensures NamedIn(RootsOutput(f, f, down).rows, n) <==> Bearing(f, n)
  {
    var rows, roots := RootsOutput(f, f, down).rows, BearingRoots(f);
    RootRows(f, f, down);
    if NamedIn(rows, n) {
      var row :| row in rows && row.recordNode == Some(n);
      assert JoinRow(f, f, row);
      var a: Address :| a != [] && RowAt(f, f, roots, roots, a) == Some(row);
      RowNames(f, f, roots, roots, a, row, n);
      AddressBears(f, a, n);
    }
    if Bearing(f, n) {
      var a := AddressOf(f, n);
      SelfRow(f, roots, a);
      var row := RowAt(f, f, roots, roots, a).value;
      assert RowAt(f, f, roots, roots, a) == Some(row);
      assert JoinRow(f, f, row);
    }
  }

  /** A built forest aligned with itself: every row matches a node to itself, every event-bearing node has one,
      and no rename is suspected. */
  lemma SelfAlignment(f: Forest, down: map<Id, nat>)
    requires Falling(f, down) && BuiltShape(f)
    ensures
      var out := RootsOutput(f, f, down);
      && (forall row :: row in out.rows ==> row.outcome == Matched && row.recordNode == row.replayNode && row.recordNode.Some?)
      && (forall n :: NamedIn(out.rows, n) <==> Bearing(f, n))
      && out.renames == []
  {
    forall row | row in RootsOutput(f, f, down).rows
      ensures row.outcome == Matched && row.recordNode == row.replayNode && row.recordNode.Some?
    {
      SelfRows(f, down, row);
    }
    forall n ensures NamedIn(RootsOutput(f, f, down).rows, n) <==> Bearing(f, n) {
      SelfNames(f, down, n);
    }
    EventBearingIs(f, f.roots);
    SelfRenames(Sides(f, f, down), BearingRoots(f));
  }

  // ----- the order of differently named siblings is not looked at -----

  /** The same forest but for how differently named siblings, roots included, are interleaved. */
  ghost predicate Shuffled(f: Forest, g: Forest) {
    Interleaved(f, g) && SameGroups(f, BearingRoots(f), g, BearingRoots(g))
  }

  /** Interleaving differently named siblings another way, on either side, leaves the set of rows as it was. */
  lemma SiblingOrderIrrelevant(record: Forest, replay: Forest, down: map<Id, nat>,
                               record': Forest, replay': Forest, down': map<Id, nat>, row: AlignedNode)
    requires Falling(record, down) && Falling(record', down') && Shuffled(record, record') && Shuffled(replay, replay')
    ensures row in RootsOutput(record, replay, down).rows <==> row in RootsOutput(record', replay', down').rows
  {
    RootRows(record, replay, down);
    RootRows(record', replay', down');
    forall a: Address | a != []
      ensures RowAt(record, replay, BearingRoots(record), BearingRoots(replay), a) ==
              RowAt(record', replay', BearingRoots(record'), BearingRoots(replay'), a)
    {
      InterleavedRow(record, replay, BearingRoots(record), BearingRoots(replay),
                     record', replay', BearingRoots(record'), BearingRoots(replay'), a);
    }
    assert JoinRow(record, replay, row) <==> JoinRow(record', replay', row);
  }

  // ----- what makes a row low in confidence -----

  /** The same place among same-named siblings, but at index one: it resolves when there are two of them. */
  function SecondOf(a: Address): Address
    requires a != []
  {
    a[..|a| - 1] + [Step(a[|a| - 1].name, 1)]
  }

  lemma {:induction false} SameGroup(f: Forest, ids: seq<Id>, at: Address, x: Step, y: Step)
    requires x.name == y.name
    ensures GroupAt(f, ids, at + [x]) == GroupAt(f, ids, at + [y])
    decreases |at|
  {
    if at != [] {
      assert at + [x] == [at[0]] + (at[1..] + [x]) && at + [y] == [at[0]] + (at[1..] + [y]);
      GroupStep(f, ids, at[0], at[1..] + [x]);
      GroupStep(f, ids, at[0], at[1..] + [y]);
      if at[0].index < |Named(f, ids, at[0].name)| {
        SameGroup(f, BearingChildren(f, Named(f, ids, at[0].name)[at[0].index]), at[1..], x, y);
      }
    }
  }

  lemma SecondResolves(f: Forest, ids: seq<Id>, a: Address)
    requires a != []
    ensures Resolve(f, ids, SecondOf(a)).Some? <==> |GroupAt(f, ids, a)| > 1
  {
    assert a == a[..|a| - 1] + [a[|a| - 1]];
    SameGroup(f, ids, a[..|a| - 1], a[|a| - 1], Step(a[|a| - 1].name, 1));
  }

  lemma LowAt(record: Forest, replay: Forest, rIds: seq<Id>, pIds: seq<Id>, a: Address, row: AlignedNode)
    requires a != [] && RowAt(record, replay, rIds, pIds, a) == Some(row)
    ensures row.lowConfidence <==> Resolve(record, rIds, SecondOf(a)).Some? || Resolve(replay, pIds, SecondOf(a)).Some?
  {
    SecondResolves(record, rIds, a);
    SecondResolves(replay, pIds, a);
  }

  /** A row is low in confidence exactly when, where its address leads, either forest has a second sibling of the name. */
  lemma LowConfidenceIff(record: Forest, replay: Forest, down: map<Id, nat>, row: AlignedNode) returns (a: Address)
    requires Falling(record, down) && row in RootsOutput(record, replay, down).rows
    ensures a != [] && RowAt(record, replay, BearingRoots(record), BearingRoots(replay), a) == Some(row)
    ensures row.lowConfidence <==>
              Resolve(record, BearingRoots(record), SecondOf(a)).Some? || Resolve(replay, BearingRoots(replay), SecondOf(a)).Some?
  {
    RootRows(record, replay, down);
    assert JoinRow(record, replay, row);
    a :| a != [] && RowAt(record, replay, BearingRoots(record), BearingRoots(replay), a) == Some(row);
    LowAt(record, replay, BearingRoots(record), BearingRoots(replay), a, row);
  }
}
