/** Which renames an alignment suspects, told by what lies directly below the subtrees it names. */
module RenameShapes {
  import opened Common
  import opened ForestModel
  import opened AlignmentSpec
  import opened AlignmentRun
  import opened RenameSuspicion
  import opened AddressJoin

  /** As many events at or below, and as many event-bearing children of every name. */
  ghost predicate Alike(record: Forest, r: Id, replay: Forest, p: Id) {
    && r in record.nodes && p in replay.nodes
    && record.nodes[r].subtreeEvents == replay.nodes[p].subtreeEvents
    && forall name :: |Named(record, BearingChildren(record, r), name)| == |Named(replay, BearingChildren(replay, p), name)|
  }

  lemma {:induction false} NameCounts(f: Forest, ids: seq<Id>, name: string)
    ensures ChildNames(f, ids)[name] == |Named(f, ids, name)|
  {
    if ids != [] {
      var init, last := ids[..|ids| - 1], ids[|ids| - 1];
      assert ids == init + [last];
      NameCounts(f, init, name);
      ChildNamesSnoc(f, init, last);
    }
  }

  lemma {:induction false} ChildNamesSnoc(f: Forest, ids: seq<Id>, n: Id)
    ensures ChildNames(f, ids + [n]) == ChildNames(f, ids) + if n in f.nodes then multiset{f.nodes[n].spanName} else multiset{}
  {
    if ids == [] {
      assert [n] == [n] + [];
    } else {
      assert (ids + [n])[1..] == ids[1..] + [n];
      ChildNamesSnoc(f, ids[1..], n);
    }
  }

  /** Two subtrees have one shape exactly when they are alike. */
  lemma OneShapeIsAlike(record: Forest, r: Id, replay: Forest, p: Id)
    requires r in record.nodes && p in replay.nodes
    ensures ShapeOf(record, r) == ShapeOf(replay, p) <==> Alike(record, r, replay, p)
  {
    var mine, theirs := BearingChildren(record, r), BearingChildren(replay, p);
    forall name ensures ChildNames(record, mine)[name] == |Named(record, mine, name)|
                        && ChildNames(replay, theirs)[name] == |Named(replay, theirs, name)| {
      NameCounts(record, mine, name);
      NameCounts(replay, theirs, name);
    }
    if Alike(record, r, replay, p) {
      assert ChildNames(record, mine) == ChildNames(replay, theirs);
    }
  }

  // ----- among the leftovers of one sibling set -----

  ghost predicate AllAlike(record: Forest, replay: Forest, renames: seq<(Id, Id)>) {
    forall q :: q in renames ==> Alike(record, q.0, replay, q.1)
  }

  lemma RenameOf(left: seq<Left>, right: seq<Left>, pairs: seq<(nat, nat)>, p: (nat, nat))
    requires forall i :: 0 <= i < |pairs| ==> pairs[i].0 < |left| && pairs[i].1 < |right|
    requires p in pairs
    ensures p.0 < |left| && p.1 < |right| && (left[p.0].id, right[p.1].id) in RenamesOf(left, right, pairs)
  {
    var k :| 0 <= k < |pairs| && pairs[k] == p;
    assert RenamesOf(left, right, pairs)[k] == (left[p.0].id, right[p.1].id);
  }

  lemma PairOfRename(left: seq<Left>, right: seq<Left>, pairs: seq<(nat, nat)>, q: (Id, Id)) returns (p: (nat, nat))
    requires forall i :: 0 <= i < |pairs| ==> pairs[i].0 < |left| && pairs[i].1 < |right|
    requires q in RenamesOf(left, right, pairs)
    ensures p in pairs && p.0 < |left| && p.1 < |right| && q == (left[p.0].id, right[p.1].id)
  {
    var k :| 0 <= k < |pairs| && RenamesOf(left, right, pairs)[k] == q;
    p := pairs[k];
  }

  lemma LeftoversAlike(s: Sides, left: seq<Left>, right: seq<Left>, q: (Id, Id))
    requires LeftBearing(s.record, left) && LeftBearing(s.replay, right) && q in LeftoverOutput(s, left, right).renames
    ensures Alike(s.record, q.0, s.replay, q.1)
    ensures exists i, j :: 0 <= i < |left| && 0 <= j < |right| && left[i].id == q.0 && right[j].id == q.1
  {
    var xs, ys := Shapes(s.record, left), Shapes(s.replay, right);
    var pairs := Pairing(xs, ys);
    PairingIndices(xs, ys);
    var p := PairOfRename(left, right, pairs, q);
    assert p == (p.0, p.1);
    PairingIs(xs, ys, p.0, p.1);
    OneShapeIsAlike(s.record, q.0, s.replay, q.1);
  }

  /** Two leftovers that are alike cannot both stay unsuspected. */
  lemma OneIsSuspected(s: Sides, left: seq<Left>, right: seq<Left>, i: nat, j: nat)
    requires LeftBearing(s.record, left) && LeftBearing(s.replay, right)
    requires i < |left| && j < |right| && Alike(s.record, left[i].id, s.replay, right[j].id)
    ensures exists q :: q in LeftoverOutput(s, left, right).renames && (q.0 == left[i].id || q.1 == right[j].id)
  {
    var xs, ys := Shapes(s.record, left), Shapes(s.replay, right);
    OneShapeIsAlike(s.record, left[i].id, s.replay, right[j].id);
    var q := OneIsPaired(xs, ys, i, j);
    PairingIndices(xs, ys);
    RenameOf(left, right, Pairing(xs, ys), q);
  }

  // ----- over a whole walk -----

  lemma {:induction false} RunAlike(s: Sides, rIds: seq<Id>, pIds: seq<Id>, before: Progress)
    requires Walkable(s) && AllBearing(s.record, rIds) && AllBearing(s.replay, pIds) && AllAlike(s.record, s.replay, before.renames)
    ensures AllAlike(s.record, s.replay, SiblingRun(s, rIds, pIds, before).renames)
    decreases Top(s.down, rIds), 1, 0
  {
    var order := GroupOrder(s, rIds, pIds);
    var pairs, left := SiblingParts(s, rIds, pIds, before);
    PairsAlike(s, pairs, before);
    forall q | q in left.renames ensures Alike(s.record, q.0, s.replay, q.1) {
      LeftoversAlike(s, AllLeftRecord(s, rIds, pIds, order), AllLeftReplay(s, rIds, pIds, order), q);
    }
  }

  lemma {:induction false} PairsAlike(s: Sides, pairs: seq<Pair>, before: Progress)
    requires Walkable(s) && PairsBearing(s, pairs) && AllAlike(s.record, s.replay, before.renames)
    ensures AllAlike(s.record, s.replay, PairRun(s, pairs, before).renames)
    decreases Top(s.down, Records(pairs)), 0, |pairs|
  {
    if pairs != [] {
      var init, p := pairs[..|pairs| - 1], pairs[|pairs| - 1];
      InitLower(s, pairs);
      RankBelowTop(s, pairs, |pairs| - 1);
      PairsAlike(s, init, before);
      OnePairAlike(s, p, PairRun(s, init, before));
    }
  }

  lemma {:induction false} OnePairAlike(s: Sides, p: Pair, before: Progress)
    requires Walkable(s) && Bearing(s.record, p.record) && Bearing(s.replay, p.replay) && AllAlike(s.record, s.replay, before.renames)
    ensures AllAlike(s.record, s.replay, OnePairRun(s, p, before).renames)
    decreases s.down[p.record], 2, 0
  {
    if (p.record, p.replay) !in before.seen {
      ChildrenBelow(s.record, s.down, p.record);
      EventBearingIs(s.replay, s.replay.nodes[p.replay].children);
      RunAlike(s, BearingChildren(s.record, p.record), BearingChildren(s.replay, p.replay), Marked(s, p, before));
    }
  }

  // ----- every two unmatched siblings that are alike, anywhere in the forests -----

  lemma {:induction false} PairRenamesInside(s: Sides, pairs: seq<Pair>, p: Pair, q: (Id, Id))
    requires Walkable(s) && PairsBearing(s, pairs) && p in pairs && q in OnePairOutput(s, p).renames
    ensures q in PairOutput(s, pairs).renames
    decreases |pairs|
  {
    var init, last := pairs[..|pairs| - 1], pairs[|pairs| - 1];
    assert PairOutput(s, pairs).renames == PairOutput(s, init).renames + OnePairOutput(s, last).renames;
    if p != last {
      PairRenamesInside(s, init, p, q);
    }
  }

  lemma PairRenamesListed(s: Sides, rIds: seq<Id>, pIds: seq<Id>, p: Pair, q: (Id, Id))
    requires Walkable(s) && AllBearing(s.record, rIds) && AllBearing(s.replay, pIds)
    requires p in AllPairs(s, rIds, pIds, GroupOrder(s, rIds, pIds)) && Bearing(s.record, p.record) && Bearing(s.replay, p.replay)
    requires q in OnePairOutput(s, p).renames
    ensures q in SiblingOutput(s, rIds, pIds).renames
  {
    var order := GroupOrder(s, rIds, pIds);
    PairsInside(s, rIds, pIds, order);
    PairRenamesInside(s, AllPairs(s, rIds, pIds, order), p, q);
  }

  ghost predicate Suspected(renames: seq<(Id, Id)>, r: Id, p: Id) {
    exists q :: q in renames && (q.0 == r || q.1 == p)
  }

  lemma RecordLeftAt(s: Sides, rIds: seq<Id>, pIds: seq<Id>, x: Step) returns (i: nat)
    requires |Named(s.replay, pIds, x.name)| <= x.index < |Named(s.record, rIds, x.name)|
    ensures
      var left := AllLeftRecord(s, rIds, pIds, GroupOrder(s, rIds, pIds));
      i < |left| && left[i].id == Named(s.record, rIds, x.name)[x.index]
  {
    var order, l := GroupOrder(s, rIds, pIds), Left(Named(s.record, rIds, x.name)[x.index], Low(s, rIds, pIds, x.name));
    OrderCovers(s, rIds, pIds, x.name);
    assert Kth(s.record, rIds, x.name, x.index, l.id);
    LeftRecordMembers(s, rIds, pIds, order, l);
    i :| i < |AllLeftRecord(s, rIds, pIds, order)| && AllLeftRecord(s, rIds, pIds, order)[i] == l;
  }

  lemma ReplayLeftAt(s: Sides, rIds: seq<Id>, pIds: seq<Id>, y: Step) returns (j: nat)
    requires |Named(s.record, rIds, y.name)| <= y.index < |Named(s.replay, pIds, y.name)|
    ensures
      var right := AllLeftReplay(s, rIds, pIds, GroupOrder(s, rIds, pIds));
      j < |right| && right[j].id == Named(s.replay, pIds, y.name)[y.index]
  {
    var order, l := GroupOrder(s, rIds, pIds), Left(Named(s.replay, pIds, y.name)[y.index], Low(s, rIds, pIds, y.name));
    OrderCovers(s, rIds, pIds, y.name);
    assert Kth(s.replay, pIds, y.name, y.index, l.id);
    LeftReplayMembers(s, rIds, pIds, order, l);
    j :| j < |AllLeftReplay(s, rIds, pIds, order)| && AllLeftReplay(s, rIds, pIds, order)[j] == l;
  }

  lemma LeftoversBear(s: Sides, rIds: seq<Id>, pIds: seq<Id>)
    requires Walkable(s) && AllBearing(s.record, rIds) && AllBearing(s.replay, pIds)
    ensures LeftBearing(s.record, AllLeftRecord(s, rIds, pIds, GroupOrder(s, rIds, pIds)))
    ensures LeftBearing(s.replay, AllLeftReplay(s, rIds, pIds, GroupOrder(s, rIds, pIds)))
    ensures forall q :: q in LeftoverOutput(s, AllLeftRecord(s, rIds, pIds, GroupOrder(s, rIds, pIds)),
                                            AllLeftReplay(s, rIds, pIds, GroupOrder(s, rIds, pIds))).renames ==>
              q in SiblingOutput(s, rIds, pIds).renames
  {
    var pairs, left := SiblingParts(s, rIds, pIds, Progress([], [], [], {}));
  }

  /** The last-named record sibling and the last-named replay sibling stay unmatched. */
  lemma SiblingsSuspected(s: Sides, rIds: seq<Id>, pIds: seq<Id>, x: Step, y: Step)
    requires Walkable(s) && AllBearing(s.record, rIds) && AllBearing(s.replay, pIds)
    requires |Named(s.replay, pIds, x.name)| <= x.index < |Named(s.record, rIds, x.name)|
    requires |Named(s.record, rIds, y.name)| <= y.index < |Named(s.replay, pIds, y.name)|
    requires Alike(s.record, Named(s.record, rIds, x.name)[x.index], s.replay, Named(s.replay, pIds, y.name)[y.index])
    ensures Suspected(SiblingOutput(s, rIds, pIds).renames, Named(s.record, rIds, x.name)[x.index], Named(s.replay, pIds, y.name)[y.index])
  {
    var order := GroupOrder(s, rIds, pIds);
    var i := RecordLeftAt(s, rIds, pIds, x);
    var j := ReplayLeftAt(s, rIds, pIds, y);
    LeftoversBear(s, rIds, pIds);
    OneIsSuspected(s, AllLeftRecord(s, rIds, pIds, order), AllLeftReplay(s, rIds, pIds, order), i, j);
  }

  /** One address leads to an unmatched record subtree and the other to an unmatched replay subtree. */
  predicate Unmatched(record: Forest, replay: Forest, rIds: seq<Id>, pIds: seq<Id>, a: Address, b: Address, r: Id, p: Id) {
    && Resolve(record, rIds, a) == Some(r) && Resolve(replay, pIds, a) == None && ParentResolves(replay, pIds, a)
    && Resolve(replay, pIds, b) == Some(p) && Resolve(record, rIds, b) == None && ParentResolves(record, rIds, b)
  }

  lemma UnmatchedHere(record: Forest, replay: Forest, rIds: seq<Id>, pIds: seq<Id>, x: Step, y: Step, r: Id, p: Id)
    ensures Unmatched(record, replay, rIds, pIds, [] + [x], [] + [y], r, p) <==>
              && |Named(replay, pIds, x.name)| <= x.index < |Named(record, rIds, x.name)| && Named(record, rIds, x.name)[x.index] == r
              && |Named(record, rIds, y.name)| <= y.index < |Named(replay, pIds, y.name)| && Named(replay, pIds, y.name)[y.index] == p
  {
    assert [] + [x] == [x] && [] + [y] == [y];
    OneStep(record, rIds, x);
    OneStep(replay, pIds, x);
    OneStep(record, rIds, y);
    OneStep(replay, pIds, y);
  }

  lemma UnmatchedBelow(record: Forest, replay: Forest, rIds: seq<Id>, pIds: seq<Id>, step: Step, rest: Address, x: Step, y: Step, r: Id, p: Id)
    ensures Unmatched(record, replay, rIds, pIds, [step] + rest + [x], [step] + rest + [y], r, p) <==>
              var rs, ps := Named(record, rIds, step.name), Named(replay, pIds, step.name);
              && step.index < |rs| && step.index < |ps|
              && Unmatched(record, replay, BearingChildren(record, rs[step.index]), BearingChildren(replay, ps[step.index]),
                           rest + [x], rest + [y], r, p)
  {
    assert [step] + rest + [x] == [step] + (rest + [x]) && [step] + rest + [y] == [step] + (rest + [y]);
    ResolveStep(record, rIds, step, rest + [x]);
    ResolveStep(replay, pIds, step, rest + [x]);
    ResolveStep(record, rIds, step, rest + [y]);
    ResolveStep(replay, pIds, step, rest + [y]);
  }

  /** Unmatched subtrees with one parent address that are alike: at least one of them is in a suspected rename. */
  lemma {:induction false} UnmatchedSuspected(s: Sides, rIds: seq<Id>, pIds: seq<Id>, at: Address, x: Step, y: Step, r: Id, p: Id)
    requires Walkable(s) && AllBearing(s.record, rIds) && AllBearing(s.replay, pIds)
    requires Unmatched(s.record, s.replay, rIds, pIds, at + [x], at + [y], r, p) && Alike(s.record, r, s.replay, p)
    ensures Suspected(SiblingOutput(s, rIds, pIds).renames, r, p)
    decreases |at|
  {
    if at == [] {
      UnmatchedHere(s.record, s.replay, rIds, pIds, x, y, r, p);
      SiblingsSuspected(s, rIds, pIds, x, y);
    } else {
      var step, rest := at[0], at[1..];
      assert at == [step] + rest;
      UnmatchedBelow(s.record, s.replay, rIds, pIds, step, rest, x, y, r, p);
      var pair := Pair(Named(s.record, rIds, step.name)[step.index], Named(s.replay, pIds, step.name)[step.index],
                       Low(s, rIds, pIds, step.name));
      PairListed(s, rIds, pIds, step.name, step.index, pair);
      ChildrenBelow(s.record, s.down, pair.record);
      EventBearingIs(s.replay, s.replay.nodes[pair.replay].children);
      UnmatchedSuspected(s, BearingChildren(s.record, pair.record), BearingChildren(s.replay, pair.replay), rest, x, y, r, p);
      SuspectedBelow(s, rIds, pIds, pair, r, p);
    }
  }

  lemma SuspectedBelow(s: Sides, rIds: seq<Id>, pIds: seq<Id>, pair: Pair, r: Id, p: Id)
    requires Walkable(s) && AllBearing(s.record, rIds) && AllBearing(s.replay, pIds)
    requires pair in AllPairs(s, rIds, pIds, GroupOrder(s, rIds, pIds)) && Bearing(s.record, pair.record) && Bearing(s.replay, pair.replay)
    requires Suspected(OnePairOutput(s, pair).renames, r, p)
    ensures Suspected(SiblingOutput(s, rIds, pIds).renames, r, p)
  {
    var q :| q in OnePairOutput(s, pair).renames && (q.0 == r || q.1 == p);
    PairRenamesListed(s, rIds, pIds, pair, q);
  }

  // ----- and none but unmatched siblings -----

  ghost predicate UnmatchedSiblings(record: Forest, replay: Forest, rIds: seq<Id>, pIds: seq<Id>, r: Id, p: Id) {
    exists at: Address, x, y :: Unmatched(record, replay, rIds, pIds, at + [x], at + [y], r, p)
  }

  lemma SiblingsBy(record: Forest, replay: Forest, rIds: seq<Id>, pIds: seq<Id>, at: Address, x: Step, y: Step, r: Id, p: Id)
    requires Unmatched(record, replay, rIds, pIds, at + [x], at + [y], r, p)
    ensures UnmatchedSiblings(record, replay, rIds, pIds, r, p)
  {
  }

  lemma LeftoversUnmatched(s: Sides, rIds: seq<Id>, pIds: seq<Id>, names: seq<string>, l: Left, m: Left)
    requires l in AllLeftRecord(s, rIds, pIds, names) && m in AllLeftReplay(s, rIds, pIds, names)
    ensures UnmatchedSiblings(s.record, s.replay, rIds, pIds, l.id, m.id)
  {
    LeftRecordMembers(s, rIds, pIds, names, l);
    LeftReplayMembers(s, rIds, pIds, names, m);
    var a, i: nat :| a in names && Kth(s.record, rIds, a, i, l.id) && i >= |Named(s.replay, pIds, a)| && l.low == Low(s, rIds, pIds, a);
    var b, j: nat :| b in names && Kth(s.replay, pIds, b, j, m.id) && j >= |Named(s.record, rIds, b)| && m.low == Low(s, rIds, pIds, b);
    UnmatchedHere(s.record, s.replay, rIds, pIds, Step(a, i), Step(b, j), l.id, m.id);
  }

  lemma LiftUnmatched(record: Forest, replay: Forest, rIds: seq<Id>, pIds: seq<Id>, step: Step, r: Id, p: Id)
    requires step.index < |Named(record, rIds, step.name)| && step.index < |Named(replay, pIds, step.name)|
    requires UnmatchedSiblings(record, replay, BearingChildren(record, Named(record, rIds, step.name)[step.index]),
                               BearingChildren(replay, Named(replay, pIds, step.name)[step.index]), r, p)
    ensures UnmatchedSiblings(record, replay, rIds, pIds, r, p)
  {
    var rs, ps := BearingChildren(record, Named(record, rIds, step.name)[step.index]),
                  BearingChildren(replay, Named(replay, pIds, step.name)[step.index]);
    var at: Address, x, y :| Unmatched(record, replay, rs, ps, at + [x], at + [y], r, p);
    UnmatchedBelow(record, replay, rIds, pIds, step, at, x, y, r, p);
    SiblingsBy(record, replay, rIds, pIds, [step] + at, x, y, r, p);
  }

  lemma UnmatchedLifts(s: Sides, rIds: seq<Id>, pIds: seq<Id>, names: seq<string>, pair: Pair, r: Id, p: Id)
    requires pair in AllPairs(s, rIds, pIds, names)
    requires UnmatchedSiblings(s.record, s.replay, BearingChildren(s.record, pair.record), BearingChildren(s.replay, pair.replay), r, p)
    ensures UnmatchedSiblings(s.record, s.replay, rIds, pIds, r, p)
  {
    PairMembers(s, rIds, pIds, names, pair);
    var name, k: nat :| name in names && Kth(s.record, rIds, name, k, pair.record) && Kth(s.replay, pIds, name, k, pair.replay)
                        && pair.low == Low(s, rIds, pIds, name);
    LiftUnmatched(s.record, s.replay, rIds, pIds, Step(name, k), r, p);
  }

  lemma {:induction false} PairOfSuspicion(s: Sides, pairs: seq<Pair>, q: (Id, Id)) returns (p: Pair)
    requires Walkable(s) && PairsBearing(s, pairs) && q in PairOutput(s, pairs).renames
    ensures p in pairs && q in OnePairOutput(s, p).renames
    decreases |pairs|
  {
    var init, last := pairs[..|pairs| - 1], pairs[|pairs| - 1];
    assert PairOutput(s, pairs).renames == PairOutput(s, init).renames + OnePairOutput(s, last).renames;
    if q in OnePairOutput(s, last).renames {
      p := last;
    } else {
      p := PairOfSuspicion(s, init, q);
    }
  }

  lemma {:induction false} SuspectedUnmatched(s: Sides, rIds: seq<Id>, pIds: seq<Id>, q: (Id, Id))
    requires Walkable(s) && AllBearing(s.record, rIds) && AllBearing(s.replay, pIds) && q in SiblingOutput(s, rIds, pIds).renames
    ensures UnmatchedSiblings(s.record, s.replay, rIds, pIds, q.0, q.1)
    decreases Top(s.down, rIds), 0
  {
    var order := GroupOrder(s, rIds, pIds);
    var left, right := AllLeftRecord(s, rIds, pIds, order), AllLeftReplay(s, rIds, pIds, order);
    var pairs, leftovers := SiblingParts(s, rIds, pIds, Progress([], [], [], {}));
    if q in leftovers.renames {
      LeftoversAlike(s, left, right, q);
      var i, j :| 0 <= i < |left| && 0 <= j < |right| && left[i].id == q.0 && right[j].id == q.1;
      LeftoversUnmatched(s, rIds, pIds, order, left[i], right[j]);
    } else {
      var p := PairOfSuspicion(s, pairs, q);
      PairsInside(s, rIds, pIds, order);
      BelowPairUnmatched(s, p, q);
      UnmatchedLifts(s, rIds, pIds, order, p, q.0, q.1);
    }
  }

  lemma {:induction false} BelowPairUnmatched(s: Sides, p: Pair, q: (Id, Id))
    requires Walkable(s) && Bearing(s.record, p.record) && Bearing(s.replay, p.replay) && q in OnePairOutput(s, p).renames
    ensures UnmatchedSiblings(s.record, s.replay, BearingChildren(s.record, p.record), BearingChildren(s.replay, p.replay), q.0, q.1)
    decreases s.down[p.record], 1
  {
    ChildrenBelow(s.record, s.down, p.record);
    EventBearingIs(s.replay, s.replay.nodes[p.replay].children);
    SuspectedUnmatched(s, BearingChildren(s.record, p.record), BearingChildren(s.replay, p.replay), q);
  }
}
