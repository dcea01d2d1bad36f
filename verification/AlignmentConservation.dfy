/** An alignment conserves each side: every event-bearing node is in one row or beneath exactly one
    collapsed root, every event is counted once, and `balance` accepts. */
module AlignmentConservation {
  import opened Common
  import opened Sequences
  import opened ForestModel
  import opened AlignmentSpec
  import opened AlignmentTree
  import opened AlignmentBalance
  import opened AddressJoin

  // ----- whole subtrees, as multisets of nodes -----

  ghost function Whole(f: Forest, down: map<Id, nat>, n: Id): multiset<Id>
    requires Falling(f, down) && Bearing(f, n)
    decreases down[n], 2, 0
  {
    ChildrenBelow(f, down, n);
    multiset{n} + WholeList(f, down, BearingChildren(f, n))
  }

  ghost function WholeList(f: Forest, down: map<Id, nat>, ids: seq<Id>): multiset<Id>
    requires Falling(f, down) && AllBearing(f, ids)
    decreases Top(down, ids), 1, |ids|
  {
    if ids == [] then multiset{}
    else
      TopOfInit(down, ids);
      WholeList(f, down, ids[..|ids| - 1]) + Whole(f, down, ids[|ids| - 1])
  }

  lemma {:induction false} WholeListJoin(f: Forest, down: map<Id, nat>, a: seq<Id>, b: seq<Id>)
    requires Falling(f, down) && AllBearing(f, a) && AllBearing(f, b)
    ensures AllBearing(f, a + b) && WholeList(f, down, a + b) == WholeList(f, down, a) + WholeList(f, down, b)
    decreases |b|
  {
    if b == [] {
      assert a + b == a;
    } else {
      assert (a + b)[..|a + b| - 1] == a + b[..|b| - 1];
      WholeListJoin(f, down, a, b[..|b| - 1]);
    }
  }

  /** One entry, wherever it stands, contributes its own subtree. */
  lemma WholeListWithout(f: Forest, down: map<Id, nat>, front: seq<Id>, n: Id, back: seq<Id>)
    requires Falling(f, down) && AllBearing(f, front) && AllBearing(f, back) && Bearing(f, n)
    ensures AllBearing(f, front + [n] + back) && AllBearing(f, front + back)
    ensures WholeList(f, down, front + [n] + back) == WholeList(f, down, front + back) + Whole(f, down, n)
  {
    WholeListJoin(f, down, front, back);
    WholeListJoin(f, down, front, [n]);
    WholeListJoin(f, down, front + [n], back);
    assert (front + [n])[..|front|] == front;
  }

  lemma PermutedBears(f: Forest, a: seq<Id>, b: seq<Id>)
    requires AllBearing(f, a) && multiset(a) == multiset(b)
    ensures AllBearing(f, b)
  {
    forall n | n in b ensures Bearing(f, n) {
      assert n in multiset(b);
    }
  }

  lemma {:induction false} WholeListPermuted(f: Forest, down: map<Id, nat>, a: seq<Id>, b: seq<Id>)
    requires Falling(f, down) && AllBearing(f, a) && multiset(a) == multiset(b)
    ensures AllBearing(f, b) && WholeList(f, down, a) == WholeList(f, down, b)
    decreases |a|
  {
    PermutedBears(f, a, b);
    if a == [] {
      assert |multiset(b)| == |b| == 0;
    } else {
      var init, last := a[..|a| - 1], a[|a| - 1];
      var front, back := WithoutOne(a, b);
      WholeListPermuted(f, down, init, front + back);
      WholeListWithout(f, down, front, last, back);
    }
  }

  /** In a spread list each node below appears once. */
  lemma {:induction false} WholeOnce(f: Forest, down: map<Id, nat>, ids: seq<Id>, x: Id)
    requires Falling(f, down) && AllBearing(f, ids) && Spread(f, down, ids)
    ensures WholeList(f, down, ids)[x] == if x in BelowList(f, down, ids) then 1 else 0
    decreases Top(down, ids), |ids|
  {
    if ids != [] {
      var init, last := ids[..|ids| - 1], ids[|ids| - 1];
      assert ids == init + [last];
      TopOfInit(down, ids);
      SpreadSplit(f, down, init, [last]);
      BelowListIs(f, down, [last], x);
      WholeOnce(f, down, init, x);
      ChildrenBelow(f, down, last);
      assert SpreadNode(f, down, ids[|ids| - 1]);
      WholeOnce(f, down, BearingChildren(f, last), x);
    }
  }

  // ----- siblings are paired or left over, once each -----

  function PairIds(side: Side, pairs: seq<Pair>): seq<Id> {
    seq(|pairs|, i requires 0 <= i < |pairs| => if side == RecordSide then pairs[i].record else pairs[i].replay)
  }

  function LeftIds(left: seq<Left>): seq<Id> {
    seq(|left|, i requires 0 <= i < |left| => left[i].id)
  }

  function ForestOf(side: Side, s: Sides): Forest {
    if side == RecordSide then s.record else s.replay
  }

  function AllLeft(side: Side, s: Sides, rIds: seq<Id>, pIds: seq<Id>, names: seq<string>): seq<Left> {
    if side == RecordSide then AllLeftRecord(s, rIds, pIds, names) else AllLeftReplay(s, rIds, pIds, names)
  }

  function Accounted(side: Side, s: Sides, rIds: seq<Id>, pIds: seq<Id>, names: seq<string>): seq<Id> {
    PairIds(side, AllPairs(s, rIds, pIds, names)) + LeftIds(AllLeft(side, s, rIds, pIds, names))
  }

  lemma {:induction false} NamedCount(f: Forest, ids: seq<Id>, name: string, x: Id)
    ensures multiset(Named(f, ids, name))[x] == if x in f.nodes && f.nodes[x].spanName == name then multiset(ids)[x] else 0
  {
    if ids != [] {
      NamedCount(f, ids[..|ids| - 1], name, x);
      assert ids == ids[..|ids| - 1] + [ids[|ids| - 1]];
    }
  }

  function LeftOf(side: Side, s: Sides, rIds: seq<Id>, pIds: seq<Id>, name: string): seq<Left> {
    if side == RecordSide then LeftRecord(s, rIds, pIds, name) else LeftReplay(s, rIds, pIds, name)
  }

  /** One name's pairs and leftovers split its group in two. */
  lemma GroupSplit(side: Side, s: Sides, rIds: seq<Id>, pIds: seq<Id>, name: string)
    ensures PairIds(side, PairsOf(s, rIds, pIds, name)) + LeftIds(LeftOf(side, s, rIds, pIds, name)) ==
            Named(ForestOf(side, s), if side == RecordSide then rIds else pIds, name)
  {
  }

  lemma NamesGrow(side: Side, s: Sides, rIds: seq<Id>, pIds: seq<Id>, init: seq<string>, name: string)
    ensures PairIds(side, AllPairs(s, rIds, pIds, init + [name])) ==
            PairIds(side, AllPairs(s, rIds, pIds, init)) + PairIds(side, PairsOf(s, rIds, pIds, name))
    ensures LeftIds(AllLeft(side, s, rIds, pIds, init + [name])) ==
            LeftIds(AllLeft(side, s, rIds, pIds, init)) + LeftIds(LeftOf(side, s, rIds, pIds, name))
  {
    assert (init + [name])[..|init|] == init;
    var before, here := AllLeft(side, s, rIds, pIds, init), LeftOf(side, s, rIds, pIds, name);
    assert AllLeft(side, s, rIds, pIds, init + [name]) == before + here;
    assert LeftIds(before + here) == LeftIds(before) + LeftIds(here);
    var pairs, more := AllPairs(s, rIds, pIds, init), PairsOf(s, rIds, pIds, name);
    assert PairIds(side, pairs + more) == PairIds(side, pairs) + PairIds(side, more);
  }

  lemma GroupAccounted(side: Side, s: Sides, rIds: seq<Id>, pIds: seq<Id>, init: seq<string>, name: string)
    ensures
      multiset(Accounted(side, s, rIds, pIds, init + [name])) ==
      multiset(Accounted(side, s, rIds, pIds, init)) + multiset(Named(ForestOf(side, s), if side == RecordSide then rIds else pIds, name))
  {
    NamesGrow(side, s, rIds, pIds, init, name);
    GroupSplit(side, s, rIds, pIds, name);
  }

  lemma {:induction false} AccountedCount(side: Side, s: Sides, rIds: seq<Id>, pIds: seq<Id>, names: seq<string>, x: Id)
    requires NoDup(names)
    ensures
      var f, ids := ForestOf(side, s), if side == RecordSide then rIds else pIds;
      multiset(Accounted(side, s, rIds, pIds, names))[x] ==
      if x in f.nodes && f.nodes[x].spanName in names then multiset(ids)[x] else 0
  {
    if names != [] {
      var init, name := names[..|names| - 1], names[|names| - 1];
      assert names == init + [name];
      NoDupParts(init, [name]);
      assert name !in init;
      AccountedCount(side, s, rIds, pIds, init, x);
      GroupAccounted(side, s, rIds, pIds, init, name);
      NamedCount(ForestOf(side, s), if side == RecordSide then rIds else pIds, name, x);
    }
  }

  /** Pairs and leftovers together hold each sibling as often as the sibling list does. */
  lemma SiblingsAccounted(side: Side, s: Sides, rIds: seq<Id>, pIds: seq<Id>)
    requires AllBearing(s.record, rIds) && AllBearing(s.replay, pIds)
    ensures multiset(Accounted(side, s, rIds, pIds, GroupOrder(s, rIds, pIds))) == multiset(if side == RecordSide then rIds else pIds)
  {
    var f, ids := ForestOf(side, s), if side == RecordSide then rIds else pIds;
    var order := GroupOrder(s, rIds, pIds);
    OrderCovers(s, rIds, pIds, "");
    forall x ensures multiset(Accounted(side, s, rIds, pIds, order))[x] == multiset(ids)[x] {
      AccountedCount(side, s, rIds, pIds, order, x);
      if x in ids {
        NamedIs(f, ids, f.nodes[x].spanName);
        assert x in Named(f, ids, f.nodes[x].spanName);
        OrderCovers(s, rIds, pIds, f.nodes[x].spanName);
      }
    }
  }

  // ----- what the rows cover -----

  /** The nodes one row stands for on one side: its own node, or a whole subtree. */
  ghost function RowCover(side: Side, f: Forest, down: map<Id, nat>, row: AlignedNode): multiset<Id>
    requires Falling(f, down)
  {
    var id := IdOn(side, row);
    if id.None? then multiset{}
    else if Collapsed(side, row) && Bearing(f, id.value) then Whole(f, down, id.value)
    else multiset{id.value}
  }

  ghost function Cover(side: Side, f: Forest, down: map<Id, nat>, rows: seq<AlignedNode>): multiset<Id>
    requires Falling(f, down)
  {
    if rows == [] then multiset{}
    else Cover(side, f, down, rows[..|rows| - 1]) + RowCover(side, f, down, rows[|rows| - 1])
  }

  lemma {:induction false} CoverJoin(side: Side, f: Forest, down: map<Id, nat>, a: seq<AlignedNode>, b: seq<AlignedNode>)
    requires Falling(f, down)
    ensures Cover(side, f, down, a + b) == Cover(side, f, down, a) + Cover(side, f, down, b)
    decreases |b|
  {
    if b == [] {
      assert a + b == a;
    } else {
      assert (a + b)[..|a + b| - 1] == a + b[..|b| - 1];
      CoverJoin(side, f, down, a, b[..|b| - 1]);
    }
  }

  /** Rows that name this side only as collapsed roots `ids`, in order. */
  lemma {:induction false} CollapsedCover(side: Side, f: Forest, down: map<Id, nat>, rows: seq<AlignedNode>, ids: seq<Id>)
    requires Falling(f, down) && AllBearing(f, ids) && |rows| == |ids|
    requires forall i :: 0 <= i < |rows| ==> Collapsed(side, rows[i]) && IdOn(side, rows[i]) == Some(ids[i])
    ensures Cover(side, f, down, rows) == WholeList(f, down, ids)
    decreases |rows|
  {
    if rows != [] {
      CollapsedCover(side, f, down, rows[..|rows| - 1], ids[..|ids| - 1]);
    }
  }

  lemma {:induction false} AbsentCover(side: Side, f: Forest, down: map<Id, nat>, rows: seq<AlignedNode>)
    requires Falling(f, down) && forall i :: 0 <= i < |rows| ==> IdOn(side, rows[i]).None?
    ensures Cover(side, f, down, rows) == multiset{}
  {
    if rows != [] {
      AbsentCover(side, f, down, rows[..|rows| - 1]);
    }
  }

  lemma LeftoverRecordCover(s: Sides, down: map<Id, nat>, left: seq<Left>, right: seq<Left>)
    requires Falling(s.record, down) && LeftBearing(s.record, left) && LeftBearing(s.replay, right)
    ensures AllBearing(s.record, LeftIds(left))
    ensures Cover(RecordSide, s.record, down, PrunedRows(s, left) + NovelRows(s, right)) == WholeList(s.record, down, LeftIds(left))
  {
    CoverJoin(RecordSide, s.record, down, PrunedRows(s, left), NovelRows(s, right));
    CollapsedCover(RecordSide, s.record, down, PrunedRows(s, left), LeftIds(left));
    AbsentCover(RecordSide, s.record, down, NovelRows(s, right));
  }

  lemma LeftoverReplayCover(s: Sides, down: map<Id, nat>, left: seq<Left>, right: seq<Left>)
    requires Falling(s.replay, down) && LeftBearing(s.record, left) && LeftBearing(s.replay, right)
    ensures AllBearing(s.replay, LeftIds(right))
    ensures Cover(ReplaySide, s.replay, down, PrunedRows(s, left) + NovelRows(s, right)) == WholeList(s.replay, down, LeftIds(right))
  {
    CoverJoin(ReplaySide, s.replay, down, PrunedRows(s, left), NovelRows(s, right));
    AbsentCover(ReplaySide, s.replay, down, PrunedRows(s, left));
    CollapsedCover(ReplaySide, s.replay, down, NovelRows(s, right), LeftIds(right));
  }

  lemma LeftoverCover(side: Side, s: Sides, down: map<Id, nat>, left: seq<Left>, right: seq<Left>)
    requires Falling(ForestOf(side, s), down) && LeftBearing(s.record, left) && LeftBearing(s.replay, right)
    ensures AllBearing(ForestOf(side, s), LeftIds(if side == RecordSide then left else right))
    ensures Cover(side, ForestOf(side, s), down, LeftoverOutput(s, left, right).rows) ==
            WholeList(ForestOf(side, s), down, LeftIds(if side == RecordSide then left else right))
  {
    if side == RecordSide {
      LeftoverRecordCover(s, down, left, right);
    } else {
      LeftoverReplayCover(s, down, left, right);
    }
  }

  lemma PairIdsBearing(side: Side, s: Sides, pairs: seq<Pair>)
    requires PairsBearing(s, pairs)
    ensures AllBearing(ForestOf(side, s), PairIds(side, pairs))
  {
    forall n | n in PairIds(side, pairs) ensures Bearing(ForestOf(side, s), n) {
      var i :| 0 <= i < |pairs| && PairIds(side, pairs)[i] == n;
      assert pairs[i] in pairs;
    }
  }

  lemma MatchedCover(side: Side, s: Sides, down: map<Id, nat>, p: Pair, rest: seq<AlignedNode>)
    requires Falling(ForestOf(side, s), down) && p.record in s.record.nodes
    ensures Cover(side, ForestOf(side, s), down, [MatchedRow(s, p)] + rest) ==
            multiset{if side == RecordSide then p.record else p.replay} + Cover(side, ForestOf(side, s), down, rest)
  {
    CoverJoin(side, ForestOf(side, s), down, [MatchedRow(s, p)], rest);
    assert [MatchedRow(s, p)][..0] == [];
  }

  lemma {:induction false} OnePairCover(side: Side, s: Sides, down: map<Id, nat>, p: Pair, rIds: seq<Id>, pIds: seq<Id>)
    requires Walkable(s) && Falling(ForestOf(side, s), down) && Bearing(s.record, p.record) && Bearing(s.replay, p.replay)
    requires rIds == BearingChildren(s.record, p.record) && pIds == BearingChildren(s.replay, p.replay)
    requires AllBearing(s.record, rIds) && AllBearing(s.replay, pIds) && Top(s.down, rIds) <= s.down[p.record]
    ensures Cover(side, ForestOf(side, s), down, [MatchedRow(s, p)] + SiblingOutput(s, rIds, pIds).rows) ==
            Whole(ForestOf(side, s), down, if side == RecordSide then p.record else p.replay)
    decreases s.down[p.record], 2, 0
  {
    SiblingCover(side, s, down, rIds, pIds);
    MatchedCover(side, s, down, p, SiblingOutput(s, rIds, pIds).rows);
  }

  lemma PairRowsAre(s: Sides, p: Pair)
    requires Walkable(s) && Bearing(s.record, p.record) && Bearing(s.replay, p.replay)
    ensures
      var rIds, pIds := BearingChildren(s.record, p.record), BearingChildren(s.replay, p.replay);
      && AllBearing(s.record, rIds) && AllBearing(s.replay, pIds) && Top(s.down, rIds) <= s.down[p.record]
      && OnePairOutput(s, p).rows == [MatchedRow(s, p)] + SiblingOutput(s, rIds, pIds).rows
  {
    ChildrenBelow(s.record, s.down, p.record);
    EventBearingIs(s.replay, s.replay.nodes[p.replay].children);
  }

  lemma LastPair(side: Side, s: Sides, pairs: seq<Pair>)
    requires PairsBearing(s, pairs) && pairs != []
    ensures
      var init, p := pairs[..|pairs| - 1], pairs[|pairs| - 1];
      && PairsBearing(s, init) && p in pairs && Top(s.down, Records(init)) <= Top(s.down, Records(pairs))
      && (p.record in s.down ==> s.down[p.record] < Top(s.down, Records(pairs)))
      && PairIds(side, pairs) == PairIds(side, init) + [if side == RecordSide then p.record else p.replay]
  {
    InitLower(s, pairs);
    assert Records(pairs)[|pairs| - 1] in Records(pairs);
  }

  lemma {:induction false} PairsCover(side: Side, s: Sides, down: map<Id, nat>, pairs: seq<Pair>)
    requires Walkable(s) && Falling(ForestOf(side, s), down) && PairsBearing(s, pairs)
    ensures AllBearing(ForestOf(side, s), PairIds(side, pairs))
    ensures Cover(side, ForestOf(side, s), down, PairOutput(s, pairs).rows) == WholeList(ForestOf(side, s), down, PairIds(side, pairs))
    decreases Top(s.down, Records(pairs)), 0, |pairs|
  {
    PairIdsBearing(side, s, pairs);
    if pairs != [] {
      var init, p := pairs[..|pairs| - 1], pairs[|pairs| - 1];
      LastPair(side, s, pairs);
      PairsCover(side, s, down, init);
      PairRowsAre(s, p);
      OnePairCover(side, s, down, p, BearingChildren(s.record, p.record), BearingChildren(s.replay, p.replay));
      PairOutputLast(s, pairs);
      CoverJoin(side, ForestOf(side, s), down, PairOutput(s, init).rows, OnePairOutput(s, p).rows);
      WholeListSnoc(ForestOf(side, s), down, PairIds(side, init), if side == RecordSide then p.record else p.replay);
    }
  }

  lemma WholeListSnoc(f: Forest, down: map<Id, nat>, ids: seq<Id>, n: Id)
    requires Falling(f, down) && AllBearing(f, ids) && Bearing(f, n)
    ensures AllBearing(f, ids + [n]) && WholeList(f, down, ids + [n]) == WholeList(f, down, ids) + Whole(f, down, n)
  {
    assert (ids + [n])[..|ids|] == ids;
  }

  /** The rows of two sibling lists cover each side's subtrees exactly. */
  lemma {:induction false} SiblingCover(side: Side, s: Sides, down: map<Id, nat>, rIds: seq<Id>, pIds: seq<Id>)
    requires Walkable(s) && Falling(ForestOf(side, s), down) && AllBearing(s.record, rIds) && AllBearing(s.replay, pIds)
    ensures Cover(side, ForestOf(side, s), down, SiblingOutput(s, rIds, pIds).rows) ==
            WholeList(ForestOf(side, s), down, if side == RecordSide then rIds else pIds)
    decreases Top(s.down, rIds), 1, 0
  {
    var f, order := ForestOf(side, s), GroupOrder(s, rIds, pIds);
    var pairs := AllPairs(s, rIds, pIds, order);
    var left, right := AllLeftRecord(s, rIds, pIds, order), AllLeftReplay(s, rIds, pIds, order);
    PairsInside(s, rIds, pIds, order);
    PairsLower(s, rIds, pairs);
    PairsCover(side, s, down, pairs);
    LeftoverCover(side, s, down, left, right);
    CoverJoin(side, f, down, PairOutput(s, pairs).rows, LeftoverOutput(s, left, right).rows);
    WholeListJoin(f, down, PairIds(side, pairs), LeftIds(AllLeft(side, s, rIds, pIds, order)));
    SiblingsAccounted(side, s, rIds, pIds);
    WholeListPermuted(f, down, Accounted(side, s, rIds, pIds, order), if side == RecordSide then rIds else pIds);
  }
}
