/** Alignment as a full outer join. An event-bearing node's address lists, from its root down, each
    span name and the index among the event-bearing siblings of that name; two forests align exactly
    where their addresses agree. */
module AddressJoin {
  import opened Common
  import opened ForestModel
  import opened AlignmentSpec

  datatype Step = Step(name: string, index: nat)

  type Address = seq<Step>

  /** The same-named siblings at the last step of an address. */
  function GroupAt(f: Forest, ids: seq<Id>, address: Address): seq<Id>
    decreases |address|
  {
    if address == [] then []
    else
      var group := Named(f, ids, address[0].name);
      if |address| == 1 then group
      else if address[0].index < |group| then GroupAt(f, BearingChildren(f, group[address[0].index]), address[1..])
      else []
  }

  /** The node an address names, starting from the sibling set `ids`. */
  function Resolve(f: Forest, ids: seq<Id>, address: Address): Option<Id> {
    if address == [] then None
    else
      var group, last := GroupAt(f, ids, address), address[|address| - 1];
      if last.index < |group| then Some(group[last.index]) else None
  }

  /** The place an address hangs from exists: the top of the forest, or a resolved parent. */
  predicate ParentResolves(f: Forest, ids: seq<Id>, address: Address) {
    |address| == 1 || (|address| > 1 && Resolve(f, ids, address[..|address| - 1]).Some?)
  }

  /** The row the join puts at an address: both sides, or one side hanging from a matched parent. */
  function RowAt(record: Forest, replay: Forest, rIds: seq<Id>, pIds: seq<Id>, address: Address): Option<AlignedNode> {
    var low := GroupLow(GroupAt(record, rIds, address), GroupAt(replay, pIds, address));
    match (Resolve(record, rIds, address), Resolve(replay, pIds, address))
    case (Some(r), Some(p)) =>
      if r in record.nodes then Some(AlignedNode(Some(r), Some(p), record.nodes[r].spanName, Matched, low)) else None
    case (Some(r), None) =>
      if r in record.nodes && ParentResolves(replay, pIds, address)
      then Some(AlignedNode(Some(r), None, record.nodes[r].spanName, PrunedSubtree(record.nodes[r].subtreeEvents), low)) else None
    case (None, Some(p)) =>
      if p in replay.nodes && ParentResolves(record, rIds, address)
      then Some(AlignedNode(None, Some(p), replay.nodes[p].spanName, NovelSubtree(replay.nodes[p].subtreeEvents), low)) else None
    case (None, None) => None
  }

  // ----- stepping down an address -----

  lemma GroupStep(f: Forest, ids: seq<Id>, step: Step, rest: Address)
    requires rest != []
    ensures GroupAt(f, ids, [step] + rest) ==
            var group := Named(f, ids, step.name);
            if step.index < |group| then GroupAt(f, BearingChildren(f, group[step.index]), rest) else []
  {
    assert ([step] + rest)[1..] == rest;
  }

  lemma ResolveStep(f: Forest, ids: seq<Id>, step: Step, rest: Address)
    requires rest != []
    ensures Resolve(f, ids, [step] + rest) ==
            var group := Named(f, ids, step.name);
            if step.index < |group| then Resolve(f, BearingChildren(f, group[step.index]), rest) else None
    ensures ParentResolves(f, ids, [step] + rest) <==>
            var group := Named(f, ids, step.name);
            step.index < |group| && ParentResolves(f, BearingChildren(f, group[step.index]), rest)
  {
    GroupStep(f, ids, step, rest);
    var whole := [step] + rest;
    assert whole[|whole| - 1] == rest[|rest| - 1];
    var parent := whole[..|whole| - 1];
    if |rest| == 1 {
      assert parent == [step];
    } else {
      assert parent == [step] + rest[..|rest| - 1];
      GroupStep(f, ids, step, rest[..|rest| - 1]);
    }
  }

  lemma RowStep(record: Forest, replay: Forest, rIds: seq<Id>, pIds: seq<Id>, step: Step, rest: Address)
    requires rest != []
    ensures RowAt(record, replay, rIds, pIds, [step] + rest) ==
            var rs, ps := Named(record, rIds, step.name), Named(replay, pIds, step.name);
            if step.index < |rs| && step.index < |ps|
            then RowAt(record, replay, BearingChildren(record, rs[step.index]), BearingChildren(replay, ps[step.index]), rest)
            else None
  {
    GroupStep(record, rIds, step, rest);
    GroupStep(replay, pIds, step, rest);
    ResolveStep(record, rIds, step, rest);
    ResolveStep(replay, pIds, step, rest);
  }

  /** What an address one step long resolves to. */
  lemma OneStep(f: Forest, ids: seq<Id>, step: Step)
    ensures GroupAt(f, ids, [step]) == Named(f, ids, step.name)
    ensures Resolve(f, ids, [step]) == if step.index < |Named(f, ids, step.name)| then Some(Named(f, ids, step.name)[step.index]) else None
    ensures step.index < |Named(f, ids, step.name)| ==> Named(f, ids, step.name)[step.index] in f.nodes
  {
    NamedIs(f, ids, step.name);
    if step.index < |Named(f, ids, step.name)| {
      assert Named(f, ids, step.name)[step.index] in Named(f, ids, step.name);
    }
  }

  // ----- rows are the join -----

  lemma PairOutputLast(s: Sides, pairs: seq<Pair>)
    requires Walkable(s) && PairsBearing(s, pairs) && pairs != []
    ensures PairsBearing(s, pairs[..|pairs| - 1])
    ensures PairOutput(s, pairs).rows == PairOutput(s, pairs[..|pairs| - 1]).rows + OnePairOutput(s, pairs[|pairs| - 1]).rows
  {
  }

  lemma {:induction false} PairRowsInside(s: Sides, pairs: seq<Pair>, p: Pair, row: AlignedNode)
    requires Walkable(s) && PairsBearing(s, pairs) && p in pairs && row in OnePairOutput(s, p).rows
    ensures row in PairOutput(s, pairs).rows
    decreases |pairs|
  {
    PairOutputLast(s, pairs);
    if p != pairs[|pairs| - 1] {
      PairRowsInside(s, pairs[..|pairs| - 1], p, row);
    }
  }

  lemma {:induction false} PairOf(s: Sides, pairs: seq<Pair>, row: AlignedNode) returns (p: Pair)
    requires Walkable(s) && PairsBearing(s, pairs) && row in PairOutput(s, pairs).rows
    ensures p in pairs && row in OnePairOutput(s, p).rows
    decreases |pairs|
  {
    PairOutputLast(s, pairs);
    if row in OnePairOutput(s, pairs[|pairs| - 1]).rows {
      p := pairs[|pairs| - 1];
    } else {
      p := PairOf(s, pairs[..|pairs| - 1], row);
    }
  }

  ghost predicate Joins(s: Sides, rIds: seq<Id>, pIds: seq<Id>, row: AlignedNode) {
    exists address: Address :: address != [] && RowAt(s.record, s.replay, rIds, pIds, address) == Some(row)
  }

  lemma MatchedAtOneStep(s: Sides, rIds: seq<Id>, pIds: seq<Id>, name: string, k: nat, p: Pair)
    requires Kth(s.record, rIds, name, k, p.record) && Kth(s.replay, pIds, name, k, p.replay) && p.low == Low(s, rIds, pIds, name)
    requires p.record in s.record.nodes
    ensures RowAt(s.record, s.replay, rIds, pIds, [Step(name, k)]) == Some(MatchedRow(s, p))
  {
    OneStep(s.record, rIds, Step(name, k));
    OneStep(s.replay, pIds, Step(name, k));
  }

  lemma LeftAtOneStep(s: Sides, rIds: seq<Id>, pIds: seq<Id>, name: string, k: nat, l: Left)
    requires l.low == Low(s, rIds, pIds, name)
    ensures Kth(s.record, rIds, name, k, l.id) && k >= |Named(s.replay, pIds, name)| && l.id in s.record.nodes ==>
              RowAt(s.record, s.replay, rIds, pIds, [Step(name, k)]) == Some(PrunedRow(s, l))
    ensures Kth(s.replay, pIds, name, k, l.id) && k >= |Named(s.record, rIds, name)| && l.id in s.replay.nodes ==>
              RowAt(s.record, s.replay, rIds, pIds, [Step(name, k)]) == Some(NovelRow(s, l))
  {
    OneStep(s.record, rIds, Step(name, k));
    OneStep(s.replay, pIds, Step(name, k));
  }

  lemma PrunedJoins(s: Sides, rIds: seq<Id>, pIds: seq<Id>, names: seq<string>, l: Left)
    requires l in AllLeftRecord(s, rIds, pIds, names) && l.id in s.record.nodes
    ensures Joins(s, rIds, pIds, PrunedRow(s, l))
  {
    LeftRecordMembers(s, rIds, pIds, names, l);
    var name, k: nat :| name in names && Kth(s.record, rIds, name, k, l.id) && k >= |Named(s.replay, pIds, name)|
                        && l.low == Low(s, rIds, pIds, name);
    LeftAtOneStep(s, rIds, pIds, name, k, l);
    assert [Step(name, k)] != [];
  }

  lemma NovelJoins(s: Sides, rIds: seq<Id>, pIds: seq<Id>, names: seq<string>, l: Left)
    requires l in AllLeftReplay(s, rIds, pIds, names) && l.id in s.replay.nodes
    ensures Joins(s, rIds, pIds, NovelRow(s, l))
  {
    LeftReplayMembers(s, rIds, pIds, names, l);
    var name, k: nat :| name in names && Kth(s.replay, pIds, name, k, l.id) && k >= |Named(s.record, rIds, name)|
                        && l.low == Low(s, rIds, pIds, name);
    LeftAtOneStep(s, rIds, pIds, name, k, l);
    assert [Step(name, k)] != [];
  }

  /** Every leftover row is the join's row at some one-step address. */
  lemma LeftoversJoin(s: Sides, rIds: seq<Id>, pIds: seq<Id>, names: seq<string>, left: seq<Left>, right: seq<Left>, row: AlignedNode)
    requires left == AllLeftRecord(s, rIds, pIds, names) && right == AllLeftReplay(s, rIds, pIds, names)
    requires LeftBearing(s.record, left) && LeftBearing(s.replay, right)
    requires row in LeftoverOutput(s, left, right).rows
    ensures Joins(s, rIds, pIds, row)
  {
    if row in PrunedRows(s, left) {
      var i :| 0 <= i < |left| && PrunedRows(s, left)[i] == row;
      PrunedJoins(s, rIds, pIds, names, left[i]);
    } else {
      var i :| 0 <= i < |right| && NovelRows(s, right)[i] == row;
      NovelJoins(s, rIds, pIds, names, right[i]);
    }
  }

  lemma JoinsBy(s: Sides, rIds: seq<Id>, pIds: seq<Id>, address: Address, row: AlignedNode)
    requires address != [] && RowAt(s.record, s.replay, rIds, pIds, address) == Some(row)
    ensures Joins(s, rIds, pIds, row)
  {
  }

  /** A row below a matched pair, one step further up. */
  lemma LiftRow(s: Sides, rIds: seq<Id>, pIds: seq<Id>, name: string, k: nat, r: Id, p: Id, rest: Address, row: AlignedNode)
    requires Kth(s.record, rIds, name, k, r) && Kth(s.replay, pIds, name, k, p) && rest != []
    requires RowAt(s.record, s.replay, BearingChildren(s.record, r), BearingChildren(s.replay, p), rest) == Some(row)
    ensures RowAt(s.record, s.replay, rIds, pIds, [Step(name, k)] + rest) == Some(row)
  {
    RowStep(s.record, s.replay, rIds, pIds, Step(name, k), rest);
  }

  /** A join below a matched pair is a join of the siblings the pair is among. */
  lemma LiftJoin(s: Sides, rIds: seq<Id>, pIds: seq<Id>, name: string, k: nat, r: Id, p: Id, row: AlignedNode)
    requires Kth(s.record, rIds, name, k, r) && Kth(s.replay, pIds, name, k, p)
    requires Joins(s, BearingChildren(s.record, r), BearingChildren(s.replay, p), row)
    ensures Joins(s, rIds, pIds, row)
  {
    var rest: Address :| rest != [] && RowAt(s.record, s.replay, BearingChildren(s.record, r), BearingChildren(s.replay, p), rest) == Some(row);
    LiftRow(s, rIds, pIds, name, k, r, p, rest, row);
    JoinsBy(s, rIds, pIds, [Step(name, k)] + rest, row);
  }

  /** A pair's rows join, once the rows below it do. */
  lemma PairJoins(s: Sides, rIds: seq<Id>, pIds: seq<Id>, names: seq<string>, p: Pair, row: AlignedNode)
    requires Walkable(s) && p in AllPairs(s, rIds, pIds, names) && Bearing(s.record, p.record) && Bearing(s.replay, p.replay)
    requires row == MatchedRow(s, p) || Joins(s, BearingChildren(s.record, p.record), BearingChildren(s.replay, p.replay), row)
    ensures Joins(s, rIds, pIds, row)
  {
    PairMembers(s, rIds, pIds, names, p);
    var name, k: nat :| name in names && Kth(s.record, rIds, name, k, p.record) && Kth(s.replay, pIds, name, k, p.replay)
                        && p.low == Low(s, rIds, pIds, name);
    if row == MatchedRow(s, p) {
      MatchedAtOneStep(s, rIds, pIds, name, k, p);
      assert [Step(name, k)] != [];
    } else {
      LiftJoin(s, rIds, pIds, name, k, p.record, p.replay, row);
    }
  }

  lemma {:induction false} BelowPairJoins(s: Sides, p: Pair, row: AlignedNode)
    requires Walkable(s) && Bearing(s.record, p.record) && Bearing(s.replay, p.replay) && row in OnePairOutput(s, p).rows
    ensures row == MatchedRow(s, p) || Joins(s, BearingChildren(s.record, p.record), BearingChildren(s.replay, p.replay), row)
    decreases s.down[p.record], 1
  {
    if row != MatchedRow(s, p) {
      ChildrenBelow(s.record, s.down, p.record);
      EventBearingIs(s.replay, s.replay.nodes[p.replay].children);
      RowsJoin(s, BearingChildren(s.record, p.record), BearingChildren(s.replay, p.replay), row);
    }
  }

  lemma {:induction false} RowsJoin(s: Sides, rIds: seq<Id>, pIds: seq<Id>, row: AlignedNode)
    requires Walkable(s) && AllBearing(s.record, rIds) && AllBearing(s.replay, pIds)
    requires row in SiblingOutput(s, rIds, pIds).rows
    ensures Joins(s, rIds, pIds, row)
    decreases Top(s.down, rIds), 0
  {
    var order := GroupOrder(s, rIds, pIds);
    var pairs := AllPairs(s, rIds, pIds, order);
    PairsInside(s, rIds, pIds, order);
    if row in PairOutput(s, pairs).rows {
      var p := PairOf(s, pairs, row);
      BelowPairJoins(s, p, row);
      PairJoins(s, rIds, pIds, order, p, row);
    } else {
      LeftoversJoin(s, rIds, pIds, order, AllLeftRecord(s, rIds, pIds, order), AllLeftReplay(s, rIds, pIds, order), row);
    }
  }

  lemma PairListedAtOneStep(s: Sides, rIds: seq<Id>, pIds: seq<Id>, name: string, k: nat)
    requires Walkable(s) && AllBearing(s.record, rIds) && AllBearing(s.replay, pIds)
    requires k < |Named(s.record, rIds, name)| && k < |Named(s.replay, pIds, name)|
    ensures
      var p := Pair(Named(s.record, rIds, name)[k], Named(s.replay, pIds, name)[k], Low(s, rIds, pIds, name));
      Bearing(s.record, p.record) && MatchedRow(s, p) in SiblingOutput(s, rIds, pIds).rows
  {
    var p := Pair(Named(s.record, rIds, name)[k], Named(s.replay, pIds, name)[k], Low(s, rIds, pIds, name));
    PairListed(s, rIds, pIds, name, k, p);
    PairRowsListed(s, rIds, pIds, p, MatchedRow(s, p));
  }

  lemma RecordLeftListed(s: Sides, rIds: seq<Id>, pIds: seq<Id>, name: string, k: nat)
    requires Walkable(s) && AllBearing(s.record, rIds) && AllBearing(s.replay, pIds)
    requires |Named(s.replay, pIds, name)| <= k < |Named(s.record, rIds, name)|
    ensures
      var l := Left(Named(s.record, rIds, name)[k], Low(s, rIds, pIds, name));
      Bearing(s.record, l.id) && PrunedRow(s, l) in SiblingOutput(s, rIds, pIds).rows
  {
    var order := GroupOrder(s, rIds, pIds);
    var left, l := AllLeftRecord(s, rIds, pIds, order), Left(Named(s.record, rIds, name)[k], Low(s, rIds, pIds, name));
    OrderCovers(s, rIds, pIds, name);
    LeftRecordMembers(s, rIds, pIds, order, l);
    assert Kth(s.record, rIds, name, k, l.id);
    KthIn(s.record, rIds, name, k, l.id);
    PairsInside(s, rIds, pIds, order);
    var i :| 0 <= i < |left| && left[i] == l;
    assert PrunedRows(s, left)[i] == PrunedRow(s, l);
  }

  lemma ReplayLeftListed(s: Sides, rIds: seq<Id>, pIds: seq<Id>, name: string, k: nat)
    requires Walkable(s) && AllBearing(s.record, rIds) && AllBearing(s.replay, pIds)
    requires |Named(s.record, rIds, name)| <= k < |Named(s.replay, pIds, name)|
    ensures
      var l := Left(Named(s.replay, pIds, name)[k], Low(s, rIds, pIds, name));
      Bearing(s.replay, l.id) && NovelRow(s, l) in SiblingOutput(s, rIds, pIds).rows
  {
    var order := GroupOrder(s, rIds, pIds);
    var right, l := AllLeftReplay(s, rIds, pIds, order), Left(Named(s.replay, pIds, name)[k], Low(s, rIds, pIds, name));
    OrderCovers(s, rIds, pIds, name);
    LeftReplayMembers(s, rIds, pIds, order, l);
    assert Kth(s.replay, pIds, name, k, l.id);
    KthIn(s.replay, pIds, name, k, l.id);
    PairsInside(s, rIds, pIds, order);
    var i :| 0 <= i < |right| && right[i] == l;
    assert NovelRows(s, right)[i] == NovelRow(s, l);
  }

  lemma OneStepListed(s: Sides, rIds: seq<Id>, pIds: seq<Id>, step: Step, row: AlignedNode)
    requires Walkable(s) && AllBearing(s.record, rIds) && AllBearing(s.replay, pIds)
    requires RowAt(s.record, s.replay, rIds, pIds, [step]) == Some(row)
    ensures row in SiblingOutput(s, rIds, pIds).rows
  {
    var name, k := step.name, step.index;
    OneStep(s.record, rIds, step);
    OneStep(s.replay, pIds, step);
    if k < |Named(s.record, rIds, name)| && k < |Named(s.replay, pIds, name)| {
      PairListedAtOneStep(s, rIds, pIds, name, k);
    } else if k < |Named(s.record, rIds, name)| {
      RecordLeftListed(s, rIds, pIds, name, k);
    } else {
      ReplayLeftListed(s, rIds, pIds, name, k);
    }
  }

  lemma {:induction false} JoinListed(s: Sides, rIds: seq<Id>, pIds: seq<Id>, address: Address, row: AlignedNode)
    requires Walkable(s) && AllBearing(s.record, rIds) && AllBearing(s.replay, pIds)
    requires address != [] && RowAt(s.record, s.replay, rIds, pIds, address) == Some(row)
    ensures row in SiblingOutput(s, rIds, pIds).rows
    decreases |address|, 0
  {
    var step, rest := address[0], address[1..];
    if rest == [] {
      assert address == [step];
      OneStepListed(s, rIds, pIds, step, row);
    } else {
      assert address == [step] + rest;
      RowStep(s.record, s.replay, rIds, pIds, step, rest);
      DescendListed(s, rIds, pIds, step, rest, row);
    }
  }

  lemma PairListed(s: Sides, rIds: seq<Id>, pIds: seq<Id>, name: string, k: nat, p: Pair)
    requires AllBearing(s.record, rIds) && AllBearing(s.replay, pIds)
    requires Kth(s.record, rIds, name, k, p.record) && Kth(s.replay, pIds, name, k, p.replay) && p.low == Low(s, rIds, pIds, name)
    ensures p in AllPairs(s, rIds, pIds, GroupOrder(s, rIds, pIds))
    ensures Bearing(s.record, p.record) && Bearing(s.replay, p.replay)
  {
    OrderCovers(s, rIds, pIds, name);
    PairMembers(s, rIds, pIds, GroupOrder(s, rIds, pIds), p);
    KthIn(s.record, rIds, name, k, p.record);
    KthIn(s.replay, pIds, name, k, p.replay);
  }

  lemma PairRowsListed(s: Sides, rIds: seq<Id>, pIds: seq<Id>, p: Pair, row: AlignedNode)
    requires Walkable(s) && AllBearing(s.record, rIds) && AllBearing(s.replay, pIds)
    requires p in AllPairs(s, rIds, pIds, GroupOrder(s, rIds, pIds)) && Bearing(s.record, p.record) && Bearing(s.replay, p.replay)
    requires row in OnePairOutput(s, p).rows
    ensures row in SiblingOutput(s, rIds, pIds).rows
  {
    var order := GroupOrder(s, rIds, pIds);
    PairsInside(s, rIds, pIds, order);
    PairRowsInside(s, AllPairs(s, rIds, pIds, order), p, row);
  }

  /** What lies below one matched pair joins, and its rows are among the pair's. */
  lemma {:induction false} BelowPairListed(s: Sides, p: Pair, rest: Address, row: AlignedNode)
    requires Walkable(s) && Bearing(s.record, p.record) && Bearing(s.replay, p.replay) && rest != []
    requires RowAt(s.record, s.replay, BearingChildren(s.record, p.record), BearingChildren(s.replay, p.replay), rest) == Some(row)
    ensures row in OnePairOutput(s, p).rows
    decreases |rest|, 1
  {
    ChildrenBelow(s.record, s.down, p.record);
    EventBearingIs(s.replay, s.replay.nodes[p.replay].children);
    JoinListed(s, BearingChildren(s.record, p.record), BearingChildren(s.replay, p.replay), rest, row);
  }

  lemma {:induction false} DescendListed(s: Sides, rIds: seq<Id>, pIds: seq<Id>, step: Step, rest: Address, row: AlignedNode)
    requires Walkable(s) && AllBearing(s.record, rIds) && AllBearing(s.replay, pIds) && rest != []
    requires step.index < |Named(s.record, rIds, step.name)| && step.index < |Named(s.replay, pIds, step.name)|
    requires RowAt(s.record, s.replay, BearingChildren(s.record, Named(s.record, rIds, step.name)[step.index]),
                   BearingChildren(s.replay, Named(s.replay, pIds, step.name)[step.index]), rest) == Some(row)
    ensures row in SiblingOutput(s, rIds, pIds).rows
    decreases |rest|, 2
  {
    var p := Pair(Named(s.record, rIds, step.name)[step.index], Named(s.replay, pIds, step.name)[step.index], Low(s, rIds, pIds, step.name));
    PairListed(s, rIds, pIds, step.name, step.index, p);
    BelowPairListed(s, p, rest, row);
    PairRowsListed(s, rIds, pIds, p, row);
  }

  /** The rows of an alignment are exactly the rows of the address join. */
  lemma RowsAreTheJoin(s: Sides, rIds: seq<Id>, pIds: seq<Id>, row: AlignedNode)
    requires Walkable(s) && AllBearing(s.record, rIds) && AllBearing(s.replay, pIds)
    ensures row in SiblingOutput(s, rIds, pIds).rows <==> Joins(s, rIds, pIds, row)
  {
    if row in SiblingOutput(s, rIds, pIds).rows {
      RowsJoin(s, rIds, pIds, row);
    }
    if Joins(s, rIds, pIds, row) {
      var address: Address :| address != [] && RowAt(s.record, s.replay, rIds, pIds, address) == Some(row);
      JoinListed(s, rIds, pIds, address, row);
    }
  }
}
