/** What the walk of two forests does, pair by pair, with the pairs already met threaded through; and that on
    subtrees which never overlap it comes to the alignment's output. */
module AlignmentRun {
  import opened Common
  import opened Sequences
  import opened ForestModel
  import opened AlignmentSpec
  import opened AlignmentTree

  type SeenPairs = set<(Id, Id)>

  datatype Progress = Progress(nodes: seq<AlignedNode>, renames: seq<(Id, Id)>, flat: seq<nat>, seen: SeenPairs)

  // ----- the walk, for any acyclic record side -----

  ghost function SiblingRun(s: Sides, rIds: seq<Id>, pIds: seq<Id>, before: Progress): Progress
    requires Walkable(s) && AllBearing(s.record, rIds) && AllBearing(s.replay, pIds)
    decreases Top(s.down, rIds), 1, 0
  {
    var order := GroupOrder(s, rIds, pIds);
    var pairs := AllPairs(s, rIds, pIds, order);
    PairsInside(s, rIds, pIds, order);
    PairsLower(s, rIds, pairs);
    Plus(PairRun(s, pairs, before),
         LeftoverOutput(s, AllLeftRecord(s, rIds, pIds, order), AllLeftReplay(s, rIds, pIds, order)))
  }

  function Plus(p: Progress, out: Output): Progress {
    p.(nodes := p.nodes + out.rows, renames := p.renames + out.renames)
  }

  ghost function PairRun(s: Sides, pairs: seq<Pair>, before: Progress): Progress
    requires Walkable(s) && PairsBearing(s, pairs)
    decreases Top(s.down, Records(pairs)), 0, |pairs|
  {
    if pairs == [] then before
    else
      var init, p := pairs[..|pairs| - 1], pairs[|pairs| - 1];
      InitLower(s, pairs);
      assert Records(pairs)[|pairs| - 1] == p.record;
      OnePairRun(s, p, PairRun(s, init, before))
  }

  /** A pair met before sends its own events to the flat tier; any other is matched, and its children walked. */
  ghost function OnePairRun(s: Sides, p: Pair, before: Progress): Progress
    requires Walkable(s) && Bearing(s.record, p.record) && Bearing(s.replay, p.replay)
    decreases s.down[p.record], 2, 0
  {
    if (p.record, p.replay) in before.seen then
      before.(flat := before.flat + s.record.nodes[p.record].events + s.replay.nodes[p.replay].events)
    else
      ChildrenBelow(s.record, s.down, p.record);
      EventBearingIs(s.replay, s.replay.nodes[p.replay].children);
      SiblingRun(s, BearingChildren(s.record, p.record), BearingChildren(s.replay, p.replay), Marked(s, p, before))
  }

  ghost function Marked(s: Sides, p: Pair, before: Progress): Progress
    requires p.record in s.record.nodes
  {
    before.(nodes := before.nodes + [MatchedRow(s, p)], seen := before.seen + {(p.record, p.replay)})
  }

  lemma PairsJoin(s: Sides, a: seq<Pair>, b: seq<Pair>)
    requires PairsBearing(s, a) && PairsBearing(s, b)
    ensures PairsBearing(s, a + b)
  {
  }

  lemma PairRunSnoc(s: Sides, pairs: seq<Pair>, p: Pair, before: Progress)
    requires Walkable(s) && PairsBearing(s, pairs) && Bearing(s.record, p.record) && Bearing(s.replay, p.replay)
    ensures PairsBearing(s, pairs + [p]) && PairRun(s, pairs + [p], before) == OnePairRun(s, p, PairRun(s, pairs, before))
  {
    assert (pairs + [p])[..|pairs|] == pairs;
  }

  lemma {:induction false} PairRunJoin(s: Sides, a: seq<Pair>, b: seq<Pair>, before: Progress)
    requires Walkable(s) && PairsBearing(s, a) && PairsBearing(s, b)
    ensures PairsBearing(s, a + b) && PairRun(s, a + b, before) == PairRun(s, b, PairRun(s, a, before))
    decreases |b|
  {
    PairsJoin(s, a, b);
    if b == [] {
      assert a + b == a;
    } else {
      var init, last := b[..|b| - 1], b[|b| - 1];
      assert last in b && b == init + [last] && a + b == (a + init) + [last];
      PairRunJoin(s, a, init, before);
      PairRunSnoc(s, a + init, last, before);
      PairRunSnoc(s, init, last, PairRun(s, a, before));
    }
  }

  // ----- pairs never met twice -----

  ghost predicate SeenApart(seen: SeenPairs, ids: set<Id>) {
    forall q :: q in seen ==> q.0 !in ids
  }

  ghost predicate SeenWithin(seen': SeenPairs, seen: SeenPairs, ids: set<Id>) {
    forall q :: q in seen' ==> q in seen || q.0 in ids
  }

  /** Nothing still to be aligned overlaps, or was aligned before: so on a tree, always. */
  ghost predicate Calm(s: Sides, ids: seq<Id>, seen: SeenPairs)
    requires Walkable(s) && AllBearing(s.record, ids)
  {
    Spread(s.record, s.down, ids) && SeenApart(seen, BelowList(s.record, s.down, ids))
  }

  /** Exactly this output was added, no event went to the flat tier, and only nodes in `below` were met. */
  ghost predicate Advanced(before: Progress, after: Progress, out: Output, below: set<Id>) {
    && after.nodes == before.nodes + out.rows
    && after.renames == before.renames + out.renames
    && after.flat == before.flat
    && SeenWithin(after.seen, before.seen, below)
  }

  lemma AdvancedTwice(a: Progress, b: Progress, c: Progress, r1: Output, r2: Output, b1: set<Id>, b2: set<Id>)
    requires Advanced(a, b, r1, b1) && Advanced(b, c, r2, b2)
    ensures Advanced(a, c, Then(r1, r2), b1 + b2)
  {
  }

  ghost predicate CalmPair(s: Sides, p: Pair, seen: SeenPairs)
    requires Walkable(s) && Bearing(s.record, p.record)
  {
    SpreadNode(s.record, s.down, p.record) && SeenApart(seen, Below(s.record, s.down, p.record))
  }

  lemma RecordsBearing(s: Sides, pairs: seq<Pair>)
    requires PairsBearing(s, pairs)
    ensures AllBearing(s.record, Records(pairs))
  {
    forall n | n in Records(pairs) ensures Bearing(s.record, n) {
      var i :| 0 <= i < |pairs| && Records(pairs)[i] == n;
      assert pairs[i] in pairs;
    }
  }

  lemma BelowEarlier(s: Sides, pairs: seq<Pair>, i: nat, x: Id)
    requires Walkable(s) && PairsBearing(s, pairs) && i < |pairs|
    requires AllBearing(s.record, Records(pairs)) && Spread(s.record, s.down, Records(pairs))
    requires AllBearing(s.record, Records(pairs[..i])) && x in BelowList(s.record, s.down, Records(pairs[..i]))
    ensures Bearing(s.record, pairs[i].record) && x !in Below(s.record, s.down, pairs[i].record)
  {
    var ids := Records(pairs);
    BelowListIs(s.record, s.down, Records(pairs[..i]), x);
    var n :| n in Records(pairs[..i]) && x in Below(s.record, s.down, n);
    var j :| 0 <= j < i && Records(pairs[..i])[j] == n;
    assert ids[j] == n && ids[j] in ids && ids[i] == pairs[i].record && ids[i] in ids;
    assert Below(s.record, s.down, ids[j]) !! Below(s.record, s.down, ids[i]);
  }

  lemma NextPairCalm(s: Sides, pairs: seq<Pair>, i: nat, seen: SeenPairs, now: SeenPairs)
    requires Walkable(s) && PairsBearing(s, pairs) && i < |pairs|
    requires AllBearing(s.record, Records(pairs)) && Calm(s, Records(pairs), seen)
    requires AllBearing(s.record, Records(pairs[..i])) && SeenWithin(now, seen, BelowList(s.record, s.down, Records(pairs[..i])))
    ensures Bearing(s.record, pairs[i].record) && CalmPair(s, pairs[i], now)
  {
    var ids, r := Records(pairs), pairs[i].record;
    assert ids[i] == r && r in ids;
    assert SpreadNode(s.record, s.down, ids[i]);
    forall q | q in now ensures q.0 !in Below(s.record, s.down, r) {
      BelowListIs(s.record, s.down, ids, q.0);
      if q !in seen {
        BelowEarlier(s, pairs, i, q.0);
      }
    }
  }

  /** Once the pair itself is marked, its children are as calm as it was. */
  lemma ChildrenCalm(s: Sides, p: Pair, seen: SeenPairs)
    requires Walkable(s) && Bearing(s.record, p.record) && CalmPair(s, p, seen)
    ensures (p.record, p.replay) !in seen
    ensures AllBearing(s.record, BearingChildren(s.record, p.record))
    ensures Calm(s, BearingChildren(s.record, p.record), seen + {(p.record, p.replay)})
    ensures BelowList(s.record, s.down, BearingChildren(s.record, p.record)) + {p.record} == Below(s.record, s.down, p.record)
  {
    ChildrenBelow(s.record, s.down, p.record);
    assert p.record in Below(s.record, s.down, p.record);
  }

  lemma PairsApart(s: Sides, rIds: seq<Id>, pIds: seq<Id>, names: seq<string>, seen: SeenPairs)
    requires Walkable(s) && AllBearing(s.record, rIds) && Calm(s, rIds, seen) && NoDup(names)
    ensures AllBearing(s.record, Records(AllPairs(s, rIds, pIds, names))) && Calm(s, Records(AllPairs(s, rIds, pIds, names)), seen)
    ensures BelowList(s.record, s.down, Records(AllPairs(s, rIds, pIds, names))) <= BelowList(s.record, s.down, rIds)
  {
    var pairs := AllPairs(s, rIds, pIds, names);
    SpreadNoDup(s.record, s.down, rIds);
    PairRecordsDistinct(s, rIds, pIds, names);
    PairsInside(s, rIds, pIds, names);
    forall n | n in Records(pairs) ensures n in rIds {
      var i :| 0 <= i < |pairs| && Records(pairs)[i] == n;
      assert pairs[i] in pairs;
    }
    SpreadSub(s.record, s.down, rIds, Records(pairs));
  }

  lemma {:induction false} PairRecordsDistinct(s: Sides, rIds: seq<Id>, pIds: seq<Id>, names: seq<string>)
    requires NoDup(rIds) && NoDup(names)
    ensures NoDup(Records(AllPairs(s, rIds, pIds, names)))
  {
    if names != [] {
      var init, last := names[..|names| - 1], names[|names| - 1];
      PairRecordsDistinct(s, rIds, pIds, init);
      var before, here := AllPairs(s, rIds, pIds, init), PairsOf(s, rIds, pIds, last);
      NamedIs(s.record, rIds, last);
      forall r | r in Records(before) ensures r !in Records(here) {
        var i :| 0 <= i < |before| && Records(before)[i] == r;
        assert before[i] in before;
        PairMembers(s, rIds, pIds, init, before[i]);
        var name, k: nat :| name in init && Kth(s.record, rIds, name, k, r);
        KthIn(s.record, rIds, name, k, r);
        assert name != last;
        forall j | 0 <= j < |here| ensures Records(here)[j] != r {
          assert Named(s.record, rIds, last)[j] in Named(s.record, rIds, last);
        }
      }
      NoDupJoin(Records(before), Records(here));
      RecordsJoin(before, here);
    }
  }

  lemma PairCalm(s: Sides, pairs: seq<Pair>, seen: SeenPairs)
    requires Walkable(s) && PairsBearing(s, pairs) && pairs != []
    requires AllBearing(s.record, Records(pairs)) && Calm(s, Records(pairs), seen)
    ensures
      var init, p := pairs[..|pairs| - 1], pairs[|pairs| - 1];
      && PairsBearing(s, init) && p in pairs && AllBearing(s.record, Records(init)) && Calm(s, Records(init), seen)
      && BelowList(s.record, s.down, Records(pairs)) == BelowList(s.record, s.down, Records(init)) + Below(s.record, s.down, p.record)
  {
    var init, p := pairs[..|pairs| - 1], pairs[|pairs| - 1];
    var ids := Records(pairs);
    RecordsBearing(s, init);
    assert ids == Records(init) + [p.record] && ids[..|ids| - 1] == Records(init);
    SpreadSplit(s.record, s.down, Records(init), [p.record]);
  }

  lemma {:induction false} OnePairAdvances(s: Sides, p: Pair, before: Progress)
    requires Walkable(s) && Bearing(s.record, p.record) && Bearing(s.replay, p.replay) && CalmPair(s, p, before.seen)
    ensures Advanced(before, OnePairRun(s, p, before), OnePairOutput(s, p), Below(s.record, s.down, p.record))
    decreases s.down[p.record], 2, 0
  {
    var marked := Marked(s, p, before);
    ChildrenBelow(s.record, s.down, p.record);
    EventBearingIs(s.replay, s.replay.nodes[p.replay].children);
    ChildrenCalm(s, p, before.seen);
    SiblingsAdvance(s, BearingChildren(s.record, p.record), BearingChildren(s.replay, p.replay), marked);
    AdvancedTwice(before, marked, OnePairRun(s, p, before), Output([MatchedRow(s, p)], []),
                  SiblingOutput(s, BearingChildren(s.record, p.record), BearingChildren(s.replay, p.replay)),
                  {p.record}, BelowList(s.record, s.down, BearingChildren(s.record, p.record)));
  }

  /** The last pair's turn, after the earlier ones advanced. */
  lemma LastPairAdvances(s: Sides, pairs: seq<Pair>, before: Progress, walked: Progress, after: Progress)
    requires Walkable(s) && PairsBearing(s, pairs) && pairs != []
    requires AllBearing(s.record, Records(pairs)) && PairsBearing(s, pairs[..|pairs| - 1]) && AllBearing(s.record, Records(pairs[..|pairs| - 1]))
    requires Bearing(s.record, pairs[|pairs| - 1].record) && Bearing(s.replay, pairs[|pairs| - 1].replay)
    requires BelowList(s.record, s.down, Records(pairs)) ==
             BelowList(s.record, s.down, Records(pairs[..|pairs| - 1])) + Below(s.record, s.down, pairs[|pairs| - 1].record)
    requires Advanced(before, walked, PairOutput(s, pairs[..|pairs| - 1]), BelowList(s.record, s.down, Records(pairs[..|pairs| - 1])))
    requires Advanced(walked, after, OnePairOutput(s, pairs[|pairs| - 1]), Below(s.record, s.down, pairs[|pairs| - 1].record))
    ensures Advanced(before, after, PairOutput(s, pairs), BelowList(s.record, s.down, Records(pairs)))
  {
    AdvancedTwice(before, walked, after, PairOutput(s, pairs[..|pairs| - 1]), OnePairOutput(s, pairs[|pairs| - 1]),
                  BelowList(s.record, s.down, Records(pairs[..|pairs| - 1])), Below(s.record, s.down, pairs[|pairs| - 1].record));
  }

  lemma {:induction false} PairsAdvance(s: Sides, pairs: seq<Pair>, before: Progress)
    requires Walkable(s) && PairsBearing(s, pairs) && AllBearing(s.record, Records(pairs)) && Calm(s, Records(pairs), before.seen)
    ensures Advanced(before, PairRun(s, pairs, before), PairOutput(s, pairs), BelowList(s.record, s.down, Records(pairs)))
    decreases Top(s.down, Records(pairs)), 0, |pairs|
  {
    if pairs != [] {
      var init, p := pairs[..|pairs| - 1], pairs[|pairs| - 1];
      InitLower(s, pairs);
      RankBelowTop(s, pairs, |pairs| - 1);
      PairCalm(s, pairs, before.seen);
      var walked := PairRun(s, init, before);
      PairsAdvance(s, init, before);
      NextPairCalm(s, pairs, |pairs| - 1, before.seen, walked.seen);
      OnePairAdvances(s, p, walked);
      LastPairAdvances(s, pairs, before, walked, PairRun(s, pairs, before));
    }
  }

  lemma LeftoversAdvance(before: Progress, walked: Progress, pairs: Output, left: Output, met: set<Id>, below: set<Id>)
    requires Advanced(before, walked, pairs, met) && met <= below
    ensures Advanced(before, Plus(walked, left), Then(pairs, left), below)
  {
  }

  ghost predicate LeftoversAre(s: Sides, rIds: seq<Id>, pIds: seq<Id>, out: Output) {
    var order := GroupOrder(s, rIds, pIds);
    var left, right := AllLeftRecord(s, rIds, pIds, order), AllLeftReplay(s, rIds, pIds, order);
    LeftBearing(s.record, left) && LeftBearing(s.replay, right) && out == LeftoverOutput(s, left, right)
  }

  /** The walk and its output are made of the same parts. */
  lemma SiblingParts(s: Sides, rIds: seq<Id>, pIds: seq<Id>, before: Progress) returns (pairs: seq<Pair>, left: Output)
    requires Walkable(s) && AllBearing(s.record, rIds) && AllBearing(s.replay, pIds)
    ensures pairs == AllPairs(s, rIds, pIds, GroupOrder(s, rIds, pIds)) && LeftoversAre(s, rIds, pIds, left)
    ensures PairsBearing(s, pairs) && Top(s.down, Records(pairs)) <= Top(s.down, rIds)
    ensures SiblingRun(s, rIds, pIds, before) == Plus(PairRun(s, pairs, before), left)
    ensures SiblingOutput(s, rIds, pIds) == Then(PairOutput(s, pairs), left)
  {
    var order := GroupOrder(s, rIds, pIds);
    pairs := AllPairs(s, rIds, pIds, order);
    PairsInside(s, rIds, pIds, order);
    PairsLower(s, rIds, pairs);
    left := LeftoverOutput(s, AllLeftRecord(s, rIds, pIds, order), AllLeftReplay(s, rIds, pIds, order));
  }

  /** On subtrees that do not overlap and were not met, the walk adds exactly the alignment's output, sends nothing
      to the flat tier, and meets only nodes below the siblings. */
  lemma {:induction false} SiblingsAdvance(s: Sides, rIds: seq<Id>, pIds: seq<Id>, before: Progress)
    requires Walkable(s) && AllBearing(s.record, rIds) && AllBearing(s.replay, pIds) && Calm(s, rIds, before.seen)
    ensures Advanced(before, SiblingRun(s, rIds, pIds, before), SiblingOutput(s, rIds, pIds), BelowList(s.record, s.down, rIds))
    decreases Top(s.down, rIds), 1, 0
  {
    var pairs, left := SiblingParts(s, rIds, pIds, before);
    OrderCovers(s, rIds, pIds, "");
    PairsApart(s, rIds, pIds, GroupOrder(s, rIds, pIds), before.seen);
    PairsAdvance(s, pairs, before);
    LeftoversAdvance(before, PairRun(s, pairs, before), PairOutput(s, pairs), left,
                     BelowList(s.record, s.down, Records(pairs)), BelowList(s.record, s.down, rIds));
  }

  lemma RankBelowTop(s: Sides, pairs: seq<Pair>, i: nat)
    requires Walkable(s) && PairsBearing(s, pairs) && i < |pairs|
    ensures Bearing(s.record, pairs[i].record) && s.down[pairs[i].record] < Top(s.down, Records(pairs))
  {
    assert pairs[i] in pairs && Records(pairs)[i] in Records(pairs);
  }

  // ----- no pair is matched twice, on any acyclic record side -----

  /** The two nodes a matched row pairs. */
  predicate Pairs(row: AlignedNode, r: Id, p: Id) {
    row.outcome == Matched && row.recordNode == Some(r) && row.replayNode == Some(p)
  }

  ghost predicate MatchedOnce(rows: seq<AlignedNode>) {
    forall i, j, r, p {:trigger Pairs(rows[i], r, p), Pairs(rows[j], r, p)} ::
      0 <= i < j < |rows| ==> !(Pairs(rows[i], r, p) && Pairs(rows[j], r, p))
  }

  ghost predicate Matches(rows: seq<AlignedNode>, r: Id, p: Id) {
    exists i :: 0 <= i < |rows| && Pairs(rows[i], r, p)
  }

  /** For each pair in turn, the events of its record node and then those of its replay node. */
  ghost function BothEvents(record: Forest, replay: Forest, pairs: seq<(Id, Id)>): seq<nat> {
    if pairs == [] then []
    else
      var (r, p) := pairs[|pairs| - 1];
      BothEvents(record, replay, pairs[..|pairs| - 1])
      + (if r in record.nodes then record.nodes[r].events else []) + (if p in replay.nodes then replay.nodes[p].events else [])
  }

  ghost predicate MetAgain(record: Forest, replay: Forest, rows: seq<AlignedNode>, flat: seq<nat>, pairs: seq<(Id, Id)>) {
    flat == BothEvents(record, replay, pairs) && forall q: (Id, Id) :: q in pairs ==> Matches(rows, q.0, q.1)
  }

  /** The flat tier holds the events of both nodes of some pairs that have matched rows, pair after pair. */
  ghost predicate FlatAgain(record: Forest, replay: Forest, rows: seq<AlignedNode>, flat: seq<nat>) {
    exists pairs: seq<(Id, Id)> :: MetAgain(record, replay, rows, flat, pairs)
  }

  /** Each pair met has one matched row, and the flat tier is made of pairs met again. */
  ghost predicate Tidy(s: Sides, at: Progress) {
    && MatchedOnce(at.nodes)
    && (forall r, p :: Matches(at.nodes, r, p) <==> (r, p) in at.seen)
    && FlatAgain(s.record, s.replay, at.nodes, at.flat)
  }

  lemma MatchesMore(rows: seq<AlignedNode>, row: AlignedNode, r: Id, p: Id)
    ensures Matches(rows + [row], r, p) <==> Matches(rows, r, p) || Pairs(row, r, p)
  {
    if i :| 0 <= i < |rows| && Pairs(rows[i], r, p) {
      assert (rows + [row])[i] == rows[i];
    }
    if i :| 0 <= i < |rows + [row]| && Pairs((rows + [row])[i], r, p) {
      assert i < |rows| ==> (rows + [row])[i] == rows[i];
    }
    assert (rows + [row])[|rows|] == row;
  }

  lemma FlatStill(record: Forest, replay: Forest, rows: seq<AlignedNode>, row: AlignedNode, flat: seq<nat>)
    requires FlatAgain(record, replay, rows, flat)
    ensures FlatAgain(record, replay, rows + [row], flat)
  {
    var pairs: seq<(Id, Id)> :| MetAgain(record, replay, rows, flat, pairs);
    forall q: (Id, Id) | q in pairs ensures Matches(rows + [row], q.0, q.1) {
      MatchesMore(rows, row, q.0, q.1);
    }
    assert MetAgain(record, replay, rows + [row], flat, pairs);
  }

  lemma FlatMore(record: Forest, replay: Forest, rows: seq<AlignedNode>, flat: seq<nat>, r: Id, p: Id)
    requires FlatAgain(record, replay, rows, flat) && Matches(rows, r, p) && r in record.nodes && p in replay.nodes
    ensures FlatAgain(record, replay, rows, flat + record.nodes[r].events + replay.nodes[p].events)
  {
    var pairs: seq<(Id, Id)> :| MetAgain(record, replay, rows, flat, pairs);
    assert (pairs + [(r, p)])[..|pairs|] == pairs;
    assert MetAgain(record, replay, rows, flat + record.nodes[r].events + replay.nodes[p].events, pairs + [(r, p)]);
  }

  /** One more row: a pair not met before, which is now, or a row that pairs nothing. */
  lemma TidyMore(s: Sides, at: Progress, row: AlignedNode, after: Progress)
    requires Tidy(s, at) && after.nodes == at.nodes + [row] && after.flat == at.flat
    requires forall r, p :: Pairs(row, r, p) ==> (r, p) !in at.seen
    requires forall q :: q in after.seen <==> q in at.seen || Pairs(row, q.0, q.1)
    ensures Tidy(s, after)
  {
    forall r, p ensures Matches(after.nodes, r, p) <==> (r, p) in after.seen {
      MatchesMore(at.nodes, row, r, p);
      assert (r, p).0 == r && (r, p).1 == p;
    }
    forall i, j, r, p | 0 <= i < j < |after.nodes| && Pairs(after.nodes[i], r, p) ensures !Pairs(after.nodes[j], r, p) {
      assert after.nodes[i] == at.nodes[i];
      assert Matches(at.nodes, r, p);
      assert j < |at.nodes| ==> after.nodes[j] == at.nodes[j];
    }
    FlatStill(s.record, s.replay, at.nodes, row, at.flat);
  }

  lemma {:induction false} TidyLeftovers(s: Sides, at: Progress, rows: seq<AlignedNode>, renames: seq<(Id, Id)>)
    requires Tidy(s, at) && forall row :: row in rows ==> row.outcome != Matched
    ensures Tidy(s, Plus(at, Output(rows, renames)))
  {
    if rows == [] {
      assert at.nodes + rows == at.nodes;
    } else {
      var init, last := rows[..|rows| - 1], rows[|rows| - 1];
      TidyLeftovers(s, at, init, renames);
      assert at.nodes + rows == (at.nodes + init) + [last];
      TidyMore(s, Plus(at, Output(init, renames)), last, Plus(at, Output(rows, renames)));
    }
  }

  lemma LeftoversPairNothing(s: Sides, left: seq<Left>, right: seq<Left>, row: AlignedNode)
    requires LeftBearing(s.record, left) && LeftBearing(s.replay, right) && row in LeftoverOutput(s, left, right).rows
    ensures row.outcome != Matched
  {
  }

  lemma {:induction false} RunTidy(s: Sides, rIds: seq<Id>, pIds: seq<Id>, before: Progress)
    requires Walkable(s) && AllBearing(s.record, rIds) && AllBearing(s.replay, pIds) && Tidy(s, before)
    ensures Tidy(s, SiblingRun(s, rIds, pIds, before))
    decreases Top(s.down, rIds), 1, 0
  {
    var pairs, left := SiblingParts(s, rIds, pIds, before);
    var order := GroupOrder(s, rIds, pIds);
    PairsTidy(s, pairs, before);
    forall row | row in left.rows ensures row.outcome != Matched {
      LeftoversPairNothing(s, AllLeftRecord(s, rIds, pIds, order), AllLeftReplay(s, rIds, pIds, order), row);
    }
    TidyLeftovers(s, PairRun(s, pairs, before), left.rows, left.renames);
  }

  lemma {:induction false} PairsTidy(s: Sides, pairs: seq<Pair>, before: Progress)
    requires Walkable(s) && PairsBearing(s, pairs) && Tidy(s, before)
    ensures Tidy(s, PairRun(s, pairs, before))
    decreases Top(s.down, Records(pairs)), 0, |pairs|
  {
    if pairs != [] {
      var init, p := pairs[..|pairs| - 1], pairs[|pairs| - 1];
      InitLower(s, pairs);
      RankBelowTop(s, pairs, |pairs| - 1);
      PairsTidy(s, init, before);
      OnePairTidy(s, p, PairRun(s, init, before));
    }
  }

  lemma {:induction false} OnePairTidy(s: Sides, p: Pair, before: Progress)
    requires Walkable(s) && Bearing(s.record, p.record) && Bearing(s.replay, p.replay) && Tidy(s, before)
    ensures Tidy(s, OnePairRun(s, p, before))
    decreases s.down[p.record], 2, 0
  {
    if (p.record, p.replay) in before.seen {
      assert Matches(before.nodes, p.record, p.replay);
      FlatMore(s.record, s.replay, before.nodes, before.flat, p.record, p.replay);
    } else {
      TidyMore(s, before, MatchedRow(s, p), Marked(s, p, before));
      ChildrenBelow(s.record, s.down, p.record);
      EventBearingIs(s.replay, s.replay.nodes[p.replay].children);
      RunTidy(s, BearingChildren(s.record, p.record), BearingChildren(s.replay, p.replay), Marked(s, p, before));
    }
  }
}
