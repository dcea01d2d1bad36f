/** `align`: two forests of one correlation walked top-down together. */
module Alignments {
  import opened Common
  import opened Sequences
  import opened ForestModel
  import opened AlignmentSpec
  import opened AlignmentBalance
  import opened AlignmentRun
  import opened RenameSuspicion

  /** An alignment under construction, with the pairs met so far. */
  ghost function Now(alignment: Alignment, seen: SeenPairs): Progress
    reads alignment
  {
    Progress(alignment.nodes, alignment.suspectedRenames, alignment.flatTierEvents, seen)
  }

  function MembersOf(members: map<string, seq<Id>>, name: string): seq<Id> {
    if name in members then members[name] else []
  }

  ghost predicate GroupsOf(f: Forest, ids: seq<Id>, order: seq<string>, members: map<string, seq<Id>>) {
    && order == FirstNames(f, ids)
    && (forall name {:trigger MembersOf(members, name)} :: MembersOf(members, name) == Named(f, ids, name))
    && (forall name :: name in members <==> name in order)
  }

  lemma NamedSnoc(f: Forest, ids: seq<Id>, n: Id, name: string)
    ensures Named(f, ids + [n], name) == Named(f, ids, name) + if n in f.nodes && f.nodes[n].spanName == name then [n] else []
  {
    assert (ids + [n])[..|ids|] == ids;
  }

  lemma FirstNamesSnoc(f: Forest, ids: seq<Id>, n: Id)
    ensures FirstNames(f, ids + [n]) ==
            FirstNames(f, ids) + if n in f.nodes && f.nodes[n].spanName !in FirstNames(f, ids) then [f.nodes[n].spanName] else []
  {
    assert (ids + [n])[..|ids|] == ids;
  }

  lemma NextName(f: Forest, ids: seq<Id>, n: Id, order: seq<string>, members: map<string, seq<Id>>)
    requires n in f.nodes && order == FirstNames(f, ids) && (f.nodes[n].spanName in members <==> f.nodes[n].spanName in order)
    ensures (if f.nodes[n].spanName in members then order else order + [f.nodes[n].spanName]) == FirstNames(f, ids + [n])
  {
    FirstNamesSnoc(f, ids, n);
  }

  lemma NextMember(f: Forest, ids: seq<Id>, n: Id, members: map<string, seq<Id>>, name: string)
    requires n in f.nodes && MembersOf(members, name) == Named(f, ids, name)
    ensures
      var mine := f.nodes[n].spanName;
      var more := members[mine := MembersOf(members, mine) + [n]];
      MembersOf(more, name) == Named(f, ids + [n], name)
  {
    NamedSnoc(f, ids, n, name);
  }

  lemma SkippedSibling(f: Forest, ids: seq<Id>, n: Id, order: seq<string>, members: map<string, seq<Id>>)
    requires GroupsOf(f, ids, order, members) && n !in f.nodes
    ensures GroupsOf(f, ids + [n], order, members)
  {
    FirstNamesSnoc(f, ids, n);
    forall name ensures Named(f, ids + [n], name) == Named(f, ids, name) {
      NamedSnoc(f, ids, n, name);
    }
  }

  lemma NextSibling(f: Forest, ids: seq<Id>, n: Id, order: seq<string>, members: map<string, seq<Id>>)
    requires GroupsOf(f, ids, order, members) && n in f.nodes
    ensures
      var name := f.nodes[n].spanName;
      GroupsOf(f, ids + [n], if name in members then order else order + [name],
               members[name := MembersOf(members, name) + [n]])
  {
    var mine := f.nodes[n].spanName;
    var more := members[mine := MembersOf(members, mine) + [n]];
    NextName(f, ids, n, order, members);
    forall name ensures MembersOf(more, name) == Named(f, ids + [n], name) {
      NextMember(f, ids, n, members, name);
    }
    assert forall name :: name in more <==> name in members || name == mine;
  }

  ghost predicate Bears(f: Forest, ids: seq<Id>, k: nat, name: string) {
    k < |ids| && ids[k] in f.nodes && f.nodes[ids[k]].spanName == name
  }

  /** Some sibling named `a` comes before every one named `b`. */
  ghost predicate MetBefore(f: Forest, ids: seq<Id>, a: string, b: string) {
    exists k: nat :: Bears(f, ids, k, a) && forall l: nat :: Bears(f, ids, l, b) ==> k < l
  }

  lemma {:induction false} NamesBorne(f: Forest, ids: seq<Id>, name: string)
    ensures name in FirstNames(f, ids) <==> exists k: nat :: Bears(f, ids, k, name)
  {
    if ids != [] {
      var init, last := ids[..|ids| - 1], ids[|ids| - 1];
      assert ids == init + [last];
      NamesBorne(f, init, name);
      if k: nat :| Bears(f, init, k, name) {
        assert Bears(f, ids, k, name);
      }
      if k: nat :| Bears(f, ids, k, name) {
        assert k < |init| ==> Bears(f, init, k, name);
      }
      if last in f.nodes && f.nodes[last].spanName == name {
        assert Bears(f, ids, |init|, name);
      }
    }
  }

  lemma MetStill(f: Forest, ids: seq<Id>, n: Id, a: string, b: string)
    requires MetBefore(f, ids, a, b)
    ensures MetBefore(f, ids + [n], a, b)
  {
    var k: nat :| Bears(f, ids, k, a) && forall l: nat :: Bears(f, ids, l, b) ==> k < l;
    assert Bears(f, ids + [n], k, a);
    forall l: nat | Bears(f, ids + [n], l, b) ensures k < l {
      assert l < |ids| ==> Bears(f, ids, l, b);
    }
  }

  lemma MetBeforeLast(f: Forest, ids: seq<Id>, n: Id, a: string, b: string)
    requires a in FirstNames(f, ids) && b !in FirstNames(f, ids)
    ensures MetBefore(f, ids + [n], a, b)
  {
    NamesBorne(f, ids, a);
    NamesBorne(f, ids, b);
    var k: nat :| Bears(f, ids, k, a);
    assert Bears(f, ids + [n], k, a);
    forall l: nat | Bears(f, ids + [n], l, b) ensures k < l {
      assert l < |ids| ==> Bears(f, ids, l, b);
    }
  }

  /** Names are listed in the order their first siblings come. */
  lemma {:induction false} NamesAsMet(f: Forest, ids: seq<Id>, i: nat, j: nat)
    requires i < j < |FirstNames(f, ids)|
    ensures MetBefore(f, ids, FirstNames(f, ids)[i], FirstNames(f, ids)[j])
  {
    var init, last := ids[..|ids| - 1], ids[|ids| - 1];
    assert ids == init + [last];
    if j < |FirstNames(f, init)| {
      NamesAsMet(f, init, i, j);
      MetStill(f, init, last, FirstNames(f, ids)[i], FirstNames(f, ids)[j]);
    } else {
      MetBeforeLast(f, init, last, FirstNames(f, ids)[i], FirstNames(f, ids)[j]);
    }
  }

  /** The groups of `sibling_groups`: names at their first sibling, members in the order given. */
  method SiblingGroups(ids: seq<Id>, f: Forest) returns (order: seq<string>, members: map<string, seq<Id>>)
    ensures order == FirstNames(f, ids)
    ensures forall name {:trigger MembersOf(members, name)} :: MembersOf(members, name) == Named(f, ids, name)
    ensures forall i, j :: 0 <= i < j < |order| ==> MetBefore(f, ids, order[i], order[j])
  {
    order, members := [], map[];
    for i := 0 to |ids|
      invariant GroupsOf(f, ids[..i], order, members)
    {
      PrefixGrows(ids, i);
      if ids[i] !in f.nodes {
        SkippedSibling(f, ids[..i], ids[i], order, members);
      } else {
        NextSibling(f, ids[..i], ids[i], order, members);
        var name := f.nodes[ids[i]].spanName;
        if name !in members {
          order := order + [name];
        }
        members := members[name := MembersOf(members, name) + [ids[i]]];
      }
    }
    assert ids[..|ids|] == ids;
    forall i, j | 0 <= i < j < |order| ensures MetBefore(f, ids, order[i], order[j]) {
      NamesAsMet(f, ids, i, j);
    }
  }

  lemma NextGroup(s: Sides, rIds: seq<Id>, pIds: seq<Id>, order: seq<string>, i: nat)
    requires Walkable(s) && AllBearing(s.record, rIds) && AllBearing(s.replay, pIds) && i < |order|
    ensures AllPairs(s, rIds, pIds, order[..i + 1]) == AllPairs(s, rIds, pIds, order[..i]) + PairsOf(s, rIds, pIds, order[i])
    ensures AllLeftRecord(s, rIds, pIds, order[..i + 1]) == AllLeftRecord(s, rIds, pIds, order[..i]) + LeftRecord(s, rIds, pIds, order[i])
    ensures AllLeftReplay(s, rIds, pIds, order[..i + 1]) == AllLeftReplay(s, rIds, pIds, order[..i]) + LeftReplay(s, rIds, pIds, order[i])
    ensures PairsBearing(s, AllPairs(s, rIds, pIds, order[..i + 1]))
    ensures PairsBearing(s, PairsOf(s, rIds, pIds, order[i])) && AllBearing(s.record, Records(PairsOf(s, rIds, pIds, order[i])))
  {
    assert order[..i + 1][..i] == order[..i];
    PairsInside(s, rIds, pIds, order[..i + 1]);
    RecordsBearing(s, PairsOf(s, rIds, pIds, order[i]));
  }

  lemma LeftoversBearing(s: Sides, rIds: seq<Id>, pIds: seq<Id>, names: seq<string>)
    requires AllBearing(s.record, rIds) && AllBearing(s.replay, pIds)
    ensures LeftBearing(s.record, AllLeftRecord(s, rIds, pIds, names))
    ensures LeftBearing(s.replay, AllLeftReplay(s, rIds, pIds, names))
  {
    PairsInside(s, rIds, pIds, names);
    var left, right := AllLeftRecord(s, rIds, pIds, names), AllLeftReplay(s, rIds, pIds, names);
    forall i | 0 <= i < |left| ensures Bearing(s.record, left[i].id) {
      assert left[i] in left;
    }
    forall i | 0 <= i < |right| ensures Bearing(s.replay, right[i].id) {
      assert right[i] in right;
    }
  }

  lemma GroupLower(s: Sides, rIds: seq<Id>, pIds: seq<Id>, name: string)
    ensures Top(s.down, Records(PairsOf(s, rIds, pIds, name))) <= Top(s.down, rIds)
  {
    var pairs := PairsOf(s, rIds, pIds, name);
    NamedIs(s.record, rIds, name);
    forall p | p in pairs ensures p.record in rIds {
      var k :| 0 <= k < |pairs| && pairs[k] == p;
      assert Named(s.record, rIds, name)[k] in Named(s.record, rIds, name);
    }
    PairsLower(s, rIds, pairs);
  }

  method NameRenames(left: seq<Left>, right: seq<Left>, pairs: seq<(nat, nat)>) returns (renames: seq<(Id, Id)>)
    requires forall i :: 0 <= i < |pairs| ==> pairs[i].0 < |left| && pairs[i].1 < |right|
    ensures renames == RenamesOf(left, right, pairs)
  {
    renames := [];
    for i := 0 to |pairs|
      invariant renames == RenamesOf(left, right, pairs)[..i]
    {
      renames := renames + [(left[pairs[i].0].id, right[pairs[i].1].id)];
    }
  }

  method SuspectRenames(s: Sides, left: seq<Left>, right: seq<Left>) returns (renames: seq<(Id, Id)>)
    requires LeftBearing(s.record, left) && LeftBearing(s.replay, right)
    ensures renames == LeftoverOutput(s, left, right).renames
  {
    var pairs := PairUp(Shapes(s.record, left), Shapes(s.replay, right));
    PairingIndices(Shapes(s.record, left), Shapes(s.replay, right));
    renames := NameRenames(left, right, pairs);
  }

  method ReportSubtrees(s: Sides, left: seq<Left>, right: seq<Left>) returns (rows: seq<AlignedNode>)
    requires LeftBearing(s.record, left) && LeftBearing(s.replay, right)
    ensures rows == PrunedRows(s, left) + NovelRows(s, right)
  {
    rows := [];
    for i := 0 to |left|
      invariant rows == PrunedRows(s, left)[..i]
    {
      rows := rows + [PrunedRow(s, left[i])];
    }
    for i := 0 to |right|
      invariant rows == PrunedRows(s, left) + NovelRows(s, right)[..i]
    {
      rows := rows + [NovelRow(s, right[i])];
    }
  }

  /** Unmatched subtrees: renames suspected first, then one row each, record side before replay side. */
  method ReportLeftovers(s: Sides, left: seq<Left>, right: seq<Left>, alignment: Alignment)
    requires LeftBearing(s.record, left) && LeftBearing(s.replay, right)
    modifies alignment
    ensures alignment.nodes == old(alignment.nodes) + LeftoverOutput(s, left, right).rows
    ensures alignment.suspectedRenames == old(alignment.suspectedRenames) + LeftoverOutput(s, left, right).renames
    ensures alignment.flatTierEvents == old(alignment.flatTierEvents)
  {
    var renames := SuspectRenames(s, left, right);
    alignment.suspectedRenames := alignment.suspectedRenames + renames;
    var rows := ReportSubtrees(s, left, right);
    alignment.nodes := alignment.nodes + rows;
  }

  /** The pairs of one name, each aligned in turn. */
  method AlignGroup(s: Sides, pairs: seq<Pair>, seen: SeenPairs, alignment: Alignment) returns (seen': SeenPairs)
    requires Walkable(s) && PairsBearing(s, pairs)
    modifies alignment
    ensures Now(alignment, seen') == PairRun(s, pairs, old(Now(alignment, seen)))
    decreases Top(s.down, Records(pairs)), 0, 0
  {
    seen' := seen;
    ghost var start := Now(alignment, seen);
    for i := 0 to |pairs|
      invariant PairsBearing(s, pairs[..i]) && Now(alignment, seen') == PairRun(s, pairs[..i], start)
    {
      RankBelowTop(s, pairs, i);
      assert pairs[i] in pairs;
      PrefixGrows(pairs, i);
      PairRunSnoc(s, pairs[..i], pairs[i], start);
      seen' := AlignPair(s, pairs[i], seen', alignment);
    }
    assert pairs[..|pairs|] == pairs;
  }

  method AlignPair(s: Sides, p: Pair, seen: SeenPairs, alignment: Alignment) returns (seen': SeenPairs)
    requires Walkable(s) && Bearing(s.record, p.record) && Bearing(s.replay, p.replay)
    modifies alignment
    ensures Now(alignment, seen') == OnePairRun(s, p, old(Now(alignment, seen)))
    decreases s.down[p.record], 2, 0
  {
    if (p.record, p.replay) in seen {
      alignment.flatTierEvents := alignment.flatTierEvents + s.record.nodes[p.record].events;
      alignment.flatTierEvents := alignment.flatTierEvents + s.replay.nodes[p.replay].events;
      return seen;
    }
    ChildrenBelow(s.record, s.down, p.record);
    EventBearingIs(s.replay, s.replay.nodes[p.replay].children);
    alignment.nodes := alignment.nodes + [MatchedRow(s, p)];
    seen' := AlignSiblings(s, BearingChildren(s.record, p.record), BearingChildren(s.replay, p.replay),
                           seen + {(p.record, p.replay)}, alignment);
  }

  /** Every name's pairs are aligned, and what each name leaves over is collected. */
  method AlignGroups(s: Sides, rIds: seq<Id>, pIds: seq<Id>, order: seq<string>, seen: SeenPairs, alignment: Alignment,
                     recordMembers: map<string, seq<Id>>, replayMembers: map<string, seq<Id>>)
    returns (seen': SeenPairs, unmatchedRecord: seq<Left>, unmatchedReplay: seq<Left>)
    requires Walkable(s) && AllBearing(s.record, rIds) && AllBearing(s.replay, pIds)
    requires forall name {:trigger MembersOf(recordMembers, name)} :: MembersOf(recordMembers, name) == Named(s.record, rIds, name)
    requires forall name {:trigger MembersOf(replayMembers, name)} :: MembersOf(replayMembers, name) == Named(s.replay, pIds, name)
    modifies alignment
    ensures unmatchedRecord == AllLeftRecord(s, rIds, pIds, order) && unmatchedReplay == AllLeftReplay(s, rIds, pIds, order)
    ensures PairsBearing(s, AllPairs(s, rIds, pIds, order))
    ensures Now(alignment, seen') == PairRun(s, AllPairs(s, rIds, pIds, order), old(Now(alignment, seen)))
    decreases Top(s.down, rIds), 0, 2
  {
    unmatchedRecord, unmatchedReplay := [], [];
    seen' := seen;
    ghost var start := Now(alignment, seen);
    for i := 0 to |order|
      invariant PairsBearing(s, AllPairs(s, rIds, pIds, order[..i]))
      invariant Now(alignment, seen') == PairRun(s, AllPairs(s, rIds, pIds, order[..i]), start)
      invariant unmatchedRecord == AllLeftRecord(s, rIds, pIds, order[..i])
      invariant unmatchedReplay == AllLeftReplay(s, rIds, pIds, order[..i])
    {
      var name := order[i];
      var recordGroup := MembersOf(recordMembers, name);
      var replayGroup := MembersOf(replayMembers, name);
      NextGroup(s, rIds, pIds, order, i);
      GroupLower(s, rIds, pIds, name);
      PairRunJoin(s, AllPairs(s, rIds, pIds, order[..i]), PairsOf(s, rIds, pIds, name), start);
      seen' := AlignGroup(s, GroupPairs(recordGroup, replayGroup), seen', alignment);
      unmatchedRecord := unmatchedRecord + GroupLeft(recordGroup, recordGroup, replayGroup);
      unmatchedReplay := unmatchedReplay + GroupLeft(replayGroup, recordGroup, replayGroup);
    }
    assert order[..|order|] == order;
  }

  method AlignSiblings(s: Sides, rIds: seq<Id>, pIds: seq<Id>, seen: SeenPairs, alignment: Alignment) returns (seen': SeenPairs)
    requires Walkable(s) && AllBearing(s.record, rIds) && AllBearing(s.replay, pIds)
    modifies alignment
    ensures Now(alignment, seen') == SiblingRun(s, rIds, pIds, old(Now(alignment, seen)))
    decreases Top(s.down, rIds), 1, 0
  {
    var recordOrder, recordMembers := SiblingGroups(rIds, s.record);
    var replayOrder, replayMembers := SiblingGroups(pIds, s.replay);
    var order := recordOrder + Filter(replayOrder, NotIn(recordOrder));
    var unmatchedRecord, unmatchedReplay;
    seen', unmatchedRecord, unmatchedReplay :=
      AlignGroups(s, rIds, pIds, order, seen, alignment, recordMembers, replayMembers);
    LeftoversBearing(s, rIds, pIds, order);
    ReportLeftovers(s, unmatchedRecord, unmatchedReplay, alignment);
  }
}
