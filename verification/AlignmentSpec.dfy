/** What aligning two forests means: which siblings pair up, and the rows that come of it. */
module AlignmentSpec {
  import opened Common
  import opened Sequences
  import opened ForestModel
  import opened RenameSuspicion

  datatype NodeOutcome =
    | Matched
    | ValueDiverged(origin: bool)
    | IdentitySkew(alignedEvent: Option<nat>, servedEvent: Option<nat>)
    | PrunedSubtree(eventsBelow: nat)
    | NovelSubtree(eventsBelow: nat)

  datatype AlignedNode = AlignedNode(
    recordNode: Option<Id>,
    replayNode: Option<Id>,
    spanName: string,
    outcome: NodeOutcome,
    lowConfidence: bool)

  predicate Bearing(f: Forest, n: Id) {
    n in f.nodes && f.nodes[n].subtreeEvents != 0
  }

  function IsBearing(f: Forest): Id -> bool {
    n => Bearing(f, n)
  }

  /** The event-bearing ids among `ids`: skeleton pruning, applied before anything is paired. */
  function EventBearing(f: Forest, ids: seq<Id>): seq<Id> {
    Filter(ids, IsBearing(f))
  }

  function BearingChildren(f: Forest, n: Id): seq<Id> {
    if n in f.nodes then EventBearing(f, f.nodes[n].children) else []
  }

  ghost predicate AllBearing(f: Forest, ids: seq<Id>) {
    forall n :: n in ids ==> Bearing(f, n)
  }

  lemma EventBearingIs(f: Forest, ids: seq<Id>)
    ensures AllBearing(f, EventBearing(f, ids))
    ensures forall n :: n in EventBearing(f, ids) <==> n in ids && Bearing(f, n)
    ensures NoDup(ids) ==> NoDup(EventBearing(f, ids))
  {
    FilterKeeps(ids, IsBearing(f), (a, b) => true);
  }

  /** A rank falling from each event-bearing node to its event-bearing children. */
  ghost predicate Falling(f: Forest, down: map<Id, nat>) {
    && (forall n :: Bearing(f, n) ==> n in down)
    && forall n, c {:trigger c in f.nodes[n].children} :: Bearing(f, n) && c in f.nodes[n].children && Bearing(f, c) ==> down[c] < down[n]
  }

  /** One more than the highest rank among `ids`. */
  ghost function Top(down: map<Id, nat>, ids: seq<Id>): (t: nat)
    ensures forall n :: n in ids && n in down ==> down[n] < t
  {
    if ids == [] then 0
    else
      var rest := Top(down, ids[1..]);
      if ids[0] in down && down[ids[0]] >= rest then down[ids[0]] + 1 else rest
  }

  lemma {:induction false} TopWithin(down: map<Id, nat>, ids: seq<Id>, bound: nat)
    requires forall n :: n in ids && n in down ==> down[n] < bound
    ensures Top(down, ids) <= bound
  {
    if ids != [] {
      TopWithin(down, ids[1..], bound);
    }
  }

  lemma ChildrenBelow(f: Forest, down: map<Id, nat>, n: Id)
    requires Falling(f, down) && Bearing(f, n)
    ensures Top(down, BearingChildren(f, n)) <= down[n]
    ensures AllBearing(f, BearingChildren(f, n))
  {
    EventBearingIs(f, f.nodes[n].children);
    TopWithin(down, BearingChildren(f, n), down[n]);
  }

  // ----- sibling groups -----

  function IsNamed(f: Forest, name: string): Id -> bool {
    n => n in f.nodes && f.nodes[n].spanName == name
  }

  /** The siblings of one name, in creation order. */
  function Named(f: Forest, ids: seq<Id>, name: string): seq<Id> {
    Filter(ids, IsNamed(f, name))
  }

  lemma NamedIs(f: Forest, ids: seq<Id>, name: string)
    ensures forall n :: n in Named(f, ids, name) <==> n in ids && n in f.nodes && f.nodes[n].spanName == name
    ensures NoDup(ids) ==> NoDup(Named(f, ids, name))
  {
    FilterKeeps(ids, IsNamed(f, name), (a, b) => true);
  }

  /** The names met, each at its first sibling. */
  function FirstNames(f: Forest, ids: seq<Id>): seq<string> {
    if ids == [] then []
    else
      var last, before := ids[|ids| - 1], FirstNames(f, ids[..|ids| - 1]);
      if last in f.nodes && f.nodes[last].spanName !in before then before + [f.nodes[last].spanName] else before
  }

  lemma {:induction false} FirstNamesAre(f: Forest, ids: seq<Id>)
    ensures NoDup(FirstNames(f, ids))
    ensures forall name :: name in FirstNames(f, ids) <==> exists n :: n in ids && n in f.nodes && f.nodes[n].spanName == name
  {
    if ids != [] {
      var init, last := ids[..|ids| - 1], ids[|ids| - 1];
      FirstNamesAre(f, init);
      assert ids == init + [last];
      forall name ensures name in FirstNames(f, ids) <==> exists n :: n in ids && n in f.nodes && f.nodes[n].spanName == name {
        if name in FirstNames(f, init) {
          var n :| n in init && n in f.nodes && f.nodes[n].spanName == name;
          assert n in ids;
        } else if last in f.nodes && f.nodes[last].spanName == name {
          assert last in ids;
        }
      }
    }
  }

  lemma NoNameNoGroup(f: Forest, ids: seq<Id>, name: string)
    ensures Named(f, ids, name) == [] <==> name !in FirstNames(f, ids)
  {
    FirstNamesAre(f, ids);
    NamedIs(f, ids, name);
    if Named(f, ids, name) != [] {
      assert Named(f, ids, name)[0] in Named(f, ids, name);
    }
  }

  // ----- pairing -----

  datatype Pair = Pair(record: Id, replay: Id, low: bool)
  datatype Left = Left(id: Id, low: bool)

  /** Two forests, and the rank that lets the record side be walked down. */
  datatype Sides = Sides(record: Forest, replay: Forest, ghost down: map<Id, nat>)

  /** A pair is low-confidence when either side has several siblings of that name. */
  predicate GroupLow(rs: seq<Id>, ps: seq<Id>) {
    |rs| > 1 || |ps| > 1
  }

  function GroupPaired(rs: seq<Id>, ps: seq<Id>): nat {
    if |rs| <= |ps| then |rs| else |ps|
  }

  /** The k-th of a name pairs with the k-th of that name. */
  function GroupPairs(rs: seq<Id>, ps: seq<Id>): seq<Pair> {
    seq(GroupPaired(rs, ps), k requires 0 <= k < GroupPaired(rs, ps) => Pair(rs[k], ps[k], GroupLow(rs, ps)))
  }

  /** The members of one side left over once the pairs are taken. */
  function GroupLeft(ids: seq<Id>, rs: seq<Id>, ps: seq<Id>): seq<Left>
    requires GroupPaired(rs, ps) <= |ids|
  {
    var from := GroupPaired(rs, ps);
    seq(|ids| - from, k requires 0 <= k < |ids| - from => Left(ids[from + k], GroupLow(rs, ps)))
  }

  predicate Low(s: Sides, rIds: seq<Id>, pIds: seq<Id>, name: string) {
    GroupLow(Named(s.record, rIds, name), Named(s.replay, pIds, name))
  }

  function Paired(s: Sides, rIds: seq<Id>, pIds: seq<Id>, name: string): nat {
    GroupPaired(Named(s.record, rIds, name), Named(s.replay, pIds, name))
  }

  function PairsOf(s: Sides, rIds: seq<Id>, pIds: seq<Id>, name: string): seq<Pair> {
    GroupPairs(Named(s.record, rIds, name), Named(s.replay, pIds, name))
  }

  function LeftRecord(s: Sides, rIds: seq<Id>, pIds: seq<Id>, name: string): seq<Left> {
    GroupLeft(Named(s.record, rIds, name), Named(s.record, rIds, name), Named(s.replay, pIds, name))
  }

  function LeftReplay(s: Sides, rIds: seq<Id>, pIds: seq<Id>, name: string): seq<Left> {
    GroupLeft(Named(s.replay, pIds, name), Named(s.record, rIds, name), Named(s.replay, pIds, name))
  }

  function NotIn(names: seq<string>): string -> bool {
    name => name !in names
  }

  function GroupOrder(s: Sides, rIds: seq<Id>, pIds: seq<Id>): seq<string> {
    var mine := FirstNames(s.record, rIds);
    mine + Filter(FirstNames(s.replay, pIds), NotIn(mine))
  }

  function AllPairs(s: Sides, rIds: seq<Id>, pIds: seq<Id>, names: seq<string>): seq<Pair> {
    if names == [] then []
    else AllPairs(s, rIds, pIds, names[..|names| - 1]) + PairsOf(s, rIds, pIds, names[|names| - 1])
  }

  function AllLeftRecord(s: Sides, rIds: seq<Id>, pIds: seq<Id>, names: seq<string>): seq<Left> {
    if names == [] then []
    else AllLeftRecord(s, rIds, pIds, names[..|names| - 1]) + LeftRecord(s, rIds, pIds, names[|names| - 1])
  }

  function AllLeftReplay(s: Sides, rIds: seq<Id>, pIds: seq<Id>, names: seq<string>): seq<Left> {
    if names == [] then []
    else AllLeftReplay(s, rIds, pIds, names[..|names| - 1]) + LeftReplay(s, rIds, pIds, names[|names| - 1])
  }

  // ----- rows -----

  function MatchedRow(s: Sides, p: Pair): AlignedNode
    requires p.record in s.record.nodes
  {
    AlignedNode(Some(p.record), Some(p.replay), s.record.nodes[p.record].spanName, Matched, p.low)
  }

  function PrunedRow(s: Sides, l: Left): AlignedNode
    requires l.id in s.record.nodes
  {
    AlignedNode(Some(l.id), None, s.record.nodes[l.id].spanName, PrunedSubtree(s.record.nodes[l.id].subtreeEvents), l.low)
  }

  function NovelRow(s: Sides, l: Left): AlignedNode
    requires l.id in s.replay.nodes
  {
    AlignedNode(None, Some(l.id), s.replay.nodes[l.id].spanName, NovelSubtree(s.replay.nodes[l.id].subtreeEvents), l.low)
  }

  ghost predicate Walkable(s: Sides) {
    Falling(s.record, s.down)
  }

  ghost predicate PairsBearing(s: Sides, pairs: seq<Pair>) {
    forall p :: p in pairs ==> Bearing(s.record, p.record) && Bearing(s.replay, p.replay)
  }

  function Records(pairs: seq<Pair>): seq<Id> {
    seq(|pairs|, i requires 0 <= i < |pairs| => pairs[i].record)
  }

  lemma RecordsJoin(a: seq<Pair>, b: seq<Pair>)
    ensures Records(a + b) == Records(a) + Records(b)
  {
  }

  // ----- who is in which list -----

  ghost predicate Kth(f: Forest, ids: seq<Id>, name: string, k: nat, n: Id) {
    k < |Named(f, ids, name)| && Named(f, ids, name)[k] == n
  }

  lemma {:induction false} PairMembers(s: Sides, rIds: seq<Id>, pIds: seq<Id>, names: seq<string>, p: Pair)
    ensures p in AllPairs(s, rIds, pIds, names) <==>
              exists name, k: nat :: name in names && Kth(s.record, rIds, name, k, p.record) && Kth(s.replay, pIds, name, k, p.replay)
                             && p.low == Low(s, rIds, pIds, name)
  {
    if names != [] {
      var init, last := names[..|names| - 1], names[|names| - 1];
      PairMembers(s, rIds, pIds, init, p);
      assert names == init + [last];
      if p in PairsOf(s, rIds, pIds, last) {
        var k :| 0 <= k < |PairsOf(s, rIds, pIds, last)| && PairsOf(s, rIds, pIds, last)[k] == p;
        assert Kth(s.record, rIds, last, k, p.record) && Kth(s.replay, pIds, last, k, p.replay);
      }
      if k: nat :| Kth(s.record, rIds, last, k, p.record) && Kth(s.replay, pIds, last, k, p.replay) && p.low == Low(s, rIds, pIds, last) {
        assert PairsOf(s, rIds, pIds, last)[k] == p;
      }
    }
  }

  lemma {:induction false} LeftRecordMembers(s: Sides, rIds: seq<Id>, pIds: seq<Id>, names: seq<string>, l: Left)
    ensures l in AllLeftRecord(s, rIds, pIds, names) <==>
              exists name, k: nat :: name in names && Kth(s.record, rIds, name, k, l.id) && k >= |Named(s.replay, pIds, name)|
                             && l.low == Low(s, rIds, pIds, name)
  {
    if names != [] {
      var init, last := names[..|names| - 1], names[|names| - 1];
      LeftRecordMembers(s, rIds, pIds, init, l);
      assert names == init + [last];
      var from := Paired(s, rIds, pIds, last);
      if l in LeftRecord(s, rIds, pIds, last) {
        var k :| 0 <= k < |LeftRecord(s, rIds, pIds, last)| && LeftRecord(s, rIds, pIds, last)[k] == l;
        assert Kth(s.record, rIds, last, from + k, l.id);
      }
      if k: nat :| Kth(s.record, rIds, last, k, l.id) && k >= |Named(s.replay, pIds, last)| && l.low == Low(s, rIds, pIds, last) {
        assert LeftRecord(s, rIds, pIds, last)[k - from] == l;
      }
    }
  }

  lemma {:induction false} LeftReplayMembers(s: Sides, rIds: seq<Id>, pIds: seq<Id>, names: seq<string>, l: Left)
    ensures l in AllLeftReplay(s, rIds, pIds, names) <==>
              exists name, k: nat :: name in names && Kth(s.replay, pIds, name, k, l.id) && k >= |Named(s.record, rIds, name)|
                             && l.low == Low(s, rIds, pIds, name)
  {
    if names != [] {
      var init, last := names[..|names| - 1], names[|names| - 1];
      LeftReplayMembers(s, rIds, pIds, init, l);
      assert names == init + [last];
      var from := Paired(s, rIds, pIds, last);
      if l in LeftReplay(s, rIds, pIds, last) {
        var k :| 0 <= k < |LeftReplay(s, rIds, pIds, last)| && LeftReplay(s, rIds, pIds, last)[k] == l;
        assert Kth(s.replay, pIds, last, from + k, l.id);
      }
      if k: nat :| Kth(s.replay, pIds, last, k, l.id) && k >= |Named(s.record, rIds, last)| && l.low == Low(s, rIds, pIds, last) {
        assert LeftReplay(s, rIds, pIds, last)[k - from] == l;
      }
    }
  }

  /** Every name with a sibling on either side is visited. */
  lemma OrderCovers(s: Sides, rIds: seq<Id>, pIds: seq<Id>, name: string)
    ensures name in GroupOrder(s, rIds, pIds) <==> Named(s.record, rIds, name) != [] || Named(s.replay, pIds, name) != []
    ensures NoDup(GroupOrder(s, rIds, pIds))
  {
    var mine, theirs := FirstNames(s.record, rIds), FirstNames(s.replay, pIds);
    NoNameNoGroup(s.record, rIds, name);
    NoNameNoGroup(s.replay, pIds, name);
    FirstNamesAre(s.record, rIds);
    FirstNamesAre(s.replay, pIds);
    FilterKeeps(theirs, NotIn(mine), (a, b) => true);
    NoDupJoin(mine, Filter(theirs, NotIn(mine)));
  }

  lemma KthIn(f: Forest, ids: seq<Id>, name: string, k: nat, n: Id)
    requires Kth(f, ids, name, k, n)
    ensures n in ids && n in f.nodes && f.nodes[n].spanName == name
  {
    NamedIs(f, ids, name);
  }

  lemma PairsInside(s: Sides, rIds: seq<Id>, pIds: seq<Id>, names: seq<string>)
    ensures forall p :: p in AllPairs(s, rIds, pIds, names) ==> p.record in rIds && p.replay in pIds
    ensures forall l :: l in AllLeftRecord(s, rIds, pIds, names) ==> l.id in rIds
    ensures forall l :: l in AllLeftReplay(s, rIds, pIds, names) ==> l.id in pIds
  {
    forall p | p in AllPairs(s, rIds, pIds, names) ensures p.record in rIds && p.replay in pIds {
      PairMembers(s, rIds, pIds, names, p);
      var name, k: nat :| name in names && Kth(s.record, rIds, name, k, p.record) && Kth(s.replay, pIds, name, k, p.replay);
      KthIn(s.record, rIds, name, k, p.record);
      KthIn(s.replay, pIds, name, k, p.replay);
    }
    forall l | l in AllLeftRecord(s, rIds, pIds, names) ensures l.id in rIds {
      LeftRecordMembers(s, rIds, pIds, names, l);
      var name, k: nat :| name in names && Kth(s.record, rIds, name, k, l.id);
      KthIn(s.record, rIds, name, k, l.id);
    }
    forall l | l in AllLeftReplay(s, rIds, pIds, names) ensures l.id in pIds {
      LeftReplayMembers(s, rIds, pIds, names, l);
      var name, k: nat :| name in names && Kth(s.replay, pIds, name, k, l.id);
      KthIn(s.replay, pIds, name, k, l.id);
    }
  }

  // ----- the rows of one sibling set, and of a list of pairs -----

  predicate LeftBearing(f: Forest, left: seq<Left>) {
    forall i :: 0 <= i < |left| ==> Bearing(f, left[i].id)
  }

  /** Same shape: as many events, and the same multiset of event-bearing child names. */
  datatype RenameShape = RenameShape(subtreeEvents: nat, childNames: multiset<string>)

  function ChildNames(f: Forest, ids: seq<Id>): multiset<string> {
    if ids == [] then multiset{}
    else ChildNames(f, ids[1..]) + if ids[0] in f.nodes then multiset{f.nodes[ids[0]].spanName} else multiset{}
  }

  function ShapeOf(f: Forest, n: Id): RenameShape
    requires n in f.nodes
  {
    RenameShape(f.nodes[n].subtreeEvents, ChildNames(f, BearingChildren(f, n)))
  }

  function Shapes(f: Forest, left: seq<Left>): seq<RenameShape>
    requires LeftBearing(f, left)
  {
    seq(|left|, i requires 0 <= i < |left| => ShapeOf(f, left[i].id))
  }

  function PrunedRows(s: Sides, left: seq<Left>): seq<AlignedNode>
    requires LeftBearing(s.record, left)
  {
    seq(|left|, i requires 0 <= i < |left| => PrunedRow(s, left[i]))
  }

  function NovelRows(s: Sides, left: seq<Left>): seq<AlignedNode>
    requires LeftBearing(s.replay, left)
  {
    seq(|left|, i requires 0 <= i < |left| => NovelRow(s, left[i]))
  }

  /** What one call adds to the alignment: its rows, and the renames it suspects. */
  datatype Output = Output(rows: seq<AlignedNode>, renames: seq<(Id, Id)>)

  function Then(a: Output, b: Output): Output {
    Output(a.rows + b.rows, a.renames + b.renames)
  }

  function RenamesOf(left: seq<Left>, right: seq<Left>, pairs: seq<(nat, nat)>): seq<(Id, Id)>
    requires forall i :: 0 <= i < |pairs| ==> pairs[i].0 < |left| && pairs[i].1 < |right|
  {
    seq(|pairs|, i requires 0 <= i < |pairs| => (left[pairs[i].0].id, right[pairs[i].1].id))
  }

  ghost function LeftoverOutput(s: Sides, left: seq<Left>, right: seq<Left>): Output
    requires LeftBearing(s.record, left) && LeftBearing(s.replay, right)
  {
    var pairs := Pairing(Shapes(s.record, left), Shapes(s.replay, right));
    PairingIndices(Shapes(s.record, left), Shapes(s.replay, right));
    Output(PrunedRows(s, left) + NovelRows(s, right), RenamesOf(left, right, pairs))
  }

  lemma PairingIndices<T(!new)>(xs: seq<T>, ys: seq<T>)
    ensures forall i :: 0 <= i < |Pairing(xs, ys)| ==> Pairing(xs, ys)[i].0 < |xs| && Pairing(xs, ys)[i].1 < |ys|
  {
    PairingIsMaximal(xs, ys);
    forall i | 0 <= i < |Pairing(xs, ys)| ensures Pairing(xs, ys)[i].0 < |xs| && Pairing(xs, ys)[i].1 < |ys| {
      assert Pairing(xs, ys)[i] in Pairing(xs, ys);
    }
  }

  ghost function SiblingOutput(s: Sides, rIds: seq<Id>, pIds: seq<Id>): Output
    requires Walkable(s) && AllBearing(s.record, rIds) && AllBearing(s.replay, pIds)
    decreases Top(s.down, rIds), 1, 0
  {
    var order := GroupOrder(s, rIds, pIds);
    var pairs := AllPairs(s, rIds, pIds, order);
    PairsInside(s, rIds, pIds, order);
    PairsLower(s, rIds, pairs);
    Then(PairOutput(s, pairs),
         LeftoverOutput(s, AllLeftRecord(s, rIds, pIds, order), AllLeftReplay(s, rIds, pIds, order)))
  }

  lemma PairsLower(s: Sides, rIds: seq<Id>, pairs: seq<Pair>)
    requires forall p :: p in pairs ==> p.record in rIds
    ensures Top(s.down, Records(pairs)) <= Top(s.down, rIds)
  {
    forall n | n in Records(pairs) ensures n in rIds {
      var i :| 0 <= i < |pairs| && Records(pairs)[i] == n;
      assert pairs[i] in pairs;
    }
    TopWithin(s.down, Records(pairs), Top(s.down, rIds));
  }

  ghost function PairOutput(s: Sides, pairs: seq<Pair>): Output
    requires Walkable(s) && PairsBearing(s, pairs)
    decreases Top(s.down, Records(pairs)), 0, |pairs|
  {
    if pairs == [] then Output([], [])
    else
      var init, p := pairs[..|pairs| - 1], pairs[|pairs| - 1];
      InitLower(s, pairs);
      assert Records(pairs)[|pairs| - 1] == p.record;
      Then(PairOutput(s, init), OnePairOutput(s, p))
  }

  ghost function OnePairOutput(s: Sides, p: Pair): Output
    requires Walkable(s) && Bearing(s.record, p.record) && Bearing(s.replay, p.replay)
    decreases s.down[p.record], 2, 0
  {
    ChildrenBelow(s.record, s.down, p.record);
    EventBearingIs(s.replay, s.replay.nodes[p.replay].children);
    Then(Output([MatchedRow(s, p)], []), SiblingOutput(s, BearingChildren(s.record, p.record), BearingChildren(s.replay, p.replay)))
  }

  lemma InitLower(s: Sides, pairs: seq<Pair>)
    requires pairs != []
    ensures Top(s.down, Records(pairs[..|pairs| - 1])) <= Top(s.down, Records(pairs))
  {
    var init := pairs[..|pairs| - 1];
    forall n | n in Records(init) ensures n in Records(pairs) {
      var i :| 0 <= i < |init| && Records(init)[i] == n;
      assert Records(pairs)[i] == n;
    }
    TopWithin(s.down, Records(init), Top(s.down, Records(pairs)));
  }
}
