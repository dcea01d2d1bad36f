/** What lies below the nodes still to be aligned: in a tree, siblings' subtrees never overlap. */
module AlignmentTree {
  import opened Common
  import opened Sequences
  import opened ForestModel
  import opened Ancestry
  import opened AlignmentSpec

  ghost function Below(f: Forest, down: map<Id, nat>, n: Id): set<Id>
    requires Falling(f, down) && Bearing(f, n)
    decreases down[n], 2, 0
  {
    ChildrenBelow(f, down, n);
    {n} + BelowList(f, down, BearingChildren(f, n))
  }

  ghost function BelowList(f: Forest, down: map<Id, nat>, ids: seq<Id>): set<Id>
    requires Falling(f, down) && AllBearing(f, ids)
    decreases Top(down, ids), 1, |ids|
  {
    if ids == [] then {}
    else
      TopOfInit(down, ids);
      BelowList(f, down, ids[..|ids| - 1]) + Below(f, down, ids[|ids| - 1])
  }

  lemma TopOfInit(down: map<Id, nat>, ids: seq<Id>)
    requires ids != []
    ensures Top(down, ids[..|ids| - 1]) <= Top(down, ids)
    ensures ids[|ids| - 1] in down ==> down[ids[|ids| - 1]] < Top(down, ids)
  {
    assert ids[|ids| - 1] in ids;
    TopWithin(down, ids[..|ids| - 1], Top(down, ids));
  }

  lemma {:induction false} BelowListIs(f: Forest, down: map<Id, nat>, ids: seq<Id>, x: Id)
    requires Falling(f, down) && AllBearing(f, ids)
    ensures x in BelowList(f, down, ids) <==> exists n :: n in ids && x in Below(f, down, n)
    decreases |ids|
  {
    if ids != [] {
      var init, last := ids[..|ids| - 1], ids[|ids| - 1];
      BelowListIs(f, down, init, x);
      assert ids == init + [last];
      if x in Below(f, down, last) {
        assert last in ids;
      }
      if x in BelowList(f, down, init) {
        var n :| n in init && x in Below(f, down, n);
        assert n in ids;
      }
    }
  }

  /** The subtrees of the listed nodes, and of their descendants, never overlap. */
  ghost predicate Spread(f: Forest, down: map<Id, nat>, ids: seq<Id>)
    requires Falling(f, down) && AllBearing(f, ids)
    decreases Top(down, ids), 1
  {
    && (forall i :: 0 <= i < |ids| ==> assert ids[i] in ids; SpreadNode(f, down, ids[i]))
    && (forall i, j :: 0 <= i < j < |ids| ==> Below(f, down, ids[i]) !! Below(f, down, ids[j]))
  }

  ghost predicate SpreadNode(f: Forest, down: map<Id, nat>, n: Id)
    requires Falling(f, down) && Bearing(f, n)
    decreases down[n], 2
  {
    ChildrenBelow(f, down, n);
    n !in BelowList(f, down, BearingChildren(f, n)) && Spread(f, down, BearingChildren(f, n))
  }

  lemma SpreadNoDup(f: Forest, down: map<Id, nat>, ids: seq<Id>)
    requires Falling(f, down) && AllBearing(f, ids) && Spread(f, down, ids)
    ensures NoDup(ids)
  {
    forall i, j | 0 <= i < j < |ids| ensures ids[i] != ids[j] {
      assert ids[i] in Below(f, down, ids[i]) && ids[j] in Below(f, down, ids[j]);
    }
  }

  lemma SpreadSub(f: Forest, down: map<Id, nat>, ids: seq<Id>, sub: seq<Id>)
    requires Falling(f, down) && AllBearing(f, ids) && AllBearing(f, sub) && Spread(f, down, ids)
    requires NoDup(sub) && forall n :: n in sub ==> n in ids
    ensures Spread(f, down, sub)
    ensures BelowList(f, down, sub) <= BelowList(f, down, ids)
  {
    forall i | 0 <= i < |sub| ensures SpreadNode(f, down, sub[i]) {
      assert sub[i] in sub;
      var k :| 0 <= k < |ids| && ids[k] == sub[i];
    }
    forall i, j | 0 <= i < j < |sub| ensures Below(f, down, sub[i]) !! Below(f, down, sub[j]) {
      assert sub[i] in sub && sub[j] in sub;
      var k :| 0 <= k < |ids| && ids[k] == sub[i];
      var l :| 0 <= l < |ids| && ids[l] == sub[j];
      assert k != l;
    }
    forall x | x in BelowList(f, down, sub) ensures x in BelowList(f, down, ids) {
      BelowListIs(f, down, sub, x);
      BelowListIs(f, down, ids, x);
    }
  }

  lemma {:induction false} BelowListJoin(f: Forest, down: map<Id, nat>, a: seq<Id>, b: seq<Id>)
    requires Falling(f, down) && AllBearing(f, a) && AllBearing(f, b)
    ensures AllBearing(f, a + b) && BelowList(f, down, a + b) == BelowList(f, down, a) + BelowList(f, down, b)
    decreases |b|
  {
    if b == [] {
      assert a + b == a;
    } else {
      assert (a + b)[..|a + b| - 1] == a + b[..|b| - 1];
      BelowListJoin(f, down, a, b[..|b| - 1]);
    }
  }

  lemma SpreadSplit(f: Forest, down: map<Id, nat>, a: seq<Id>, b: seq<Id>)
    requires Falling(f, down) && AllBearing(f, a + b) && Spread(f, down, a + b)
    ensures AllBearing(f, a) && AllBearing(f, b) && Spread(f, down, a) && Spread(f, down, b)
    ensures BelowList(f, down, a) !! BelowList(f, down, b)
    ensures BelowList(f, down, a + b) == BelowList(f, down, a) + BelowList(f, down, b)
  {
    assert (forall n :: n in a ==> n in a + b) && (forall n :: n in b ==> n in a + b);
    BelowListJoin(f, down, a, b);
    SpreadNoDup(f, down, a + b);
    NoDupParts(a, b);
    SpreadSub(f, down, a + b, a);
    SpreadSub(f, down, a + b, b);
    forall x | x in BelowList(f, down, a) ensures x !in BelowList(f, down, b) {
      SpreadApart(f, down, a, b, x);
    }
  }

  lemma SpreadApart(f: Forest, down: map<Id, nat>, a: seq<Id>, b: seq<Id>, x: Id)
    requires Falling(f, down) && AllBearing(f, a + b) && Spread(f, down, a + b)
    requires AllBearing(f, a) && AllBearing(f, b) && x in BelowList(f, down, a)
    ensures x !in BelowList(f, down, b)
  {
    BelowListIs(f, down, a, x);
    BelowListIs(f, down, b, x);
    var n :| n in a && x in Below(f, down, n);
    var i :| 0 <= i < |a| && a[i] == n;
    forall j | 0 <= j < |b| ensures b[j] in b && x !in Below(f, down, b[j]) {
      assert (a + b)[i] == n && (a + b)[|a| + j] == b[j];
      assert (a + b)[i] in a + b && (a + b)[|a| + j] in a + b;
    }
  }

  // ----- a tree-shaped forest is spread -----

  lemma {:induction false} BelowIsUnder(f: Forest, down: map<Id, nat>, n: Id, x: Id)
    requires Falling(f, down) && Linked(f) && Bearing(f, n) && x in Below(f, down, n)
    ensures exists k: nat :: Under(f, n, x, k)
    decreases down[n]
  {
    ChildrenBelow(f, down, n);
    if x == n {
      assert Under(f, n, x, 0);
    } else {
      BelowListIs(f, down, BearingChildren(f, n), x);
      var c :| c in BearingChildren(f, n) && x in Below(f, down, c);
      EventBearingIs(f, f.nodes[n].children);
      BelowIsUnder(f, down, c, x);
      var k: nat :| Under(f, c, x, k);
      UnderParent(f, n, c, x, k);
    }
  }

  lemma SiblingsApart(f: Forest, down: map<Id, nat>, rank: map<Id, nat>, a: Id, b: Id)
    requires Falling(f, down) && Linked(f) && Ranked(f, rank) && Siblings(f, a, b) && Bearing(f, a) && Bearing(f, b)
    ensures Below(f, down, a) !! Below(f, down, b)
  {
    forall x | x in Below(f, down, a) ensures x !in Below(f, down, b) {
      BelowIsUnder(f, down, a, x);
      var j: nat :| Under(f, a, x, j);
      if x in Below(f, down, b) {
        BelowIsUnder(f, down, b, x);
        var k: nat :| Under(f, b, x, k);
        NoCommonUnder(f, rank, a, b, x, j, k);
      }
    }
  }

  ghost predicate SiblingList(f: Forest, ids: seq<Id>) {
    NoDup(ids) && forall i, j :: 0 <= i < j < |ids| ==> Siblings(f, ids[i], ids[j])
  }

  lemma {:induction false} TreeSpread(f: Forest, down: map<Id, nat>, rank: map<Id, nat>, ids: seq<Id>)
    requires Falling(f, down) && Linked(f) && Ranked(f, rank) && AllBearing(f, ids) && SiblingList(f, ids)
    ensures Spread(f, down, ids)
    decreases Top(down, ids)
  {
    forall i | 0 <= i < |ids| ensures SpreadNode(f, down, ids[i]) {
      assert ids[i] in ids;
      TreeSpreadNode(f, down, rank, ids[i]);
    }
    forall i, j | 0 <= i < j < |ids| ensures Below(f, down, ids[i]) !! Below(f, down, ids[j]) {
      assert ids[i] in ids && ids[j] in ids;
      SiblingsApart(f, down, rank, ids[i], ids[j]);
    }
  }

  lemma {:induction false} TreeSpreadNode(f: Forest, down: map<Id, nat>, rank: map<Id, nat>, n: Id)
    requires Falling(f, down) && Linked(f) && Ranked(f, rank) && Bearing(f, n)
    ensures SpreadNode(f, down, n)
    decreases down[n] + 1, 0
  {
    var ch := BearingChildren(f, n);
    ChildrenBelow(f, down, n);
    EventBearingIs(f, f.nodes[n].children);
    if n in BelowList(f, down, ch) {
      BelowListIs(f, down, ch, n);
      var c :| c in ch && n in Below(f, down, c);
      BelowIsUnder(f, down, c, n);
      var k: nat :| Under(f, c, n, k);
      UnderRank(f, rank, c, n, k);
    }
    forall i, j | 0 <= i < j < |ch| ensures Siblings(f, ch[i], ch[j]) {
      assert ch[i] in ch && ch[j] in ch;
    }
    TreeSpread(f, down, rank, ch);
  }

  /** In a tree, what the bearing roots reach never overlaps. */
  lemma RootsSpread(f: Forest, down: map<Id, nat>)
    requires Falling(f, down) && TreeShaped(f)
    ensures AllBearing(f, EventBearing(f, f.roots)) && Spread(f, down, EventBearing(f, f.roots))
  {
    var rank :| Ranked(f, rank);
    var ids := EventBearing(f, f.roots);
    EventBearingIs(f, f.roots);
    forall i, j | 0 <= i < j < |ids| ensures Siblings(f, ids[i], ids[j]) {
      assert ids[i] in ids && ids[j] in ids;
    }
    TreeSpread(f, down, rank, ids);
  }
}
