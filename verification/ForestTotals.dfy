/** What a rolled-up subtree count counts: the distinct events attached at or below the node. */
module ForestTotals {
  import opened Common
  import opened Sequences
  import opened ForestModel
  import opened Ancestry
  import opened ForestRollup

  ghost predicate Beneath(f: Forest, n: Id, m: Id) {
    exists k: nat :: Under(f, n, m, k)
  }

  /** Every event attached to `n` or to a node with `n` on its parent chain. */
  ghost function EventsUnder(f: Forest, n: Id): set<nat> {
    set m, x | m in f.nodes && x in f.nodes[m].events && Beneath(f, n, m) :: x
  }

  ghost function EventsUnderAny(f: Forest, ids: seq<Id>): set<nat> {
    if ids == [] then {} else EventsUnder(f, ids[0]) + EventsUnderAny(f, ids[1..])
  }

  /** No event is attached twice. */
  ghost predicate EventsApart(f: Forest) {
    && (forall n {:trigger f.nodes[n]} :: n in f.nodes ==> NoDup(f.nodes[n].events))
    && (forall m, n, x {:trigger x in f.nodes[m].events, x in f.nodes[n].events} ::
          m in f.nodes && n in f.nodes && x in f.nodes[m].events && x in f.nodes[n].events ==> m == n)
  }

  lemma {:induction false} LastStep(f: Forest, n: Id, m: Id, k: nat) returns (c: Id)
    requires Linked(f) && n in f.nodes && k > 0 && Under(f, n, m, k)
    ensures c in f.nodes[n].children && Under(f, c, m, k - 1)
    decreases k
  {
    if k == 1 {
      c := m;
    } else {
      c := LastStep(f, n, f.nodes[m].parentId.value, k - 1);
    }
  }

  lemma {:induction false} UnderAnyIs(f: Forest, ids: seq<Id>, x: nat)
    ensures x in EventsUnderAny(f, ids) <==> exists n :: n in ids && x in EventsUnder(f, n)
  {
    if ids != [] {
      assert ids == [ids[0]] + ids[1..];
      UnderAnyIs(f, ids[1..], x);
    }
  }

  /** Events under a node are its own and those under its children. */
  lemma UnderSplits(f: Forest, n: Id)
    requires Linked(f) && n in f.nodes
    ensures EventsUnder(f, n) == ToSet(f.nodes[n].events) + EventsUnderAny(f, f.nodes[n].children)
  {
    forall x ensures x in EventsUnder(f, n) <==> x in f.nodes[n].events || x in EventsUnderAny(f, f.nodes[n].children) {
      UnderAnyIs(f, f.nodes[n].children, x);
      if x in EventsUnder(f, n) {
        var m :| m in f.nodes && x in f.nodes[m].events && Beneath(f, n, m);
        var k: nat :| Under(f, n, m, k);
        if k > 0 {
          var c := LastStep(f, n, m, k);
          assert Beneath(f, c, m);
        }
      }
      if x in f.nodes[n].events {
        assert Under(f, n, n, 0);
      }
      if c :| c in f.nodes[n].children && x in EventsUnder(f, c) {
        var m :| m in f.nodes && x in f.nodes[m].events && Beneath(f, c, m);
        var k: nat :| Under(f, c, m, k);
        UnderParent(f, n, c, m, k);
      }
    }
  }

  lemma SiblingsCountApart(f: Forest, rank: map<Id, nat>, a: Id, b: Id)
    requires Linked(f) && Ranked(f, rank) && EventsApart(f) && Siblings(f, a, b)
    ensures EventsUnder(f, a) !! EventsUnder(f, b)
  {
    forall x | x in EventsUnder(f, a) && x in EventsUnder(f, b) ensures false {
      var m :| m in f.nodes && x in f.nodes[m].events && Beneath(f, a, m);
      var n :| n in f.nodes && x in f.nodes[n].events && Beneath(f, b, n);
      assert m == n;
      var j: nat :| Under(f, a, m, j);
      var k: nat :| Under(f, b, m, k);
      NoCommonUnder(f, rank, a, b, m, j, k);
    }
  }

  ghost predicate Counted(f: Forest, n: Id) {
    n in f.nodes && f.nodes[n].subtreeEvents == |EventsUnder(f, n)|
  }

  lemma {:induction false} SumsApart(f: Forest, rank: map<Id, nat>, ids: seq<Id>)
    requires Linked(f) && Ranked(f, rank) && EventsApart(f)
    requires forall n :: n in ids ==> Counted(f, n)
    requires forall i, j :: 0 <= i < j < |ids| ==> Siblings(f, ids[i], ids[j])
    ensures ChildrenSum(ids, f) == |EventsUnderAny(f, ids)|
  {
    if ids != [] {
      SumsApart(f, rank, ids[1..]);
      assert Counted(f, ids[0]);
      forall x | x in EventsUnder(f, ids[0]) && x in EventsUnderAny(f, ids[1..]) ensures false {
        UnderAnyIs(f, ids[1..], x);
        var b :| b in ids[1..] && x in EventsUnder(f, b);
        var j :| 0 <= j < |ids[1..]| && ids[1..][j] == b;
        assert ids[j + 1] == b;
        SiblingsCountApart(f, rank, ids[0], b);
      }
    }
  }

  lemma OwnApart(f: Forest, rank: map<Id, nat>, n: Id, x: nat)
    requires Linked(f) && Ranked(f, rank) && EventsApart(f) && n in f.nodes && x in f.nodes[n].events
    ensures x !in EventsUnderAny(f, f.nodes[n].children)
  {
    UnderAnyIs(f, f.nodes[n].children, x);
    if x in EventsUnderAny(f, f.nodes[n].children) {
      var c :| c in f.nodes[n].children && x in EventsUnder(f, c);
      var m :| m in f.nodes && x in f.nodes[m].events && Beneath(f, c, m);
      assert m == n;
      var k: nat :| Under(f, c, n, k);
      UnderRank(f, rank, c, n, k);
    }
  }

  lemma SizeOfNoDup(xs: seq<nat>)
    requires NoDup(xs)
    ensures |ToSet(xs)| == |xs|
  {
    if xs != [] {
      var init, last := xs[..|xs| - 1], xs[|xs| - 1];
      assert xs == init + [last];
      SizeOfNoDup(init);
      assert last !in ToSet(init);
      assert ToSet(xs) == ToSet(init) + {last};
    }
  }

  lemma {:induction false} CountUnder(f: Forest, rank: map<Id, nat>, n: Id)
    requires Linked(f) && Ranked(f, rank) && RolledUp(f) && EventsApart(f) && n in f.nodes
    ensures Counted(f, n)
    decreases rank[n]
  {
    var ch := f.nodes[n].children;
    forall c | c in ch ensures Counted(f, c) {
      CountUnder(f, rank, c);
    }
    forall i, j | 0 <= i < j < |ch| ensures Siblings(f, ch[i], ch[j]) {
      assert ch[i] in ch && ch[j] in ch;
    }
    SumsApart(f, rank, ch);
    UnderSplits(f, n);
    forall x | x in f.nodes[n].events ensures x !in EventsUnderAny(f, ch) {
      OwnApart(f, rank, n, x);
    }
    SizeOfNoDup(f.nodes[n].events);
  }

  /** In a rolled-up tree each subtree count is the number of events at or below its node. */
  lemma SubtreeCounts(f: Forest)
    requires TreeShaped(f) && RolledUp(f) && EventsApart(f)
    ensures forall n {:trigger f.nodes[n]} :: n in f.nodes ==> f.nodes[n].subtreeEvents == |EventsUnder(f, n)|
  {
    var rank :| Ranked(f, rank);
    forall n | n in f.nodes ensures Counted(f, n) {
      CountUnder(f, rank, n);
    }
  }
}
