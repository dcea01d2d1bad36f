/** Which parent edges `build` cuts, and what the kept edges look like. */
module CycleCuts {
  import opened Common
  import opened Sequences
  import opened ParentWalk
  import opened CycleChoice

  /** Exactly one node of every parent cycle is cut, and nothing else is. */
  ghost predicate OneCutPerCycle(p: Parents, cuts: set<Id>) {
    && (forall b :: b in cuts ==> OnCycle(p, b))
    && (forall n :: OnCycle(p, n) ==> exists b :: b in cuts && Reaches(p, n, b))
    && (forall b, c :: b in cuts && c in cuts && Reaches(p, b, c) ==> b == c)
  }

  ghost predicate CutsOf(memo: Memo, cuts: set<Id>) {
    && (forall n :: n in memo && memo[n].Cycle? ==> memo[n].breakAt in cuts)
    && (forall b :: b in cuts ==> exists n :: n in memo && memo[n].Cycle? && memo[n].breakAt == b)
  }

  lemma TerminalOffCycle(p: Parents, n: Id)
    requires Terminal(p, n)
    ensures !OnCycle(p, n)
  {
    forall k: nat | k > 0 ensures Up(p, n, k) == None {}
  }

  lemma MemoHoldsItsCuts(p: Parents, memo: Memo, n: Id)
    requires MemoValid(p, memo) && n in memo && memo[n].Cycle?
    ensures memo[n].breakAt in memo && memo[memo[n].breakAt] == memo[n]
  {
    var k: nat :| Up(p, n, k) == Some(memo[n].breakAt);
    MemoConstantUp(p, memo, n, k);
  }

  lemma FullMemoCutsOnce(p: Parents, memo: Memo, cuts: set<Id>)
    requires MemoValid(p, memo) && p.Keys <= memo.Keys && CutsOf(memo, cuts)
    ensures OneCutPerCycle(p, cuts)
  {
    forall n | OnCycle(p, n) ensures exists b :: b in cuts && Reaches(p, n, b) {
      if memo[n].Root? {
        var r := memo[n].root;
        CycleReachesBack(p, n, r);
        TerminalOffCycle(p, r);
      }
      assert memo[n].breakAt in cuts;
    }
    forall b, c | b in cuts && c in cuts && Reaches(p, b, c) ensures b == c {
      var n :| n in memo && memo[n].Cycle? && memo[n].breakAt == b;
      var m :| m in memo && memo[m].Cycle? && memo[m].breakAt == c;
      MemoHoldsItsCuts(p, memo, n);
      MemoHoldsItsCuts(p, memo, m);
      var k: nat :| Up(p, b, k) == Some(c);
      MemoConstantUp(p, memo, b, k);
    }
  }

  ghost predicate Remembers(memo: Memo, c: (Id, Id)) {
    Cycle(c.0, c.1) in memo.Values
  }

  /** The recorded cycles are exactly the cycle resolutions of the memo. */
  ghost predicate CyclesOf(memo: Memo, cycles: set<(Id, Id)>) {
    && (forall n :: n in memo && memo[n].Cycle? ==> (memo[n].root, memo[n].breakAt) in cycles)
    && (forall c :: c in cycles ==> Remembers(memo, c))
  }

  lemma CyclesGrow(memo: Memo, grown: Memo, r: Resolution, cycles: set<(Id, Id)>, node: Id)
    requires CyclesOf(memo, cycles) && Extends(memo, grown)
    requires node in grown && grown[node] == r
    requires forall n :: n in grown && n !in memo ==> grown[n] == r
    ensures CyclesOf(grown, if r.Cycle? then cycles + {(r.root, r.breakAt)} else cycles)
  {
    forall c | c in cycles ensures Remembers(grown, c) {
      var n :| n in memo && memo[n] == Cycle(c.0, c.1);
      assert grown[n] == memo[n];
    }
  }

  lemma CycleNamesOneCut(p: Parents, memo: Memo, cycles: set<(Id, Id)>, c: (Id, Id), d: (Id, Id))
    requires MemoValid(p, memo) && CyclesOf(memo, cycles) && c in cycles && d in cycles && c.1 == d.1
    ensures c == d
  {
    var n :| n in memo && memo[n] == Cycle(c.0, c.1);
    var m :| m in memo && memo[m] == Cycle(d.0, d.1);
    MemoHoldsItsCuts(p, memo, n);
    MemoHoldsItsCuts(p, memo, m);
  }

  ghost predicate CutsNamed(cycles: set<(Id, Id)>, cuts: set<Id>) {
    && (forall c :: c in cycles ==> c.1 in cuts)
    && (forall b :: b in cuts ==> exists c :: c in cycles && c.1 == b)
  }

  lemma CutsGrow(memo: Memo, grown: Memo, r: Resolution, cuts: set<Id>, node: Id)
    requires CutsOf(memo, cuts) && Extends(memo, grown)
    requires node in grown && grown[node] == r
    requires forall n :: n in grown && n !in memo ==> grown[n] == r
    ensures CutsOf(grown, if r.Cycle? then cuts + {r.breakAt} else cuts)
  {
    forall b | b in cuts ensures exists n :: n in grown && grown[n].Cycle? && grown[n].breakAt == b {
      var n :| n in memo && memo[n].Cycle? && memo[n].breakAt == b;
      assert grown[n] == memo[n];
    }
  }

  lemma CutsAreNamed(memo: Memo, cuts: set<Id>, cycles: set<(Id, Id)>)
    requires CyclesOf(memo, cycles) && CutsOf(memo, cuts)
    ensures CutsNamed(cycles, cuts)
  {
    forall c | c in cycles ensures c.1 in cuts {
      var n :| n in memo && memo[n] == Cycle(c.0, c.1);
    }
    forall b | b in cuts ensures exists c :: c in cycles && c.1 == b {
      var n :| n in memo && memo[n].Cycle? && memo[n].breakAt == b;
      assert (memo[n].root, memo[n].breakAt) in cycles;
    }
  }

  // ----- the earliest walk into a cycle decides -----

  /** The node at some place before `i` walks into the cycle at `b`, and no node before it leads there. */
  ghost predicate FirstAmong(p: Parents, ordered: seq<Id>, i: nat, r: Id, b: Id) {
    && EntersAt(p, r, b)
    && exists k :: 0 <= k < i <= |ordered| && ordered[k] == r && NoneBefore(p, ordered, k, b)
  }

  ghost predicate NoneBefore(p: Parents, ordered: seq<Id>, k: int, b: Id) {
    forall j :: 0 <= j < k <= |ordered| ==> !Reaches(p, ordered[j], b)
  }

  ghost predicate MemoFirst(p: Parents, ordered: seq<Id>, i: nat, memo: Memo) {
    forall n {:trigger memo[n]} :: n in memo && memo[n].Cycle? ==> FirstAmong(p, ordered, i, memo[n].root, memo[n].breakAt)
  }

  lemma FirstLater(p: Parents, ordered: seq<Id>, i: nat, r: Id, b: Id)
    requires FirstAmong(p, ordered, i, r, b) && i < |ordered|
    ensures FirstAmong(p, ordered, i + 1, r, b)
  {
  }

  lemma FreshIsFirst(p: Parents, ordered: seq<Id>, i: nat, memo: Memo, r: Resolution)
    requires i < |ordered| && MemoValid(p, memo) && (forall j :: 0 <= j < i ==> ordered[j] in memo)
    requires FreshCycle(p, memo, ordered[i], r)
    ensures FirstAmong(p, ordered, i + 1, r.root, r.breakAt)
  {
    forall j | 0 <= j < i ensures !Reaches(p, ordered[j], r.breakAt) {
      if k: nat :| Up(p, ordered[j], k) == Some(r.breakAt) {
        MemoConstantUp(p, memo, ordered[j], k);
      }
    }
    assert NoneBefore(p, ordered, i, r.breakAt);
  }

  lemma FirstGrows(p: Parents, ordered: seq<Id>, i: nat, memo: Memo, grown: Memo, r: Resolution)
    requires i < |ordered| && MemoValid(p, memo) && (forall j :: 0 <= j < i ==> ordered[j] in memo)
    requires MemoFirst(p, ordered, i, memo) && Extends(memo, grown)
    requires forall n :: n in grown && n !in memo ==> grown[n] == r
    requires r.Cycle? && r !in memo.Values ==> FreshCycle(p, memo, ordered[i], r)
    ensures MemoFirst(p, ordered, i + 1, grown)
  {
    forall n | n in grown && grown[n].Cycle? ensures FirstAmong(p, ordered, i + 1, grown[n].root, grown[n].breakAt) {
      if n in memo {
        FirstLater(p, ordered, i, memo[n].root, memo[n].breakAt);
      } else if r in memo.Values {
        var m :| m in memo && memo[m] == r;
        FirstLater(p, ordered, i, memo[m].root, memo[m].breakAt);
      } else {
        FreshIsFirst(p, ordered, i, memo, r);
      }
    }
  }

  lemma FirstIsEarliest(p: Parents, ordered: seq<Id>, le: (Id, Id) -> bool, r: Id, b: Id)
    requires ToSet(ordered) == p.Keys && TotalPreorder(le) && Sorted(ordered, le)
    requires FirstAmong(p, ordered, |ordered|, r, b)
    ensures EarliestInto(p, le, r, b)
  {
    var k :| 0 <= k < |ordered| && ordered[k] == r && NoneBefore(p, ordered, k, b);
    assert r in ToSet(ordered);
    forall m | m in p && Reaches(p, m, b) ensures le(r, m) {
      assert m in ToSet(ordered);
      var j :| 0 <= j < |ordered| && ordered[j] == m;
      assert j >= k;
      assert le(ordered[k], ordered[j]) by {
        if j == k {
          assert le(r, r) || le(r, r);
        }
      }
    }
  }

  /** The memo's cycle resolution is the choice for every cycle. */
  lemma MemoChoice(p: Parents, ordered: seq<Id>, le: (Id, Id) -> bool, memo: Memo, cycles: set<(Id, Id)>, r: Id, b: Id)
    requires ToSet(ordered) == p.Keys && TotalPreorder(le) && Sorted(ordered, le)
    requires NoTies(le)
    requires MemoValid(p, memo) && p.Keys <= memo.Keys && MemoFirst(p, ordered, |ordered|, memo) && CyclesOf(memo, cycles)
    ensures (r, b) in cycles <==> EarliestInto(p, le, r, b)
  {
    if (r, b) in cycles {
      assert Remembers(memo, (r, b));
      var n :| n in memo && memo[n] == Cycle(r, b);
      FirstIsEarliest(p, ordered, le, r, b);
    }
    if EarliestInto(p, le, r, b) {
      CycleNodeResolves(p, memo, b);
      FirstIsEarliest(p, ordered, le, memo[b].root, memo[b].breakAt);
      ChoiceUnique(p, le, r, b, memo[b].root, memo[b].breakAt);
    }
  }

  lemma CycleNodeResolves(p: Parents, memo: Memo, n: Id)
    requires MemoValid(p, memo) && n in memo && OnCycle(p, n)
    ensures memo[n].Cycle? && Reaches(p, n, memo[n].breakAt)
  {
    if memo[n].Root? {
      CycleReachesBack(p, n, memo[n].root);
      TerminalOffCycle(p, memo[n].root);
    }
  }

  /** What the walks from the first `i` nodes have found. */
  ghost predicate WalkedFirst(p: Parents, ordered: seq<Id>, i: nat, memo: Memo, cycles: set<(Id, Id)>, cuts: set<Id>) {
    && i <= |ordered| && MemoValid(p, memo) && (forall j :: 0 <= j < i ==> ordered[j] in memo)
    && CyclesOf(memo, cycles) && CutsOf(memo, cuts) && MemoFirst(p, ordered, i, memo)
  }

  lemma WalkGrows(p: Parents, ordered: seq<Id>, i: nat, memo: Memo, cycles: set<(Id, Id)>, cuts: set<Id>, grown: Memo, r: Resolution)
    requires i < |ordered| && WalkedFirst(p, ordered, i, memo, cycles, cuts)
    requires MemoValid(p, grown) && Extends(memo, grown) && ordered[i] in grown && grown[ordered[i]] == r
    requires forall n :: n in grown && n !in memo ==> grown[n] == r
    requires r.Cycle? && r !in memo.Values ==> FreshCycle(p, memo, ordered[i], r)
    ensures WalkedFirst(p, ordered, i + 1, grown, if r.Cycle? then cycles + {(r.root, r.breakAt)} else cycles,
                        if r.Cycle? then cuts + {r.breakAt} else cuts)
  {
    CyclesGrow(memo, grown, r, cycles, ordered[i]);
    CutsGrow(memo, grown, r, cuts, ordered[i]);
    FirstGrows(p, ordered, i, memo, grown, r);
  }

  lemma AllWalked(p: Parents, ordered: seq<Id>, memo: Memo)
    requires ToSet(ordered) == p.Keys && forall j :: 0 <= j < |ordered| ==> ordered[j] in memo
    ensures p.Keys <= memo.Keys
  {
    forall n | n in p ensures n in memo {
      assert n in ToSet(ordered);
    }
  }

  method WalkAll(ordered: seq<Id>, parentOf: Parents) returns (cuts: set<Id>, cycles: set<(Id, Id)>, ghost memo: Memo)
    requires ToSet(ordered) == parentOf.Keys
    ensures MemoValid(parentOf, memo) && parentOf.Keys <= memo.Keys
    ensures CyclesOf(memo, cycles) && CutsOf(memo, cuts) && MemoFirst(parentOf, ordered, |ordered|, memo)
  {
    var shared: Memo := map[];
    cuts, cycles := {}, {};
    for i := 0 to |ordered|
      invariant WalkedFirst(parentOf, ordered, i, shared, cycles, cuts)
    {
      assert ordered[i] in ToSet(ordered);
      var resolution, grown := RootFor(ordered[i], parentOf, shared);
      WalkGrows(parentOf, ordered, i, shared, cycles, cuts, grown, resolution);
      shared := grown;
      if resolution.Cycle? {
        cuts, cycles := cuts + {resolution.breakAt}, cycles + {(resolution.root, resolution.breakAt)};
      }
    }
    AllWalked(parentOf, ordered, shared);
    memo := shared;
  }

  function PairAtMost(): ((Id, Id), (Id, Id)) -> bool {
    (a: (Id, Id), b: (Id, Id)) => a.0.number < b.0.number || (a.0.number == b.0.number && a.1.number <= b.1.number)
  }

  /** The cycles found, in order, each cut named once. */
  ghost predicate Reasons(reasons: seq<(Id, Id)>, cuts: set<Id>) {
    && Sorted(reasons, PairAtMost())
    && (forall i :: 0 <= i < |reasons| ==> reasons[i].1 in cuts)
    && (forall b :: b in cuts ==> exists i :: 0 <= i < |reasons| && reasons[i].1 == b)
    && (forall i, j :: 0 <= i < j < |reasons| ==> reasons[i].1 != reasons[j].1)
  }

  lemma ReasonsFrom(cycles: set<(Id, Id)>, cuts: set<Id>, reasons: seq<(Id, Id)>)
    requires CutsNamed(cycles, cuts) && ToSet(reasons) == cycles && NoDup(reasons) && Sorted(reasons, PairAtMost())
    requires forall c, d :: c in cycles && d in cycles && c.1 == d.1 ==> c == d
    ensures Reasons(reasons, cuts)
  {
    forall i | 0 <= i < |reasons| ensures reasons[i] in cycles {
      assert reasons[i] in ToSet(reasons);
    }
    forall b | b in cuts ensures exists i :: 0 <= i < |reasons| && reasons[i].1 == b {
      var c :| c in cycles && c.1 == b;
      assert c in ToSet(reasons);
    }
  }

  method ListReasons(cycles: set<(Id, Id)>, ghost cuts: set<Id>) returns (reasons: seq<(Id, Id)>)
    requires CutsNamed(cycles, cuts)
    requires forall c, d :: c in cycles && d in cycles && c.1 == d.1 ==> c == d
    ensures Reasons(reasons, cuts) && ToSet(reasons) == cycles
  {
    var any := AnyOrder(cycles);
    reasons := Sort(any, PairAtMost());
    SortSorts(any, PairAtMost());
    NoDupFromMultiset(any, reasons);
    ReasonsFrom(cycles, cuts, reasons);
  }

  /** Reasons are listed by the number of the node walked from, then by that of the node cut. */
  lemma ReasonsIncrease(reasons: seq<(Id, Id)>, cuts: set<Id>, i: nat, j: nat)
    requires Reasons(reasons, cuts) && i < j < |reasons|
    ensures reasons[i].0.number < reasons[j].0.number
            || (reasons[i].0.number == reasons[j].0.number && reasons[i].1.number < reasons[j].1.number)
  {
    assert PairAtMost()(reasons[i], reasons[j]) && reasons[i].1 != reasons[j].1;
  }

  lemma ReasonsSayWhether(reasons: seq<(Id, Id)>, cuts: set<Id>)
    requires Reasons(reasons, cuts)
    ensures reasons == [] <==> cuts == {}
  {
    if reasons != [] {
      assert reasons[0].1 in cuts;
    }
  }

  lemma CutsAreChosen(p: Parents, ordered: seq<Id>, le: (Id, Id) -> bool, memo: Memo, cycles: set<(Id, Id)>, cuts: set<Id>)
    requires ToSet(ordered) == p.Keys && TotalPreorder(le) && Sorted(ordered, le) && NoTies(le)
    requires MemoValid(p, memo) && p.Keys <= memo.Keys && MemoFirst(p, ordered, |ordered|, memo)
    requires CyclesOf(memo, cycles) && CutsNamed(cycles, cuts)
    ensures cuts == TheCuts(p, le)
  {
    forall b ensures b in cuts <==> b in TheCuts(p, le) {
      if b in cuts {
        var c :| c in cycles && c.1 == b;
        MemoChoice(p, ordered, le, memo, cycles, c.0, b);
        assert ChosenCut(p, le, b);
      }
      if ChosenCut(p, le, b) {
        var r :| EarliestInto(p, le, r, b);
        MemoChoice(p, ordered, le, memo, cycles, r, b);
      }
    }
  }

  lemma ReasonsAreChoices(p: Parents, ordered: seq<Id>, le: (Id, Id) -> bool, memo: Memo, cycles: set<(Id, Id)>, reasons: seq<(Id, Id)>)
    requires ToSet(ordered) == p.Keys && TotalPreorder(le) && Sorted(ordered, le) && NoTies(le)
    requires MemoValid(p, memo) && p.Keys <= memo.Keys && MemoFirst(p, ordered, |ordered|, memo)
    requires CyclesOf(memo, cycles) && ToSet(reasons) == cycles
    ensures NamesChoices(p, le, reasons)
  {
    forall c ensures c in reasons <==> EarliestInto(p, le, c.0, c.1) {
      MemoChoice(p, ordered, le, memo, cycles, c.0, c.1);
      assert c in ToSet(reasons) <==> c in reasons;
    }
  }

  /** The cuts of a walk over all nodes in order: one on each cycle, the one the earliest walk into it enters. */
  method CutCycles(ordered: seq<Id>, parentOf: Parents, ghost le: (Id, Id) -> bool) returns (cuts: set<Id>, reasons: seq<(Id, Id)>)
    requires ToSet(ordered) == parentOf.Keys && TotalPreorder(le) && Sorted(ordered, le) && NoTies(le)
    ensures OneCutPerCycle(parentOf, cuts) && cuts == TheCuts(parentOf, le)
    ensures Reasons(reasons, cuts) && NamesChoices(parentOf, le, reasons)
  {
    var cut, cycles;
    ghost var memo;
    cut, cycles, memo := WalkAll(ordered, parentOf);
    cuts := cut;
    CutsAreNamed(memo, cuts, cycles);
    forall c, d | c in cycles && d in cycles && c.1 == d.1 ensures c == d {
      CycleNamesOneCut(parentOf, memo, cycles, c, d);
    }
    reasons := ListReasons(cycles, cuts);
    FullMemoCutsOnce(parentOf, memo, cuts);
    CutsAreChosen(parentOf, ordered, le, memo, cycles, cuts);
    ReasonsAreChoices(parentOf, ordered, le, memo, cycles, reasons);
  }

  // ----- the kept edges -----

  /** The parent map after cutting: cut nodes and nodes whose parent is not carried become roots. */
  function Kept(p: Parents, cuts: set<Id>): (kept: Parents) {
    map n | n in p :: if n !in cuts && HasParent(p, n) then p[n] else None
  }

  ghost predicate Acyclic(p: Parents) {
    forall n :: !OnCycle(p, n)
  }

  lemma {:induction false} KeptWalk(p: Parents, cuts: set<Id>, n: Id, k: nat)
    requires n in p && Up(Kept(p, cuts), n, k).Some?
    ensures Up(p, n, k) == Up(Kept(p, cuts), n, k)
    ensures forall j: nat :: j < k ==> Up(p, n, j).Some? && Up(p, n, j).value !in cuts
    decreases k
  {
    if k > 0 {
      KeptWalk(p, cuts, p[n].value, k - 1);
      forall j: nat | j < k ensures Up(p, n, j).Some? && Up(p, n, j).value !in cuts {
        if j > 0 {
          assert Up(p, n, j) == Up(p, p[n].value, j - 1);
        }
      }
    }
  }

  /** Going round a cycle more than once meets nothing new. */
  lemma WithinOneTurn(p: Parents, n: Id, k: nat, j: nat)
    requires k > 0 && Up(p, n, k) == Some(n)
    ensures Up(p, n, j % k) == Up(p, n, j)
  {
    AroundCycle(p, n, k, j / k);
    UpAdd(p, n, k * (j / k), j % k);
  }

  lemma NoKeptTurn(p: Parents, cuts: set<Id>, n: Id, k: nat)
    requires OneCutPerCycle(p, cuts) && n in p && k > 0
    ensures Up(Kept(p, cuts), n, k) != Some(n)
  {
    if Up(Kept(p, cuts), n, k) == Some(n) {
      KeptWalk(p, cuts, n, k);
      assert OnCycle(p, n);
      var b :| b in cuts && Reaches(p, n, b);
      var j: nat :| Up(p, n, j) == Some(b);
      WithinOneTurn(p, n, k, j);
    }
  }

  lemma KeptAcyclic(p: Parents, cuts: set<Id>)
    requires OneCutPerCycle(p, cuts)
    ensures Acyclic(Kept(p, cuts))
  {
    forall n: Id, k: nat | n in p && k > 0 ensures Up(Kept(p, cuts), n, k) != Some(n) {
      NoKeptTurn(p, cuts, n, k);
    }
  }

  /** Without cycles a walk meets each carried node at most once, so it ends. */
  lemma {:induction false} WalkEnds(p: Parents, n: Id, trail: seq<Id>) returns (k: nat)
    requires Acyclic(p) && n in p && NoDup(trail) && ToSet(trail) <= p.Keys
    requires forall i :: 0 <= i < |trail| ==> Up(p, trail[i], |trail| - i) == Some(n)
    ensures Up(p, n, k).Some? && Terminal(p, Up(p, n, k).value) && k + |trail| < |p|
    decreases |p| - |trail|
  {
    TrailGrows(p, n, trail);
    var longer := trail + [n];
    TrailFits(p, longer);
    if HasParent(p, n) {
      var j := WalkEnds(p, p[n].value, longer);
      k := j + 1;
    } else {
      k := 0;
    }
  }

  lemma TrailFits(p: Parents, trail: seq<Id>)
    requires NoDup(trail) && ToSet(trail) <= p.Keys
    ensures |trail| <= |p|
  {
    NoDupCount(trail);
    SubsetSize(ToSet(trail), p.Keys);
  }

  lemma TrailGrows(p: Parents, n: Id, trail: seq<Id>)
    requires Acyclic(p) && n in p && NoDup(trail) && ToSet(trail) <= p.Keys
    requires forall i :: 0 <= i < |trail| ==> Up(p, trail[i], |trail| - i) == Some(n)
    ensures NoDup(trail + [n]) && ToSet(trail + [n]) <= p.Keys
    ensures HasParent(p, n) ==> forall i :: 0 <= i <= |trail| ==> Up(p, (trail + [n])[i], |trail| + 1 - i) == Some(p[n].value)
  {
    assert !OnCycle(p, n);
    assert n !in trail;
    if HasParent(p, n) {
      assert Up(p, n, 1) == Up(p, p[n].value, 0);
      forall i | 0 <= i < |trail| ensures Up(p, trail[i], |trail| + 1 - i) == Some(p[n].value) {
        UpAdd(p, trail[i], |trail| - i, 1);
      }
    }
  }

  ghost predicate RootOf(p: Parents, n: Id, r: Id) {
    Terminal(p, r) && Reaches(p, n, r)
  }

  /** In a structure without cycles every node has exactly one root. */
  lemma ReachesOneRoot(p: Parents, n: Id)
    requires Acyclic(p) && n in p
    ensures exists r :: RootOf(p, n, r)
    ensures forall r, s :: RootOf(p, n, r) && RootOf(p, n, s) ==> r == s
  {
    var k := WalkEnds(p, n, []);
    assert RootOf(p, n, Up(p, n, k).value);
    forall r, s | RootOf(p, n, r) && RootOf(p, n, s) ensures r == s {
      ReachedFromOne(p, n, r, s);
      assert forall j: nat :: j > 0 ==> Up(p, r, j) == None && Up(p, s, j) == None;
    }
  }

  ghost predicate StepsToRoot(p: Parents, n: Id, k: nat) {
    Up(p, n, k).Some? && Terminal(p, Up(p, n, k).value)
  }

  lemma StepsUnique(p: Parents, n: Id, j: nat, k: nat)
    requires StepsToRoot(p, n, j) && StepsToRoot(p, n, k) && j <= k
    ensures j == k
  {
    UpAdd(p, n, j, k - j);
  }

  lemma EndsSomewhere(p: Parents, n: Id)
    requires Acyclic(p) && n in p
    ensures exists k: nat :: StepsToRoot(p, n, k) && k < |p|
  {
    var k := WalkEnds(p, n, []);
    assert StepsToRoot(p, n, k);
  }

  ghost function Depth(p: Parents, n: Id): (k: nat)
    requires Acyclic(p) && n in p
    ensures StepsToRoot(p, n, k) && k < |p|
  {
    EndsSomewhere(p, n);
    var k: nat :| StepsToRoot(p, n, k) && k < |p|;
    k
  }

  /** A child is one step deeper than its parent. */
  lemma ChildDeeper(p: Parents, n: Id)
    requires Acyclic(p) && HasParent(p, n)
    ensures Depth(p, n) == Depth(p, p[n].value) + 1
  {
    var k, d := Depth(p, p[n].value), Depth(p, n);
    assert Up(p, n, k + 1) == Up(p, p[n].value, k);
    if d <= k + 1 {
      StepsUnique(p, n, d, k + 1);
    } else {
      StepsUnique(p, n, k + 1, d);
    }
  }

  /** Ranking a node by how far it is from being deepest orders parents above children. */
  lemma HeightRank(p: Parents) returns (rank: map<Id, nat>)
    requires Acyclic(p)
    ensures rank.Keys == p.Keys
    ensures forall n :: HasParent(p, n) ==> rank[n] < rank[p[n].value]
  {
    rank := map n | n in p :: |p| - Depth(p, n);
    forall n | HasParent(p, n) ensures rank[n] < rank[p[n].value] {
      ChildDeeper(p, n);
    }
  }
}
