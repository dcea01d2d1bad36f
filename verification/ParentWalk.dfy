/** `root_for`: walking parent pointers with a memo shared between walks.

    The parent map is arbitrary: it may hold cycles and may name parents it does not carry. */
module ParentWalk {
  import opened Common
  import opened Sequences

  type Parents = map<Id, Option<Id>>

  datatype Resolution = Root(root: Id) | Cycle(root: Id, breakAt: Id) | Missing

  type Memo = map<Id, Resolution>

  /** The node names a parent and the payload carries that parent. */
  predicate HasParent(p: Parents, n: Id) {
    n in p && p[n].Some? && p[n].value in p
  }

  ghost function Up(p: Parents, n: Id, k: nat): Option<Id>
    decreases k
  {
    if k == 0 then Some(n) else if HasParent(p, n) then Up(p, p[n].value, k - 1) else None
  }

  ghost predicate Reaches(p: Parents, n: Id, m: Id) {
    exists k: nat :: Up(p, n, k) == Some(m)
  }

  ghost predicate OnCycle(p: Parents, n: Id) {
    n in p && exists k: nat :: k > 0 && Up(p, n, k) == Some(n)
  }

  ghost predicate Terminal(p: Parents, n: Id) {
    n in p && !HasParent(p, n)
  }

  // ----- walking is composition -----

  lemma {:induction false} UpAdd(p: Parents, n: Id, j: nat, k: nat)
    ensures Up(p, n, j + k) == if Up(p, n, j).Some? then Up(p, Up(p, n, j).value, k) else None
    decreases j
  {
    if j > 0 && HasParent(p, n) {
      UpAdd(p, p[n].value, j - 1, k);
    }
  }

  lemma ReachesTransitive(p: Parents, a: Id, b: Id, c: Id)
    requires Reaches(p, a, b) && Reaches(p, b, c)
    ensures Reaches(p, a, c)
  {
    var j: nat :| Up(p, a, j) == Some(b);
    var k: nat :| Up(p, b, k) == Some(c);
    UpAdd(p, a, j, k);
  }

  /** One walk visits both, so one of them is above the other. */
  lemma ReachedFromOne(p: Parents, n: Id, a: Id, b: Id)
    requires Reaches(p, n, a) && Reaches(p, n, b)
    ensures Reaches(p, a, b) || Reaches(p, b, a)
  {
    var j: nat :| Up(p, n, j) == Some(a);
    var k: nat :| Up(p, n, k) == Some(b);
    if j <= k {
      UpAdd(p, n, j, k - j);
      assert Up(p, a, k - j) == Some(b);
    } else {
      UpAdd(p, n, k, j - k);
      assert Up(p, b, j - k) == Some(a);
    }
  }

  lemma {:induction false} AroundCycle(p: Parents, n: Id, k: nat, times: nat)
    requires Up(p, n, k) == Some(n)
    ensures Up(p, n, k * times) == Some(n)
  {
    if times > 0 {
      AroundCycle(p, n, k, times - 1);
      assert k * times == k + k * (times - 1);
      UpAdd(p, n, k, k * (times - 1));
    }
  }

  /** Whatever a cycle node reaches is on that same cycle. */
  lemma CycleReachesBack(p: Parents, n: Id, m: Id)
    requires OnCycle(p, n) && Reaches(p, n, m)
    ensures Reaches(p, m, n) && OnCycle(p, m)
  {
    var k: nat :| k > 0 && Up(p, n, k) == Some(n);
    var j: nat :| Up(p, n, j) == Some(m);
    AroundCycle(p, n, k, j + 1);
    var total := k * (j + 1);
    TimesAtLeast(k, j);
    UpAdd(p, n, j, total - j);
    UpAdd(p, m, total - j, j);
    InMap(p, n, j);
  }

  lemma TimesAtLeast(k: nat, j: nat)
    requires k > 0
    ensures k * (j + 1) > j
  {
    assert k * (j + 1) >= j + 1;
  }

  lemma {:induction false} InMap(p: Parents, n: Id, k: nat)
    requires n in p && Up(p, n, k).Some?
    ensures Up(p, n, k).value in p
    decreases k
  {
    if k > 0 {
      InMap(p, p[n].value, k - 1);
    }
  }

  // ----- where a walk enters a cycle -----

  /** `b` is the first cycle node on the walk up from `r`, which starts at `b` itself or off any cycle. */
  ghost predicate EntersAfter(p: Parents, r: Id, b: Id, k: nat) {
    Up(p, r, k) == Some(b) && forall j: nat {:trigger Up(p, r, j)} :: j < k ==> Up(p, r, j).Some? && !OnCycle(p, Up(p, r, j).value)
  }

  ghost predicate EntersAt(p: Parents, r: Id, b: Id) {
    OnCycle(p, b) && exists k: nat :: EntersAfter(p, r, b, k)
  }

  lemma EntersOnce(p: Parents, r: Id, b: Id, c: Id)
    requires EntersAt(p, r, b) && EntersAt(p, r, c)
    ensures b == c
  {
    var k: nat :| EntersAfter(p, r, b, k);
    var l: nat :| EntersAfter(p, r, c, l);
    assert Up(p, r, k) == Some(b) && Up(p, r, l) == Some(c);
  }

  lemma EntersReaches(p: Parents, r: Id, b: Id)
    requires EntersAt(p, r, b)
    ensures Reaches(p, r, b)
  {
    var k: nat :| EntersAfter(p, r, b, k);
  }

  // ----- the memo's invariant -----

  ghost predicate Sound(p: Parents, n: Id, r: Resolution) {
    match r
    case Root(root) => Terminal(p, root) && Reaches(p, n, root)
    case Cycle(_, at) => OnCycle(p, at) && Reaches(p, n, at)
    case Missing => false
  }

  ghost predicate MemoValid(p: Parents, memo: Memo) {
    && (forall n :: n in memo ==> n in p && Sound(p, n, memo[n]))
    && (forall n :: n in memo && HasParent(p, n) ==> p[n].value in memo && memo[p[n].value] == memo[n])
  }

  lemma {:induction false} MemoConstantUp(p: Parents, memo: Memo, n: Id, k: nat)
    requires MemoValid(p, memo) && n in memo && Up(p, n, k).Some?
    ensures Up(p, n, k).value in memo && memo[Up(p, n, k).value] == memo[n]
    decreases k
  {
    if k > 0 {
      MemoConstantUp(p, memo, p[n].value, k - 1);
    }
  }

  /** The chain of one walk: distinct carried nodes, each the parent of the one before. */
  ghost predicate Chain(p: Parents, memo: Memo, node: Id, chain: seq<Id>) {
    && NoDup(chain)
    && (forall i :: 0 <= i < |chain| ==> chain[i] in p && chain[i] !in memo && Up(p, node, i) == Some(chain[i]))
  }

  ghost predicate Extends(small: Memo, big: Memo) {
    forall n :: n in small ==> n in big && big[n] == small[n]
  }

  lemma ChainStep(p: Parents, memo: Memo, node: Id, chain: seq<Id>, i: nat, j: nat)
    requires Chain(p, memo, node, chain) && i <= j < |chain|
    ensures Reaches(p, chain[i], chain[j])
  {
    UpAdd(p, node, i, j - i);
  }

  /** Recording one resolution for a whole chain keeps the memo valid, when that resolution is
      sound for the last node and is what the last node's parent already has. */
  lemma RecordChain(p: Parents, memo: Memo, node: Id, chain: seq<Id>, r: Resolution, out: Memo)
    requires MemoValid(p, memo) && Chain(p, memo, node, chain)
    requires forall n :: n in out <==> n in memo || n in chain
    requires forall n :: n in memo ==> out[n] == memo[n]
    requires forall n :: n in chain ==> out[n] == r
    requires forall i :: 0 <= i < |chain| ==> Sound(p, chain[i], r)
    requires chain != [] && HasParent(p, chain[|chain| - 1]) ==>
               var up := p[chain[|chain| - 1]].value; up in chain || (up in memo && memo[up] == r)
    ensures MemoValid(p, out)
  {
    forall n | n in out && HasParent(p, n) ensures p[n].value in out && out[p[n].value] == out[n] {
      if n in chain {
        var i :| 0 <= i < |chain| && chain[i] == n;
        if i + 1 < |chain| {
          UpAdd(p, node, i, 1);
          assert Up(p, n, 1) == Some(p[n].value) by { assert Up(p, p[n].value, 0) == Some(p[n].value); }
          assert p[n].value == chain[i + 1];
        }
      }
    }
  }

  lemma ChainGrows(p: Parents, memo: Memo, node: Id, chain: seq<Id>, current: Id)
    requires Chain(p, memo, node, chain)
    requires current in p && current !in memo && current !in chain && Up(p, node, |chain|) == Some(current)
    ensures Chain(p, memo, node, chain + [current])
    ensures HasParent(p, current) ==> Up(p, node, |chain| + 1) == Some(p[current].value)
  {
    if HasParent(p, current) {
      UpAdd(p, node, |chain|, 1);
      assert Up(p, current, 1) == Up(p, p[current].value, 0);
    }
  }

  lemma SoundByMemo(p: Parents, memo: Memo, node: Id, chain: seq<Id>, current: Id)
    requires MemoValid(p, memo) && Chain(p, memo, node, chain)
    requires current in memo && Up(p, node, |chain|) == Some(current)
    ensures forall i :: 0 <= i < |chain| ==> Sound(p, chain[i], memo[current])
  {
    var r := memo[current];
    forall i | 0 <= i < |chain| ensures Sound(p, chain[i], r) {
      UpAdd(p, node, i, |chain| - i);
      assert Reaches(p, chain[i], current);
      ReachesTransitive(p, chain[i], current, if r.Root? then r.root else r.breakAt);
    }
  }

  lemma SoundByRoot(p: Parents, memo: Memo, node: Id, chain: seq<Id>)
    requires Chain(p, memo, node, chain) && chain != [] && !HasParent(p, chain[|chain| - 1])
    ensures forall i :: 0 <= i < |chain| ==> Sound(p, chain[i], Root(chain[|chain| - 1]))
  {
    forall i | 0 <= i < |chain| ensures Reaches(p, chain[i], chain[|chain| - 1]) {
      ChainStep(p, memo, node, chain, i, |chain| - 1);
    }
  }

  lemma SoundByCycle(p: Parents, memo: Memo, node: Id, chain: seq<Id>, current: Id)
    requires Chain(p, memo, node, chain) && current in chain
    requires Up(p, node, |chain|) == Some(current)
    ensures forall i :: 0 <= i < |chain| ==> Sound(p, chain[i], Cycle(node, current))
  {
    var at :| 0 <= at < |chain| && chain[at] == current;
    UpAdd(p, node, at, |chain| - at);
    assert OnCycle(p, current);
    forall i | 0 <= i < |chain| ensures Reaches(p, chain[i], current) {
      UpAdd(p, node, i, |chain| - i);
    }
  }

  /** The chain's first repeated node is the first node of the chain on a cycle. */
  lemma FirstRepeatEnters(p: Parents, memo: Memo, node: Id, chain: seq<Id>, current: Id)
    requires Chain(p, memo, node, chain) && current in chain && Up(p, node, |chain|) == Some(current)
    ensures EntersAt(p, node, current)
  {
    var at: nat :| at < |chain| && chain[at] == current;
    UpAdd(p, node, at, |chain| - at);
    assert OnCycle(p, current);
    forall j: nat | j < at ensures Up(p, node, j).Some? && !OnCycle(p, Up(p, node, j).value) {
      OffCycleBefore(p, memo, node, chain, at, j);
    }
    assert EntersAfter(p, node, current, at);
  }

  lemma OffCycleBefore(p: Parents, memo: Memo, node: Id, chain: seq<Id>, at: nat, j: nat)
    requires Chain(p, memo, node, chain) && j < at < |chain| && Up(p, node, |chain|) == Some(chain[at])
    ensures Up(p, node, j) == Some(chain[j]) && !OnCycle(p, chain[j])
  {
    if OnCycle(p, chain[j]) {
      UpAdd(p, node, j, at - j);
      assert Reaches(p, chain[j], chain[at]);
      CycleReachesBack(p, chain[j], chain[at]);
      var k: nat :| Up(p, chain[at], k) == Some(chain[j]);
      StaysOnCycle(p, memo, node, chain, at, k);
    }
  }

  /** From the repeated node on, a walk stays in the part of the chain after its first visit. */
  lemma {:induction false} StaysOnCycle(p: Parents, memo: Memo, node: Id, chain: seq<Id>, at: nat, k: nat)
    requires Chain(p, memo, node, chain) && at < |chain| && Up(p, node, |chain|) == Some(chain[at])
    ensures exists i :: at <= i < |chain| && Up(p, chain[at], k) == Some(chain[i])
    decreases k
  {
    if k == 0 {
      assert Up(p, chain[at], 0) == Some(chain[at]);
    } else {
      StaysOnCycle(p, memo, node, chain, at, k - 1);
      var i :| at <= i < |chain| && Up(p, chain[at], k - 1) == Some(chain[i]);
      UpAdd(p, chain[at], k - 1, 1);
      UpAdd(p, node, i, 1);
      assert Up(p, node, i + 1) == Some(if i + 1 < |chain| then chain[i + 1] else chain[at]);
    }
  }

  method Record(memo: Memo, chain: seq<Id>, resolution: Resolution) returns (out: Memo)
    ensures out.Keys == memo.Keys + ToSet(chain)
    ensures forall n :: n in out ==> out[n] == if n in chain then resolution else memo[n]
  {
    out := memo;
    for at := 0 to |chain|
      invariant out.Keys == memo.Keys + ToSet(chain[..at])
      invariant forall n :: n in out ==> out[n] == if n in chain[..at] then resolution else memo[n]
    {
      out := out[chain[at] := resolution];
      assert chain[..at + 1] == chain[..at] + [chain[at]];
    }
    assert chain[..|chain|] == chain;
  }

  /** Where a walk stands: the chain so far, and the node it goes on from. */
  ghost predicate Walking(p: Parents, memo: Memo, node: Id, chain: seq<Id>, current: Id) {
    && Chain(p, memo, node, chain) && Up(p, node, |chain|) == Some(current)
    && (if chain == [] then current == node
        else chain[0] == node && node in p && HasParent(p, chain[|chain| - 1]) && p[chain[|chain| - 1]].value == current)
  }

  /** A finished walk: one resolution, sound for the whole chain and agreeing with what lies above it. */
  ghost predicate Walked(p: Parents, memo: Memo, node: Id, chain: seq<Id>, r: Resolution) {
    && Chain(p, memo, node, chain) && chain != [] && chain[0] == node
    && (forall i :: 0 <= i < |chain| ==> Sound(p, chain[i], r))
    && (HasParent(p, chain[|chain| - 1]) ==>
          var up := p[chain[|chain| - 1]].value; up in chain || (up in memo && memo[up] == r))
  }

  lemma WalkOn(p: Parents, memo: Memo, node: Id, chain: seq<Id>, current: Id)
    requires Walking(p, memo, node, chain, current) && current in p && current !in memo && current !in chain
    ensures Chain(p, memo, node, chain + [current]) && (chain + [current])[0] == node
    ensures HasParent(p, current) ==> Walking(p, memo, node, chain + [current], p[current].value)
    ensures !HasParent(p, current) ==> Walked(p, memo, node, chain + [current], Root(current))
  {
    ChainGrows(p, memo, node, chain, current);
    if !HasParent(p, current) {
      SoundByRoot(p, memo, node, chain + [current]);
    }
  }

  /** A cycle found for the first time is named by the node the walk began at, and cut where that walk enters it. */
  ghost predicate FreshCycle(p: Parents, memo: Memo, node: Id, r: Resolution) {
    r.Cycle? && r.root == node && EntersAt(p, node, r.breakAt) && r.breakAt !in memo
  }

  /** The walk up from an unresolved node. It ends at a memoised node, at a node met before, or at a root. */
  method Walk(node: Id, parentOf: Parents, memo: Memo) returns (resolution: Resolution, chain: seq<Id>)
    requires MemoValid(parentOf, memo) && node !in memo
    ensures resolution.Missing? <==> node !in parentOf
    ensures node in parentOf ==> Walked(parentOf, memo, node, chain, resolution)
    ensures resolution.Cycle? && resolution !in memo.Values ==> FreshCycle(parentOf, memo, node, resolution)
  {
    chain := [];
    var seen: set<Id> := {};
    var current := node;
    while true
      invariant Walking(parentOf, memo, node, chain, current) && seen == ToSet(chain)
      decreases parentOf.Keys - seen
    {
      if current in memo {
        SoundByMemo(parentOf, memo, node, chain, current);
        return memo[current], chain;
      }
      if current in seen {
        SoundByCycle(parentOf, memo, node, chain, current);
        FirstRepeatEnters(parentOf, memo, node, chain, current);
        return Cycle(node, current), chain;
      }
      if current !in parentOf {
        return Missing, chain;
      }
      WalkOn(parentOf, memo, node, chain, current);
      chain, seen := chain + [current], seen + {current};
      if parentOf[current].None? || parentOf[current].value !in parentOf {
        return Root(current), chain;
      }
      current := parentOf[current].value;
    }
  }

  /** `root_for`: one resolution for everything on the walk, recorded so that no node is walked twice. */
  method RootFor(node: Id, parentOf: Parents, memo: Memo) returns (resolution: Resolution, out: Memo)
    requires MemoValid(parentOf, memo)
    ensures MemoValid(parentOf, out) && Extends(memo, out)
    ensures resolution.Missing? <==> node !in parentOf
    ensures node in parentOf ==> node in out && out[node] == resolution
    ensures node in memo || node !in parentOf ==> out == memo
    ensures forall n :: n in out && n !in memo ==> Reaches(parentOf, node, n) && out[n] == resolution
    ensures resolution.Cycle? && resolution !in memo.Values ==> FreshCycle(parentOf, memo, node, resolution)
  {
    if node in memo {
      return memo[node], memo;
    }
    var chain;
    resolution, chain := Walk(node, parentOf, memo);
    if resolution == Missing {
      return resolution, memo;
    }
    out := Record(memo, chain, resolution);
    RecordChain(parentOf, memo, node, chain, resolution, out);
    forall n | n in out && n !in memo ensures Reaches(parentOf, node, n) {
      var i :| 0 <= i < |chain| && chain[i] == n;
    }
  }
}
