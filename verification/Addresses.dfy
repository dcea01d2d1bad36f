/** Addresses name the event-bearing nodes of a built forest one for one. */
module Addresses {
  import opened Common
  import opened ForestModel
  import opened ForestRollup
  import opened BearingCycle
  import opened AlignmentSpec
  import opened AlignmentTree
  import opened AddressJoin

  /** The sibling an address starts at. */
  ghost predicate StartsAt(f: Forest, ids: seq<Id>, step: Step, t: Id) {
    Kth(f, ids, step.name, step.index, t)
  }

  lemma {:induction false} ResolvedInside(f: Forest, down: map<Id, nat>, ids: seq<Id>, address: Address, n: Id) returns (t: Id)
    requires Falling(f, down) && AllBearing(f, ids) && address != [] && Resolve(f, ids, address) == Some(n)
    ensures t in ids && StartsAt(f, ids, address[0], t) && Bearing(f, t) && f.nodes[t].spanName == address[0].name
    ensures AllBearing(f, BearingChildren(f, t)) && n in Below(f, down, t)
    ensures if |address| == 1 then n == t else Resolve(f, BearingChildren(f, t), address[1..]) == Some(n) && n in BelowList(f, down, BearingChildren(f, t))
    decreases |address|
  {
    var step, rest := address[0], address[1..];
    if rest == [] {
      assert address == [step];
      OneStep(f, ids, step);
    } else {
      assert address == [step] + rest;
      ResolveStep(f, ids, step, rest);
    }
    t := Named(f, ids, step.name)[step.index];
    KthIn(f, ids, step.name, step.index, t);
    ChildrenBelow(f, down, t);
    if rest != [] {
      var u := ResolvedInside(f, down, BearingChildren(f, t), rest, n);
      BelowListIs(f, down, BearingChildren(f, t), n);
    }
  }

  /** Two starting points with a node below both are the same step. */
  lemma SameStart(f: Forest, down: map<Id, nat>, ids: seq<Id>, a: Step, b: Step, t: Id, u: Id, n: Id)
    requires Falling(f, down) && AllBearing(f, ids) && Spread(f, down, ids)
    requires StartsAt(f, ids, a, t) && StartsAt(f, ids, b, u) && t in ids && u in ids
    requires n in Below(f, down, t) && n in Below(f, down, u)
    ensures t == u && a == b
  {
    var i :| 0 <= i < |ids| && ids[i] == t;
    var j :| 0 <= j < |ids| && ids[j] == u;
    assert i == j;
    KthIn(f, ids, a.name, a.index, t);
    KthIn(f, ids, b.name, b.index, u);
    SpreadNoDup(f, down, ids);
    NamedIs(f, ids, a.name);
  }

  lemma {:induction false} AddressUnique(f: Forest, down: map<Id, nat>, ids: seq<Id>, a: Address, b: Address, n: Id)
    requires Falling(f, down) && AllBearing(f, ids) && Spread(f, down, ids) && a != [] && b != []
    requires Resolve(f, ids, a) == Some(n) && Resolve(f, ids, b) == Some(n)
    ensures a == b
    decreases |a|
  {
    var t := ResolvedInside(f, down, ids, a, n);
    var u := ResolvedInside(f, down, ids, b, n);
    SameStart(f, down, ids, a[0], b[0], t, u, n);
    assert SpreadNode(f, down, t) by {
      var i :| 0 <= i < |ids| && ids[i] == t;
    }
    if |a| > 1 && |b| > 1 {
      AddressUnique(f, down, BearingChildren(f, t), a[1..], b[1..], n);
    }
    assert a == [a[0]] + a[1..] && b == [b[0]] + b[1..];
  }

  lemma {:induction false} AddressExists(f: Forest, down: map<Id, nat>, ids: seq<Id>, n: Id) returns (address: Address)
    requires Falling(f, down) && AllBearing(f, ids) && n in BelowList(f, down, ids)
    ensures address != [] && Resolve(f, ids, address) == Some(n)
    decreases Top(down, ids)
  {
    BelowListIs(f, down, ids, n);
    var t :| t in ids && n in Below(f, down, t);
    NamedIs(f, ids, f.nodes[t].spanName);
    var k: nat :| k < |Named(f, ids, f.nodes[t].spanName)| && Named(f, ids, f.nodes[t].spanName)[k] == t;
    var step := Step(f.nodes[t].spanName, k);
    if n == t {
      address := [step];
      OneStep(f, ids, step);
    } else {
      ChildrenBelow(f, down, t);
      var rest := AddressExists(f, down, BearingChildren(f, t), n);
      address := [step] + rest;
      ResolveStep(f, ids, step, rest);
    }
  }

  // ----- nothing event-bearing is out of reach -----

  lemma {:induction false} BelowClosed(f: Forest, down: map<Id, nat>, ids: seq<Id>, p: Id, c: Id)
    requires Falling(f, down) && AllBearing(f, ids) && p in BelowList(f, down, ids)
    requires Bearing(f, p) && Bearing(f, c) && c in f.nodes[p].children
    ensures c in BelowList(f, down, ids)
    decreases Top(down, ids)
  {
    BelowListIs(f, down, ids, p);
    BelowListIs(f, down, ids, c);
    var t :| t in ids && p in Below(f, down, t);
    ChildrenBelow(f, down, t);
    EventBearingIs(f, f.nodes[p].children);
    if p == t {
      ChildrenBelow(f, down, c);
      assert c in Below(f, down, c);
      BelowListIs(f, down, BearingChildren(f, t), c);
    } else {
      BelowClosed(f, down, BearingChildren(f, t), p, c);
    }
    assert c in Below(f, down, t);
  }

  lemma {:induction false} PartOfSum(ids: seq<Id>, f: Forest, c: Id)
    requires c in ids && c in f.nodes
    ensures f.nodes[c].subtreeEvents <= ChildrenSum(ids, f)
  {
    if ids[0] != c {
      PartOfSum(ids[1..], f, c);
    }
  }

  lemma {:induction false} ReachedFromRoots(f: Forest, down: map<Id, nat>, rank: map<Id, nat>, bound: nat, n: Id)
    requires Falling(f, down) && Linked(f) && Ranked(f, rank) && RolledUp(f) && Bearing(f, n)
    requires forall m :: m in f.nodes ==> rank[m] < bound
    requires AllBearing(f, EventBearing(f, f.roots))
    ensures n in BelowList(f, down, EventBearing(f, f.roots))
    decreases bound - rank[n]
  {
    var roots := EventBearing(f, f.roots);
    EventBearingIs(f, f.roots);
    match f.nodes[n].parentId
    case None =>
      assert n in f.roots && n in Below(f, down, n);
      BelowListIs(f, down, roots, n);
    case Some(p) =>
      assert n in f.nodes[p].children;
      PartOfSum(f.nodes[p].children, f, n);
      ReachedFromRoots(f, down, rank, bound, p);
      BelowClosed(f, down, roots, p, n);
  }

  lemma AllReached(f: Forest, down: map<Id, nat>)
    requires Falling(f, down) && TreeShaped(f) && RolledUp(f)
    ensures AllBearing(f, EventBearing(f, f.roots)) && Spread(f, down, EventBearing(f, f.roots))
    ensures forall n :: Bearing(f, n) ==> n in BelowList(f, down, EventBearing(f, f.roots))
  {
    var rank :| Ranked(f, rank);
    var bound := Bounded(f.nodes.Keys, rank);
    RootsSpread(f, down);
    forall n | Bearing(f, n) ensures n in BelowList(f, down, EventBearing(f, f.roots)) {
      ReachedFromRoots(f, down, rank, bound, n);
    }
  }

  lemma SomeRank(f: Forest) returns (down: map<Id, nat>)
    requires TreeShaped(f) && RolledUp(f)
    ensures Falling(f, down) && AllBearing(f, EventBearing(f, f.roots)) && Spread(f, down, EventBearing(f, f.roots))
    ensures forall n :: Bearing(f, n) ==> n in BelowList(f, down, EventBearing(f, f.roots))
  {
    TreesRise(f);
    var rising :| RisesAlongChildren(f, rising);
    down := TurnOver(f, rising);
    AllReached(f, down);
  }

  /** An event-bearing node of a built forest has an address. */
  lemma AddressOf(f: Forest, n: Id) returns (a: Address)
    requires TreeShaped(f) && RolledUp(f) && Bearing(f, n)
    ensures a != [] && Resolve(f, EventBearing(f, f.roots), a) == Some(n)
  {
    var down := SomeRank(f);
    a := AddressExists(f, down, EventBearing(f, f.roots), n);
  }

  lemma AddressBears(f: Forest, a: Address, n: Id)
    requires TreeShaped(f) && RolledUp(f) && a != [] && Resolve(f, EventBearing(f, f.roots), a) == Some(n)
    ensures Bearing(f, n)
  {
    var down := SomeRank(f);
    ResolvedBears(f, down, EventBearing(f, f.roots), a, n);
  }

  lemma OneAddress(f: Forest, a: Address, b: Address, n: Id)
    requires TreeShaped(f) && RolledUp(f) && a != [] && b != []
    requires Resolve(f, EventBearing(f, f.roots), a) == Some(n) == Resolve(f, EventBearing(f, f.roots), b)
    ensures a == b
  {
    var down := SomeRank(f);
    AddressUnique(f, down, EventBearing(f, f.roots), a, b, n);
  }

  /** In a built forest each event-bearing node has exactly one address, and addresses name nothing else. */
  lemma OneAddressEach(f: Forest)
    requires TreeShaped(f) && RolledUp(f)
    ensures forall n :: Bearing(f, n) <==> exists a: Address :: a != [] && Resolve(f, EventBearing(f, f.roots), a) == Some(n)
    ensures forall n, a: Address, b: Address {:trigger Resolve(f, EventBearing(f, f.roots), a), Resolve(f, EventBearing(f, f.roots), b), Bearing(f, n)} ::
              a != [] && b != [] && Resolve(f, EventBearing(f, f.roots), a) == Some(n) == Resolve(f, EventBearing(f, f.roots), b) ==> a == b
  {
    var roots := EventBearing(f, f.roots);
    forall n ensures Bearing(f, n) <==> exists a: Address :: a != [] && Resolve(f, roots, a) == Some(n) {
      if Bearing(f, n) {
        var a := AddressOf(f, n);
      }
      if a: Address :| a != [] && Resolve(f, roots, a) == Some(n) {
        AddressBears(f, a, n);
      }
    }
    forall n, a: Address, b: Address | a != [] && b != [] && Resolve(f, roots, a) == Some(n) == Resolve(f, roots, b) ensures a == b {
      OneAddress(f, a, b, n);
    }
  }

  lemma {:induction false} ResolvedBears(f: Forest, down: map<Id, nat>, ids: seq<Id>, address: Address, n: Id)
    requires Falling(f, down) && AllBearing(f, ids) && address != [] && Resolve(f, ids, address) == Some(n)
    ensures Bearing(f, n)
    decreases |address|
  {
    var t := ResolvedInside(f, down, ids, address, n);
    if |address| > 1 {
      ResolvedBears(f, down, BearingChildren(f, t), address[1..], n);
    }
  }

  // ----- what the join says -----

  /** A record node and a replay node are matched exactly when one address names both. */
  lemma MatchedRowsAreSameAddress(record: Forest, replay: Forest, rIds: seq<Id>, pIds: seq<Id>, r: Id, p: Id)
    requires AllBearing(record, rIds)
    ensures
      (exists address: Address, row :: address != [] && RowAt(record, replay, rIds, pIds, address) == Some(row)
         && row.outcome == Matched && row.recordNode == Some(r) && row.replayNode == Some(p))
      <==>
      (exists address: Address :: address != [] && Resolve(record, rIds, address) == Some(r) && Resolve(replay, pIds, address) == Some(p))
  {
    if address: Address :| address != [] && Resolve(record, rIds, address) == Some(r) && Resolve(replay, pIds, address) == Some(p) {
      ResolvedThere(record, rIds, address, r);
      var row := RowAt(record, replay, rIds, pIds, address);
      assert row.Some? && row == Some(row.value);
    }
  }

  lemma {:induction false} ResolvedThere(f: Forest, ids: seq<Id>, address: Address, n: Id)
    requires address != [] && Resolve(f, ids, address) == Some(n)
    ensures n in f.nodes
    decreases |address|
  {
    var step, rest := address[0], address[1..];
    if rest == [] {
      assert address == [step];
      OneStep(f, ids, step);
    } else {
      assert address == [step] + rest;
      ResolveStep(f, ids, step, rest);
      ResolvedThere(f, BearingChildren(f, Named(f, ids, step.name)[step.index]), rest, n);
    }
  }

  /** Aligned with itself, a forest matches every node to itself and collapses nothing. */
  lemma SelfRow(f: Forest, ids: seq<Id>, address: Address)
    ensures RowAt(f, f, ids, ids, address).Some? ==>
              var row := RowAt(f, f, ids, ids, address).value; row.outcome == Matched && row.recordNode == row.replayNode
    ensures Resolve(f, ids, address).Some? ==> RowAt(f, f, ids, ids, address).Some? && RowAt(f, f, ids, ids, address).value.recordNode == Resolve(f, ids, address)
  {
    if Resolve(f, ids, address).Some? {
      ResolvedThere(f, ids, address, Resolve(f, ids, address).value);
    }
  }

  // ----- the order of differently named siblings is not looked at -----

  /** The same siblings of each name in the same order; names interleaved in any way. */
  ghost predicate SameGroups(f: Forest, ids: seq<Id>, g: Forest, jds: seq<Id>) {
    forall name :: Named(f, ids, name) == Named(g, jds, name)
  }

  ghost predicate Interleaved(f: Forest, g: Forest) {
    && f.nodes.Keys == g.nodes.Keys
    && (forall n {:trigger f.nodes[n]} :: n in f.nodes ==> f.nodes[n].spanName == g.nodes[n].spanName && f.nodes[n].subtreeEvents == g.nodes[n].subtreeEvents)
    && (forall n {:trigger BearingChildren(f, n)} :: n in f.nodes ==> SameGroups(f, BearingChildren(f, n), g, BearingChildren(g, n)))
  }

  lemma {:induction false} InterleavedResolves(f: Forest, ids: seq<Id>, g: Forest, jds: seq<Id>, address: Address)
    requires Interleaved(f, g) && SameGroups(f, ids, g, jds) && address != []
    ensures GroupAt(f, ids, address) == GroupAt(g, jds, address) && Resolve(f, ids, address) == Resolve(g, jds, address)
    decreases |address|
  {
    var step, rest := address[0], address[1..];
    assert Named(f, ids, step.name) == Named(g, jds, step.name);
    if rest != [] && step.index < |Named(f, ids, step.name)| {
      var t := Named(f, ids, step.name)[step.index];
      KthIn(f, ids, step.name, step.index, t);
      InterleavedResolves(f, BearingChildren(f, t), g, BearingChildren(g, t), rest);
    }
  }

  /** Interleaving differently named siblings another way, on either side, changes no row. */
  lemma InterleavedRow(record: Forest, replay: Forest, rIds: seq<Id>, pIds: seq<Id>,
                               record': Forest, replay': Forest, rIds': seq<Id>, pIds': seq<Id>, address: Address)
    requires Interleaved(record, record') && SameGroups(record, rIds, record', rIds')
    requires Interleaved(replay, replay') && SameGroups(replay, pIds, replay', pIds') && address != []
    ensures RowAt(record, replay, rIds, pIds, address) == RowAt(record', replay', rIds', pIds', address)
  {
    InterleavedResolves(record, rIds, record', rIds', address);
    InterleavedResolves(replay, pIds, replay', pIds', address);
    if |address| > 1 {
      InterleavedResolves(record, rIds, record', rIds', address[..|address| - 1]);
      InterleavedResolves(replay, pIds, replay', pIds', address[..|address| - 1]);
    }
  }
}
