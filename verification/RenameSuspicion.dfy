/** How `align` matches unmatched subtrees by shape, to suspect a rename: equal values are paired,
    each once, the latest replay candidate first. */
module RenameSuspicion {
  import opened Sequences

  // ----- pairing equal values, the latest replay first -----

  function Places<T(==)>(ys: seq<T>, v: T): seq<nat> {
    if ys == [] then []
    else Places(ys[..|ys| - 1], v) + if ys[|ys| - 1] == v then [|ys| - 1] else []
  }

  lemma {:induction false} PlaceIn<T>(ys: seq<T>, v: T, j: nat)
    ensures j in Places(ys, v) <==> j < |ys| && ys[j] == v
  {
    if ys != [] {
      PlaceIn(ys[..|ys| - 1], v, j);
    }
  }

  lemma {:induction false} PlacesCount<T>(ys: seq<T>, v: T)
    ensures |Places(ys, v)| == multiset(ys)[v]
  {
    if ys != [] {
      PlacesCount(ys[..|ys| - 1], v);
      assert ys == ys[..|ys| - 1] + [ys[|ys| - 1]];
    }
  }

  lemma {:induction false} PlacesNoDup<T>(ys: seq<T>, v: T)
    ensures NoDup(Places(ys, v))
  {
    if ys != [] {
      var init := ys[..|ys| - 1];
      PlacesNoDup(init, v);
      PlaceIn(init, v, |init|);
    }
  }

  lemma PlacesAre<T>(ys: seq<T>, v: T)
    ensures forall j: nat :: j in Places(ys, v) <==> j < |ys| && ys[j] == v
    ensures NoDup(Places(ys, v))
    ensures |Places(ys, v)| == multiset(ys)[v]
  {
    forall j: nat ensures j in Places(ys, v) <==> j < |ys| && ys[j] == v {
      PlaceIn(ys, v, j);
    }
    PlacesNoDup(ys, v);
    PlacesCount(ys, v);
  }

  /** How many of the places of `v` are still open once `seen` has been served. */
  function StillOpen<T(==)>(seen: seq<T>, ys: seq<T>, v: T): seq<nat> {
    var places, used := Places(ys, v), multiset(seen)[v];
    if used <= |places| then places[..|places| - used] else []
  }

  /** Each value of `xs` takes the last open place of its own value, if there is one. */
  function Pairing<T(==)>(xs: seq<T>, ys: seq<T>): seq<(nat, nat)> {
    if xs == [] then []
    else
      var init, v := xs[..|xs| - 1], xs[|xs| - 1];
      var open := StillOpen(init, ys, v);
      Pairing(init, ys) + if open == [] then [] else [(|init|, open[|open| - 1])]
  }

  lemma StillOpenNext<T>(seen: seq<T>, ys: seq<T>, v: T, w: T)
    ensures StillOpen(seen + [v], ys, w) ==
              if w != v || StillOpen(seen, ys, w) == [] then StillOpen(seen, ys, w)
              else StillOpen(seen, ys, w)[..|StillOpen(seen, ys, w)| - 1]
  {
    assert multiset(seen + [v])[w] == multiset(seen)[w] + if w == v then 1 else 0;
  }

  /** The open places per value, as `replay_by_shape` holds them, and the flags of the places taken. */
  ghost predicate OpenPlaces<T(!new)>(seen: seq<T>, ys: seq<T>, open: map<T, seq<nat>>, taken: seq<bool>) {
    && |taken| == |ys|
    && (forall v :: v in open <==> v in ys)
    && (forall v {:trigger open[v]} :: v in open ==> open[v] == StillOpen(seen, ys, v))
    && (forall v, j {:trigger j in open[v]} :: v in open && j in open[v] ==> 0 <= j < |ys| && !taken[j])
  }

  ghost predicate ListsPlaces<T(!new)>(ys: seq<T>, open: map<T, seq<nat>>) {
    && (forall v :: v in open <==> v in ys)
    && (forall v {:trigger open[v]} :: v in open ==> open[v] == Places(ys, v))
  }

  lemma ListOnePlace<T(!new)>(ys: seq<T>, y: T, open: map<T, seq<nat>>)
    requires ListsPlaces(ys, open)
    ensures ListsPlaces(ys + [y], open[y := (if y in open then open[y] else []) + [|ys|]])
  {
    var more := ys + [y];
    assert more[..|more| - 1] == ys;
    PlacesAre(ys, y);
    forall v | v in more ensures Places(more, v) == Places(ys, v) + if v == y then [|ys|] else [] {
    }
  }

  lemma AllOpenAtFirst<T(!new)>(ys: seq<T>, open: map<T, seq<nat>>, taken: seq<bool>)
    requires ListsPlaces(ys, open) && |taken| == |ys| && forall i :: 0 <= i < |taken| ==> !taken[i]
    ensures OpenPlaces([], ys, open, taken)
  {
    forall v | v in open ensures open[v] == StillOpen([], ys, v) && forall j :: j in open[v] ==> 0 <= j < |ys| {
      PlacesAre(ys, v);
    }
  }

  method GroupPlaces<T(==, !new)>(ys: seq<T>) returns (open: map<T, seq<nat>>, taken: seq<bool>)
    ensures OpenPlaces([], ys, open, taken)
  {
    open := map[];
    for i := 0 to |ys|
      invariant ListsPlaces(ys[..i], open)
    {
      ListOnePlace(ys[..i], ys[i], open);
      assert ys[..i + 1] == ys[..i] + [ys[i]];
      open := open[ys[i] := (if ys[i] in open then open[ys[i]] else []) + [i]];
    }
    assert ys[..|ys|] == ys;
    taken := seq(|ys|, _ => false);
    AllOpenAtFirst(ys, open, taken);
  }

  /** The place taken is on the list of its own value and on no other. */
  lemma PlaceOnce<T(!new)>(seen: seq<T>, ys: seq<T>, v: T, w: T, j: nat)
    requires j in StillOpen(seen, ys, v) && j in StillOpen(seen, ys, w)
    ensures v == w
  {
    assert j in Places(ys, v) && j in Places(ys, w);
    PlaceIn(ys, v, j);
    PlaceIn(ys, w, j);
  }

  lemma LastOnce<T>(seen: seq<T>, ys: seq<T>, v: T)
    requires StillOpen(seen, ys, v) != []
    ensures var open := StillOpen(seen, ys, v); open[|open| - 1] !in open[..|open| - 1]
  {
    var open, places := StillOpen(seen, ys, v), Places(ys, v);
    PlacesNoDup(ys, v);
    assert open == places[..|open|];
    forall i | 0 <= i < |open| - 1 ensures open[i] != open[|open| - 1] {
      assert places[i] != places[|open| - 1];
    }
  }

  /** Places still listed once the last of `v` is taken are not that one. */
  lemma OthersStayOpen<T(!new)>(seen: seq<T>, ys: seq<T>, v: T, w: T, k: nat)
    requires StillOpen(seen, ys, v) != [] && k in StillOpen(seen + [v], ys, w)
    ensures k in StillOpen(seen, ys, w) && k != StillOpen(seen, ys, v)[|StillOpen(seen, ys, v)| - 1]
  {
    var open := StillOpen(seen, ys, v);
    StillOpenNext(seen, ys, v, w);
    LastOnce(seen, ys, v);
    if w != v && k == open[|open| - 1] {
      PlaceOnce(seen, ys, v, w, k);
    }
  }

  lemma TakeLast<T(!new)>(seen: seq<T>, ys: seq<T>, open: map<T, seq<nat>>, taken: seq<bool>, v: T)
    requires OpenPlaces(seen, ys, open, taken) && v in open && open[v] != []
    ensures
      var j := open[v][|open[v]| - 1];
      && j < |taken| && !taken[j]
      && OpenPlaces(seen + [v], ys, open[v := open[v][..|open[v]| - 1]], taken[j := true])
  {
    var last := |open[v]| - 1;
    var j := open[v][last];
    assert j in open[v];
    var open' := open[v := open[v][..last]];
    forall w | w in open' ensures open'[w] == StillOpen(seen + [v], ys, w) {
      StillOpenNext(seen, ys, v, w);
    }
    forall w, k | w in open' && k in open'[w] ensures 0 <= k < |ys| && !taken[j := true][k] {
      OthersStayOpen(seen, ys, v, w, k);
      assert k in open[w];
    }
  }

  lemma NothingToTake<T(!new)>(seen: seq<T>, ys: seq<T>, open: map<T, seq<nat>>, taken: seq<bool>, v: T)
    requires OpenPlaces(seen, ys, open, taken) && (v in open ==> open[v] == [])
    ensures OpenPlaces(seen + [v], ys, open, taken) && StillOpen(seen, ys, v) == []
  {
    PlacesAre(ys, v);
    forall w | w in open ensures open[w] == StillOpen(seen + [v], ys, w) {
      StillOpenNext(seen, ys, v, w);
    }
  }

  /** One unmatched record subtree looks for a replay subtree of its shape. */
  method TakeOne<T(==, !new)>(v: T, open: map<T, seq<nat>>, taken: seq<bool>, ghost seen: seq<T>, ghost ys: seq<T>)
    returns (found: seq<nat>, open': map<T, seq<nat>>, taken': seq<bool>)
    requires OpenPlaces(seen, ys, open, taken)
    ensures OpenPlaces(seen + [v], ys, open', taken')
    ensures var was := StillOpen(seen, ys, v); found == if was == [] then [] else [was[|was| - 1]]
  {
    found, open', taken' := [], open, taken;
    if v in open && open[v] != [] {
      TakeLast(seen, ys, open, taken, v);
      var j := open[v][|open[v]| - 1];
      if !taken[j] {
        found := [j];
        taken' := taken[j := true];
      }
      open' := open[v := open[v][..|open[v]| - 1]];
    } else {
      NothingToTake(seen, ys, open, taken, v);
    }
  }

  lemma PairUpNext<T>(xs: seq<T>, ys: seq<T>, i: nat)
    requires i < |xs|
    ensures
      var open := StillOpen(xs[..i], ys, xs[i]);
      && xs[..i + 1] == xs[..i] + [xs[i]]
      && Pairing(xs[..i + 1], ys) == Pairing(xs[..i], ys) + if open == [] then [] else [(i, open[|open| - 1])]
  {
    assert xs[..i + 1][..i] == xs[..i];
  }

  method PairUp<T(==, !new)>(xs: seq<T>, ys: seq<T>) returns (pairs: seq<(nat, nat)>)
    ensures pairs == Pairing(xs, ys)
  {
    var open, taken := GroupPlaces(ys);
    pairs := [];
    for i := 0 to |xs|
      invariant OpenPlaces(xs[..i], ys, open, taken)
      invariant pairs == Pairing(xs[..i], ys)
    {
      var found;
      found, open, taken := TakeOne(xs[i], open, taken, xs[..i], ys);
      PairUpNext(xs, ys, i);
      if found != [] {
        pairs := pairs + [(i, found[0])];
      }
    }
    assert xs[..|xs|] == xs;
  }

  /** How many pairs carry the value `v`. */
  ghost function PairsWith<T>(xs: seq<T>, pairs: seq<(nat, nat)>, v: T): nat {
    if pairs == [] then 0
    else
      var p := pairs[|pairs| - 1];
      PairsWith(xs, pairs[..|pairs| - 1], v) + if p.0 < |xs| && xs[p.0] == v then 1 else 0
  }

  lemma {:induction false} PairsWithLonger<T>(xs: seq<T>, x: T, pairs: seq<(nat, nat)>, v: T)
    requires forall p :: p in pairs ==> p.0 < |xs|
    ensures PairsWith(xs + [x], pairs, v) == PairsWith(xs, pairs, v)
  {
    if pairs != [] {
      assert pairs[|pairs| - 1] in pairs;
      PairsWithLonger(xs, x, pairs[..|pairs| - 1], v);
    }
  }

  ghost predicate EqualPairs<T>(xs: seq<T>, ys: seq<T>, pairs: seq<(nat, nat)>) {
    forall p :: p in pairs ==> p.0 < |xs| && p.1 < |ys| && xs[p.0] == ys[p.1]
  }

  ghost predicate UsedOnce(pairs: seq<(nat, nat)>) {
    forall a, b :: 0 <= a < b < |pairs| ==> pairs[a].0 < pairs[b].0 && pairs[a].1 != pairs[b].1
  }

  ghost predicate OpenUnused<T(!new)>(xs: seq<T>, ys: seq<T>, pairs: seq<(nat, nat)>) {
    forall v, j, p :: j in StillOpen(xs, ys, v) && p in pairs ==> p.1 != j
  }

  lemma StillOpenSize<T(!new)>(seen: seq<T>, ys: seq<T>, v: T)
    ensures |StillOpen(seen, ys, v)| == multiset(ys)[v] - Least(multiset(seen)[v], multiset(ys)[v])
  {
    PlacesAre(ys, v);
  }

  /** The next value takes its last open place, if one is left. */
  lemma PairingNext<T>(init: seq<T>, v: T, ys: seq<T>)
    ensures
      var open, had := StillOpen(init, ys, v), Pairing(init, ys);
      if open == [] then Pairing(init + [v], ys) == had
      else
        var j := open[|open| - 1];
        j < |ys| && ys[j] == v && Pairing(init + [v], ys) == had + [(|init|, j)]
  {
    assert (init + [v])[..|init|] == init;
    var open := StillOpen(init, ys, v);
    if open != [] {
      var j := open[|open| - 1];
      assert j == Places(ys, v)[|open| - 1];
      assert j in Places(ys, v);
      PlaceIn(ys, v, j);
    }
  }

  lemma PairsWithNext<T>(init: seq<T>, v: T, had: seq<(nat, nat)>, j: nat, w: T)
    requires forall p :: p in had ==> p.0 < |init|
    ensures PairsWith(init + [v], had + [(|init|, j)], w) == PairsWith(init, had, w) + if v == w then 1 else 0
  {
    var pairs := had + [(|init|, j)];
    assert pairs[..|pairs| - 1] == had;
    PairsWithLonger(init, v, had, w);
  }

  lemma CountStep<T(!new)>(init: seq<T>, v: T, ys: seq<T>, w: T)
    requires forall p :: p in Pairing(init, ys) ==> p.0 < |init|
    requires PairsWith(init, Pairing(init, ys), w) == Least(multiset(init)[w], multiset(ys)[w])
    ensures PairsWith(init + [v], Pairing(init + [v], ys), w) == Least(multiset(init + [v])[w], multiset(ys)[w])
  {
    var open, had := StillOpen(init, ys, v), Pairing(init, ys);
    PairingNext(init, v, ys);
    StillOpenSize(init, ys, v);
    assert multiset(init + [v])[w] == multiset(init)[w] + if w == v then 1 else 0;
    PairsWithLonger(init, v, had, w);
    if open != [] {
      PairsWithNext(init, v, had, open[|open| - 1], w);
    }
  }

  lemma EqualAppend<T(!new)>(init: seq<T>, v: T, ys: seq<T>, had: seq<(nat, nat)>, j: nat)
    requires EqualPairs(init, ys, had) && UsedOnce(had)
    requires j < |ys| && ys[j] == v && forall p :: p in had ==> p.1 != j
    ensures EqualPairs(init + [v], ys, had + [(|init|, j)]) && UsedOnce(had + [(|init|, j)])
  {
    var pairs := had + [(|init|, j)];
    forall a, b | 0 <= a < b < |pairs| ensures pairs[a].0 < pairs[b].0 && pairs[a].1 != pairs[b].1 {
      assert had[a] in had;
    }
  }

  lemma EqualLonger<T(!new)>(init: seq<T>, v: T, ys: seq<T>, had: seq<(nat, nat)>)
    requires EqualPairs(init, ys, had)
    ensures EqualPairs(init + [v], ys, had)
  {
  }

  lemma EqualNext<T(!new)>(init: seq<T>, v: T, ys: seq<T>)
    requires EqualPairs(init, ys, Pairing(init, ys)) && UsedOnce(Pairing(init, ys)) && OpenUnused(init, ys, Pairing(init, ys))
    ensures EqualPairs(init + [v], ys, Pairing(init + [v], ys)) && UsedOnce(Pairing(init + [v], ys))
  {
    var had, open := Pairing(init, ys), StillOpen(init, ys, v);
    PairingNext(init, v, ys);
    EqualLonger(init, v, ys, had);
    if open != [] {
      assert open[|open| - 1] in open;
      EqualAppend(init, v, ys, had, open[|open| - 1]);
    }
  }

  /** Serving `v` closes its last open place and no other. */
  lemma StillOpenShrinks<T(!new)>(init: seq<T>, v: T, ys: seq<T>, w: T, j: nat)
    requires j in StillOpen(init + [v], ys, w)
    ensures j in StillOpen(init, ys, w)
    ensures StillOpen(init, ys, v) != [] ==> j != StillOpen(init, ys, v)[|StillOpen(init, ys, v)| - 1]
  {
    StillOpenNext(init, ys, v, w);
    if StillOpen(init, ys, v) != [] {
      OthersStayOpen(init, ys, v, w, j);
    }
  }

  lemma UnusedNext<T(!new)>(init: seq<T>, v: T, ys: seq<T>)
    requires OpenUnused(init, ys, Pairing(init, ys))
    ensures OpenUnused(init + [v], ys, Pairing(init + [v], ys))
  {
    PairingNext(init, v, ys);
    forall w, j: nat, p | j in StillOpen(init + [v], ys, w) && p in Pairing(init + [v], ys) ensures p.1 != j {
      StillOpenShrinks(init, v, ys, w, j);
    }
  }

  /** Suspected renames pair equal shapes, use each subtree once, and are as many as can be. */
  lemma {:induction false} PairingIsMaximal<T(!new)>(xs: seq<T>, ys: seq<T>)
    ensures EqualPairs(xs, ys, Pairing(xs, ys)) && UsedOnce(Pairing(xs, ys)) && OpenUnused(xs, ys, Pairing(xs, ys))
    ensures forall v :: PairsWith(xs, Pairing(xs, ys), v) == Least(multiset(xs)[v], multiset(ys)[v])
  {
    if xs == [] {
      forall v ensures multiset(xs)[v] == 0 {}
    } else {
      var init, v := xs[..|xs| - 1], xs[|xs| - 1];
      assert xs == init + [v];
      PairingIsMaximal(init, ys);
      EqualNext(init, v, ys);
      UnusedNext(init, v, ys);
      forall w ensures PairsWith(xs, Pairing(xs, ys), w) == Least(multiset(xs)[w], multiset(ys)[w]) {
        CountStep(init, v, ys, w);
      }
    }
  }

  // ----- which place is paired with which -----

  /** The `k`-th place of a value has `k` of it before, and the rest of it after. */
  lemma {:induction false} PlaceRank<T(!new)>(ys: seq<T>, v: T, k: nat)
    requires k < |Places(ys, v)|
    ensures
      var j := Places(ys, v)[k];
      j < |ys| && ys[j] == v && multiset(ys[..j])[v] == k && multiset(ys[j + 1..])[v] == |Places(ys, v)| - k - 1
  {
    var init, last := ys[..|ys| - 1], ys[|ys| - 1];
    assert ys == init + [last];
    PlacesCount(init, v);
    if k < |Places(init, v)| {
      PlaceRank(init, v, k);
      var j := Places(init, v)[k];
      assert ys[j + 1..] == init[j + 1..] + [last] && ys[..j] == init[..j];
    } else {
      assert ys[..|init|] == init && ys[|init| + 1..] == [];
    }
  }

  lemma PlaceOfRank<T(!new)>(ys: seq<T>, j: nat) returns (k: nat)
    requires j < |ys|
    ensures k < |Places(ys, ys[j])| && Places(ys, ys[j])[k] == j
  {
    PlaceIn(ys, ys[j], j);
    k :| k < |Places(ys, ys[j])| && Places(ys, ys[j])[k] == j;
  }

  /** The place taken next has as many of its value after it as were served before. */
  lemma LastOpenIs<T(!new)>(init: seq<T>, v: T, ys: seq<T>, j: nat)
    ensures
      var open := StillOpen(init, ys, v);
      open != [] && j == open[|open| - 1] <==> j < |ys| && ys[j] == v && multiset(init)[v] == multiset(ys[j + 1..])[v]
  {
    var places, used := Places(ys, v), multiset(init)[v];
    if used < |places| {
      PlaceRank(ys, v, |places| - used - 1);
    }
    if j < |ys| && ys[j] == v {
      var k := PlaceOfRank(ys, j);
      PlaceRank(ys, v, k);
    }
  }

  /** Of each value, the first met takes the last place, the second the last but one, and so on. */
  lemma {:induction false} PairingIs<T(!new)>(xs: seq<T>, ys: seq<T>, i: nat, j: nat)
    ensures (i, j) in Pairing(xs, ys) <==>
              i < |xs| && j < |ys| && xs[i] == ys[j] && multiset(xs[..i])[xs[i]] == multiset(ys[j + 1..])[xs[i]]
  {
    if xs != [] {
      var init, v := xs[..|xs| - 1], xs[|xs| - 1];
      assert xs == init + [v];
      PairingIs(init, ys, i, j);
      if i < |init| {
        assert xs[..i] == init[..i];
      } else if i == |init| {
        LastOpenIs(init, v, ys, j);
        assert xs[..i] == init;
      }
    }
  }

  /** A value met fewer times before than it has places gets one of them. */
  lemma ServedInTurn<T(!new)>(xs: seq<T>, ys: seq<T>, i: nat) returns (j: nat)
    requires i < |xs| && multiset(xs[..i])[xs[i]] < |Places(ys, xs[i])|
    ensures (i, j) in Pairing(xs, ys)
  {
    var k := |Places(ys, xs[i])| - multiset(xs[..i])[xs[i]] - 1;
    PlaceRank(ys, xs[i], k);
    j := Places(ys, xs[i])[k];
    PairingIs(xs, ys, i, j);
  }

  /** A place with fewer of its value after it than there are to serve is taken. */
  lemma TakenInTurn<T(!new)>(xs: seq<T>, ys: seq<T>, j: nat) returns (i: nat)
    requires j < |ys| && multiset(ys[j + 1..])[ys[j]] < |Places(xs, ys[j])|
    ensures (i, j) in Pairing(xs, ys)
  {
    var k := multiset(ys[j + 1..])[ys[j]];
    PlaceRank(xs, ys[j], k);
    i := Places(xs, ys[j])[k];
    PairingIs(xs, ys, i, j);
  }

  lemma RankOf<T(!new)>(ys: seq<T>, j: nat)
    requires j < |ys|
    ensures multiset(ys[..j])[ys[j]] + multiset(ys[j + 1..])[ys[j]] + 1 == |Places(ys, ys[j])|
  {
    var k := PlaceOfRank(ys, j);
    PlaceRank(ys, ys[j], k);
  }

  /** Two places of one value cannot both stay unpaired. */
  lemma OneIsPaired<T(!new)>(xs: seq<T>, ys: seq<T>, i: nat, j: nat) returns (q: (nat, nat))
    requires i < |xs| && j < |ys| && xs[i] == ys[j]
    ensures q in Pairing(xs, ys) && (q.0 == i || q.1 == j)
  {
    RankOf(xs, i);
    RankOf(ys, j);
    if multiset(xs[..i])[xs[i]] < |Places(ys, xs[i])| {
      var l := ServedInTurn(xs, ys, i);
      q := (i, l);
    } else {
      var k := TakenInTurn(xs, ys, j);
      q := (k, j);
    }
  }
}
