/** Duplicate-free sequences, sums over finite sets, and stable insertion sort.

    Hash containers of the original are iterated in an arbitrary order; `AnyOrder` is that arbitrary
    order, so nothing proved about a caller can depend on which one was taken. */
module Sequences {
  function Least(a: nat, b: nat): nat {
    if a <= b then a else b
  }

  ghost predicate NoDup<T(!new)>(xs: seq<T>) {
    forall i, j :: 0 <= i < j < |xs| ==> xs[i] != xs[j]
  }

  function ToSet<T(==, !new)>(xs: seq<T>): (s: set<T>)
    ensures forall x :: x in s <==> x in xs
  {
    set x | x in xs
  }

  lemma PrefixGrows<T(!new)>(xs: seq<T>, i: nat)
    requires i < |xs|
    ensures xs[..i + 1] == xs[..i] + [xs[i]]
    ensures ToSet(xs[..i + 1]) == ToSet(xs[..i]) + {xs[i]}
    ensures NoDup(xs) ==> xs[i] !in xs[..i]
  {
  }

  method AnyOrder<T(==, !new)>(s: set<T>) returns (xs: seq<T>)
    ensures ToSet(xs) == s && NoDup(xs) && |xs| == |s|
  {
    var rest := s;
    xs := [];
    while rest != {}
      invariant rest <= s && NoDup(xs)
      invariant forall x :: x in xs <==> x in s && x !in rest
      invariant |xs| + |rest| == |s|
      decreases rest
    {
      var x :| x in rest;
      rest, xs := rest - {x}, xs + [x];
    }
  }

  lemma NoDupJoin<T(!new)>(xs: seq<T>, ys: seq<T>)
    requires NoDup(xs) && NoDup(ys) && forall x :: x in xs ==> x !in ys
    ensures NoDup(xs + ys)
  {
    forall i, j | 0 <= i < j < |xs + ys| ensures (xs + ys)[i] != (xs + ys)[j] {
      if j < |xs| {
      } else if i < |xs| {
        assert (xs + ys)[i] == xs[i] && (xs + ys)[j] == ys[j - |xs|];
        assert xs[i] in xs;
      }
    }
  }

  lemma NoDupParts<T(!new)>(xs: seq<T>, ys: seq<T>)
    requires NoDup(xs + ys)
    ensures NoDup(xs) && NoDup(ys)
  {
    forall i, j | 0 <= i < j < |ys| ensures ys[i] != ys[j] {
      assert (xs + ys)[|xs| + i] != (xs + ys)[|xs| + j];
    }
    forall i, j | 0 <= i < j < |xs| ensures xs[i] != xs[j] {
      assert (xs + ys)[i] != (xs + ys)[j];
    }
  }

  lemma {:induction false} NoDupCount<T(!new)>(xs: seq<T>)
    requires NoDup(xs)
    ensures |ToSet(xs)| == |xs|
  {
    if xs != [] {
      NoDupCount(xs[1..]);
      assert ToSet(xs) == {xs[0]} + ToSet(xs[1..]);
    }
  }

  lemma {:induction false} SubsetSize<T>(small: set<T>, big: set<T>)
    requires small <= big
    ensures |small| <= |big|
    ensures |small| == |big| ==> small == big
  {
    if small != {} {
      var x :| x in small;
      SubsetSize(small - {x}, big - {x});
    }
  }

  function Filter<T>(xs: seq<T>, keep: T -> bool): seq<T> {
    if xs == [] then []
    else
      var last := xs[|xs| - 1];
      Filter(xs[..|xs| - 1], keep) + if keep(last) then [last] else []
  }

  lemma {:induction false} FilterMembers<T(!new)>(xs: seq<T>, keep: T -> bool, x: T)
    ensures x in Filter(xs, keep) <==> x in xs && keep(x)
  {
    if xs != [] {
      FilterMembers(xs[..|xs| - 1], keep, x);
    }
  }

  lemma {:induction false} FilterNoDup<T(!new)>(xs: seq<T>, keep: T -> bool)
    requires NoDup(xs)
    ensures NoDup(Filter(xs, keep))
  {
    if xs != [] {
      var init, last := xs[..|xs| - 1], xs[|xs| - 1];
      FilterNoDup(init, keep);
      FilterMembers(init, keep, last);
    }
  }

  lemma {:induction false} FilterSorted<T(!new)>(xs: seq<T>, keep: T -> bool, le: (T, T) -> bool)
    requires Sorted(xs, le)
    ensures Sorted(Filter(xs, keep), le)
  {
    if xs != [] {
      var init, last := xs[..|xs| - 1], xs[|xs| - 1];
      FilterSorted(init, keep, le);
      forall x | x in Filter(init, keep) ensures le(x, last) {
        FilterMembers(init, keep, x);
      }
      SortedSnoc(Filter(init, keep), last, le);
    }
  }

  lemma SortedSnoc<T(!new)>(xs: seq<T>, x: T, le: (T, T) -> bool)
    requires Sorted(xs, le) && forall y :: y in xs ==> le(y, x)
    ensures Sorted(xs + [x], le)
  {
    assert forall i :: 0 <= i < |xs| ==> xs[i] in xs;
  }

  lemma FilterKeeps<T(!new)>(xs: seq<T>, keep: T -> bool, le: (T, T) -> bool)
    ensures forall x :: x in Filter(xs, keep) <==> x in xs && keep(x)
    ensures NoDup(xs) ==> NoDup(Filter(xs, keep))
    ensures Sorted(xs, le) ==> Sorted(Filter(xs, keep), le)
  {
    forall x ensures x in Filter(xs, keep) <==> x in xs && keep(x) {
      FilterMembers(xs, keep, x);
    }
    if NoDup(xs) {
      FilterNoDup(xs, keep);
    }
    if Sorted(xs, le) {
      FilterSorted(xs, keep, le);
    }
  }

  // ----- how many elements -----

  /** How many places of `xs` hold an element that is wanted. */
  ghost function HowMany<T>(xs: seq<T>, wanted: T -> bool): nat {
    |set i | 0 <= i < |xs| && wanted(xs[i])|
  }

  lemma HowManyNext<T>(xs: seq<T>, x: T, wanted: T -> bool)
    ensures HowMany(xs + [x], wanted) == HowMany(xs, wanted) + if wanted(x) then 1 else 0
  {
    var before, after := set i | 0 <= i < |xs| && wanted(xs[i]), set i | 0 <= i < |xs + [x]| && wanted((xs + [x])[i]);
    assert after == if wanted(x) then before + {|xs|} else before;
  }

  lemma {:induction false} FilterHowMany<T(!new)>(xs: seq<T>, keep: T -> bool)
    ensures |Filter(xs, keep)| == HowMany(xs, keep)
  {
    if xs != [] {
      var init, last := xs[..|xs| - 1], xs[|xs| - 1];
      assert xs == init + [last];
      FilterHowMany(init, keep);
      HowManyNext(init, last, keep);
    }
  }

  lemma HowManySome<T(!new)>(xs: seq<T>, x: T, wanted: T -> bool)
    requires x in xs && wanted(x)
    ensures HowMany(xs, wanted) > 0
  {
    var i :| 0 <= i < |xs| && xs[i] == x;
    var places := set j | 0 <= j < |xs| && wanted(xs[j]);
    assert i in places;
  }

  lemma HowManySame<T(!new)>(xs: seq<T>, p: T -> bool, q: T -> bool)
    requires forall x :: x in xs ==> p(x) == q(x)
    ensures HowMany(xs, p) == HowMany(xs, q)
  {
    assert (set i | 0 <= i < |xs| && p(xs[i])) == set i | 0 <= i < |xs| && q(xs[i]);
  }

  // ----- distinct values, by first appearance -----

  function Distinct<T(==)>(xs: seq<T>): seq<T> {
    if xs == [] then []
    else
      var before, last := Distinct(xs[..|xs| - 1]), xs[|xs| - 1];
      if last in before then before else before + [last]
  }

  lemma {:induction false} DistinctIs<T(!new)>(xs: seq<T>)
    ensures NoDup(Distinct(xs)) && forall x :: x in Distinct(xs) <==> x in xs
  {
    if xs != [] {
      var init, last := xs[..|xs| - 1], xs[|xs| - 1];
      DistinctIs(init);
      assert xs == init + [last];
      if last !in Distinct(init) {
        NoDupJoin(Distinct(init), [last]);
      }
    }
  }

  lemma {:induction false} DistinctOfNoDup<T(!new)>(xs: seq<T>)
    requires NoDup(xs)
    ensures Distinct(xs) == xs
  {
    if xs != [] {
      DistinctOfNoDup(xs[..|xs| - 1]);
    }
  }

  lemma SplitAt<T(!new)>(ys: seq<T>, x: T) returns (front: seq<T>, back: seq<T>)
    requires x in ys
    ensures ys == front + [x] + back && multiset(ys) == multiset(front + back) + multiset{x}
  {
    var j :| 0 <= j < |ys| && ys[j] == x;
    front, back := ys[..j], ys[j + 1..];
    assert ys == front + [x] + back;
  }

  /** The last element of one list, found in a permutation of it; what is left permutes too. */
  lemma WithoutOne<T(!new)>(xs: seq<T>, ys: seq<T>) returns (front: seq<T>, back: seq<T>)
    requires multiset(xs) == multiset(ys) && xs != []
    ensures ys == front + [xs[|xs| - 1]] + back
    ensures multiset(xs[..|xs| - 1]) == multiset(front + back)
  {
    var init, last := xs[..|xs| - 1], xs[|xs| - 1];
    assert xs == init + [last];
    assert last in multiset(ys);
    front, back := SplitAt(ys, last);
    assert multiset(init) == multiset(xs) - multiset{last};
  }

  // ----- sums over sets of keys -----

  ghost function SumOver<K>(s: set<K>, w: map<K, nat>): nat
    requires s <= w.Keys
  {
    if s == {} then 0 else var x :| x in s; w[x] + SumOver(s - {x}, w)
  }

  lemma {:induction false} SumOverRemove<K>(s: set<K>, w: map<K, nat>, x: K)
    requires s <= w.Keys && x in s
    ensures SumOver(s, w) == w[x] + SumOver(s - {x}, w)
    decreases |s|
  {
    var y :| y in s && SumOver(s, w) == w[y] + SumOver(s - {y}, w);
    if y != x {
      SumOverRemove(s - {y}, w, x);
      SumOverRemove(s - {x}, w, y);
      assert s - {y} - {x} == s - {x} - {y};
    }
  }

  lemma {:induction false} SumOverSame<K>(s: set<K>, w: map<K, nat>, v: map<K, nat>)
    requires s <= w.Keys && s <= v.Keys
    requires forall x :: x in s ==> w[x] == v[x]
    ensures SumOver(s, w) == SumOver(s, v)
    decreases |s|
  {
    if s != {} {
      var x :| x in s;
      SumOverRemove(s, w, x);
      SumOverRemove(s, v, x);
      SumOverSame(s - {x}, w, v);
    }
  }

  // ----- stable insertion sort, for any total preorder -----

  ghost predicate TotalPreorder<T(!new)>(le: (T, T) -> bool) {
    && (forall x, y :: le(x, y) || le(y, x))
    && (forall x, y, z :: le(x, y) && le(y, z) ==> le(x, z))
  }

  ghost predicate NoTies<T(!new)>(le: (T, T) -> bool) {
    forall x, y :: le(x, y) && le(y, x) ==> x == y
  }

  ghost predicate Sorted<T(!new)>(xs: seq<T>, le: (T, T) -> bool) {
    forall i, j :: 0 <= i < j < |xs| ==> le(xs[i], xs[j])
  }

  function Insert<T>(x: T, xs: seq<T>, le: (T, T) -> bool): seq<T> {
    if xs == [] || le(x, xs[0]) then [x] + xs else [xs[0]] + Insert(x, xs[1..], le)
  }

  function Sort<T>(xs: seq<T>, le: (T, T) -> bool): seq<T> {
    if xs == [] then [] else Insert(xs[0], Sort(xs[1..], le), le)
  }

  lemma {:induction false} InsertPermutes<T(!new)>(x: T, xs: seq<T>, le: (T, T) -> bool)
    ensures multiset(Insert(x, xs, le)) == multiset{x} + multiset(xs)
  {
    if xs != [] && !le(x, xs[0]) {
      InsertPermutes(x, xs[1..], le);
      assert xs == [xs[0]] + xs[1..];
    }
  }

  lemma SortedCons<T(!new)>(x: T, xs: seq<T>, le: (T, T) -> bool)
    requires Sorted(xs, le) && forall y :: y in xs ==> le(x, y)
    ensures Sorted([x] + xs, le)
  {
    assert forall i :: 0 <= i < |xs| ==> xs[i] in xs;
  }

  lemma {:induction false} InsertSorted<T(!new)>(x: T, xs: seq<T>, le: (T, T) -> bool)
    requires TotalPreorder(le) && Sorted(xs, le)
    ensures Sorted(Insert(x, xs, le), le)
  {
    if xs == [] {
    } else if le(x, xs[0]) {
      forall y | y in xs ensures le(x, y) {
        var i :| 0 <= i < |xs| && xs[i] == y;
        assert i == 0 || le(xs[0], xs[i]);
      }
      SortedCons(x, xs, le);
    } else {
      var rest := Insert(x, xs[1..], le);
      InsertSorted(x, xs[1..], le);
      InsertPermutes(x, xs[1..], le);
      forall y | y in rest ensures le(xs[0], y) {
        assert y in multiset(rest);
        assert le(xs[0], x);
      }
      SortedCons(xs[0], rest, le);
    }
  }

  lemma InsertKeeps<T(!new)>(x: T, xs: seq<T>, le: (T, T) -> bool)
    ensures multiset(Insert(x, xs, le)) == multiset{x} + multiset(xs)
    ensures TotalPreorder(le) && Sorted(xs, le) ==> Sorted(Insert(x, xs, le), le)
  {
    InsertPermutes(x, xs, le);
    if TotalPreorder(le) && Sorted(xs, le) {
      InsertSorted(x, xs, le);
    }
  }

  lemma {:induction false} SortSorts<T(!new)>(xs: seq<T>, le: (T, T) -> bool)
    ensures multiset(Sort(xs, le)) == multiset(xs)
    ensures TotalPreorder(le) ==> Sorted(Sort(xs, le), le)
  {
    if xs != [] {
      SortSorts(xs[1..], le);
      InsertKeeps(xs[0], Sort(xs[1..], le), le);
      assert xs == [xs[0]] + xs[1..];
    }
  }

  lemma {:induction false} SortOfSorted<T(!new)>(xs: seq<T>, le: (T, T) -> bool)
    requires Sorted(xs, le)
    ensures Sort(xs, le) == xs
  {
    if xs != [] {
      SortOfSorted(xs[1..], le);
    }
  }

  /** The head of a sorted list is below every element. */
  lemma HeadBelow<T(!new)>(xs: seq<T>, le: (T, T) -> bool, x: T)
    requires TotalPreorder(le) && Sorted(xs, le) && x in xs
    ensures le(xs[0], x)
  {
    var i :| 0 <= i < |xs| && xs[i] == x;
    assert i == 0 || le(xs[0], xs[i]);
  }

  lemma TailOf<T(!new)>(xs: seq<T>)
    requires xs != []
    ensures multiset(xs) == multiset{xs[0]} + multiset(xs[1..])
  {
    assert xs == [xs[0]] + xs[1..];
  }

  lemma SameHead<T(!new)>(xs: seq<T>, ys: seq<T>, le: (T, T) -> bool)
    requires TotalPreorder(le) && Sorted(xs, le) && Sorted(ys, le) && xs != [] && multiset(xs) == multiset(ys)
    requires forall x, y :: x in xs && y in xs && le(x, y) && le(y, x) ==> x == y
    ensures ys != [] && xs[0] == ys[0]
  {
    assert |multiset(xs)| == |xs| && |multiset(ys)| == |ys|;
    assert xs[0] in multiset(ys) && ys[0] in multiset(xs);
    HeadBelow(xs, le, ys[0]);
    HeadBelow(ys, le, xs[0]);
  }

  lemma SameTails<T(!new)>(xs: seq<T>, ys: seq<T>)
    requires xs != [] && ys != [] && xs[0] == ys[0] && multiset(xs) == multiset(ys)
    ensures multiset(xs[1..]) == multiset(ys[1..])
  {
    TailOf(xs);
    TailOf(ys);
    assert multiset(xs[1..]) == multiset(xs) - multiset{xs[0]};
    assert multiset(ys[1..]) == multiset(ys) - multiset{xs[0]};
  }

  /** Two sorted lists of the same elements agree when no two different elements tie. */
  lemma {:induction false} SortedUnique<T(!new)>(xs: seq<T>, ys: seq<T>, le: (T, T) -> bool)
    requires TotalPreorder(le) && Sorted(xs, le) && Sorted(ys, le)
    requires multiset(xs) == multiset(ys)
    requires forall x, y :: x in xs && y in xs && le(x, y) && le(y, x) ==> x == y
    ensures xs == ys
  {
    if xs == [] {
      assert |multiset(ys)| == |ys|;
    } else {
      SameHead(xs, ys, le);
      SameTails(xs, ys);
      SortedUnique(xs[1..], ys[1..], le);
      assert xs == [xs[0]] + xs[1..] && ys == [ys[0]] + ys[1..];
    }
  }

  lemma NoDupFromMultiset<T(!new)>(xs: seq<T>, ys: seq<T>)
    requires multiset(xs) == multiset(ys) && NoDup(xs)
    ensures NoDup(ys) && ToSet(xs) == ToSet(ys)
  {
    NoDupIffSingle(xs);
    NoDupIffSingle(ys);
    forall x ensures x in xs <==> x in ys {
      assert x in multiset(xs) <==> x in multiset(ys);
    }
  }

  lemma {:induction false} MultiplicityOfNoDup<T(!new)>(xs: seq<T>, x: T)
    ensures NoDup(xs) ==> multiset(xs)[x] <= 1
  {
    if xs != [] {
      MultiplicityOfNoDup(xs[1..], x);
      assert xs == [xs[0]] + xs[1..];
      if NoDup(xs) {
        assert NoDup(xs[1..]);
        assert x == xs[0] ==> x !in xs[1..];
      }
    }
  }

  /** Two duplicate-free lists of the same elements are permutations of each other. */
  lemma SameElements<T(!new)>(xs: seq<T>, ys: seq<T>)
    requires NoDup(xs) && NoDup(ys) && forall x :: x in xs <==> x in ys
    ensures multiset(xs) == multiset(ys)
  {
    forall x ensures multiset(xs)[x] == multiset(ys)[x] {
      MultiplicityOfNoDup(xs, x);
      MultiplicityOfNoDup(ys, x);
      assert (x in multiset(xs) <==> x in xs) && (x in multiset(ys) <==> x in ys);
    }
  }

  lemma SameLength<T>(xs: seq<T>, ys: seq<T>)
    requires multiset(xs) == multiset(ys)
    ensures |xs| == |ys|
  {
    assert |multiset(xs)| == |xs| && |multiset(ys)| == |ys|;
  }

  lemma NoDupIffSingle<T(!new)>(xs: seq<T>)
    ensures NoDup(xs) <==> forall x :: multiset(xs)[x] <= 1
  {
    if NoDup(xs) {
      forall x ensures multiset(xs)[x] <= 1 {
        MultiplicityOfNoDup(xs, x);
      }
    }
    forall i, j | 0 <= i < j < |xs| && xs[i] == xs[j] ensures multiset(xs)[xs[i]] >= 2 {
      TwiceCounted(xs, i, j);
    }
  }

  lemma TwiceCounted<T(!new)>(xs: seq<T>, i: nat, j: nat)
    requires i < j < |xs| && xs[i] == xs[j]
    ensures multiset(xs)[xs[i]] >= 2
  {
    assert xs == xs[..i] + [xs[i]] + xs[i + 1..j] + [xs[j]] + xs[j + 1..];
  }
}
