/** When the window merge is in seal order: an exact condition on the runs alone. */
module MergeOrder {
  import opened Common
  import opened Sequences
  import opened Records
  import opened MergeSpec

  // ----- the runs, sorted first -----

  function SortedRuns(runs: Runs): Runs {
    seq(|runs|, i requires 0 <= i < |runs| => Sort(runs[i], InSealOrder()))
  }

  lemma SortedRunsSame(runs: Runs)
    ensures EachSorted(SortedRuns(runs))
    ensures forall r: nat, x :: r < |runs| ==> (x in SortedRuns(runs)[r] <==> x in runs[r])
  {
    SealOrderTotal();
    forall r: nat | r < |runs|
      ensures Sorted(SortedRuns(runs)[r], InSealOrder()) && forall x :: x in SortedRuns(runs)[r] <==> x in runs[r]
    {
      SortSorts(runs[r], InSealOrder());
      forall x ensures x in SortedRuns(runs)[r] <==> x in runs[r] {
        assert x in multiset(SortedRuns(runs)[r]) <==> x in multiset(runs[r]);
      }
    }
  }

  lemma {:induction false} SortedRunsFlat(runs: Runs)
    ensures multiset(Flat(SortedRuns(runs))) == multiset(Flat(runs))
  {
    if runs != [] {
      var init, last := runs[..|runs| - 1], runs[|runs| - 1];
      assert runs == init + [last];
      assert SortedRuns(runs) == SortedRuns(init) + [Sort(last, InSealOrder())];
      SortedRunsFlat(init);
      SortSorts(last, InSealOrder());
      FlatSnoc(init, last);
      FlatSnoc(SortedRuns(init), Sort(last, InSealOrder()));
    }
  }

  lemma {:induction false} LiveMonotone(runs: Runs, m: nat, n: nat)
    requires m <= n <= |runs|
    ensures LiveBefore(runs, m) <= LiveBefore(runs, n) <= LiveBefore(runs, m) + (n - m)
  {
    if m < n {
      LiveMonotone(runs, m, n - 1);
    }
  }

  // ----- the condition -----

  ghost predicate HoldsAbove(run: seq<Accepted>, y: Accepted) {
    exists x :: x in run && KeyLess(KeyOf(y), KeyOf(x))
  }

  /** How many of the first `n` runs hold a record above `y`. */
  ghost function Above(runs: Runs, n: nat, y: Accepted): (count: nat)
    requires n <= |runs|
    ensures count <= n
  {
    if n == 0 then 0 else Above(runs, n - 1, y) + if HoldsAbove(runs[n - 1], y) then 1 else 0
  }

  /** For each record, fewer earlier runs than the window holds have a record above it. */
  ghost predicate FewAbove(runs: Runs, window: nat) {
    forall j: nat, y {:trigger y in runs[j]} :: j < |runs| && y in runs[j] ==> Above(runs, j, y) < AtLeastOne(window)
  }

  ghost predicate EachSorted(runs: Runs) {
    forall r: nat :: r < |runs| ==> Sorted(runs[r], InSealOrder())
  }

  /** Every run of `less` holds only records the same run of `more` holds. */
  ghost predicate Inside(less: Runs, more: Runs) {
    |less| == |more| && forall r: nat, x {:trigger x in less[r]} :: r < |less| && x in less[r] ==> x in more[r]
  }

  lemma {:induction false} AboveInside(less: Runs, more: Runs, n: nat, y: Accepted)
    requires Inside(less, more) && n <= |less|
    ensures Above(less, n, y) <= Above(more, n, y)
  {
    if n > 0 {
      AboveInside(less, more, n - 1, y);
    }
  }

  lemma FewAboveInside(less: Runs, more: Runs, window: nat)
    requires Inside(less, more) && FewAbove(more, window)
    ensures FewAbove(less, window)
  {
    forall j: nat, y | j < |less| && y in less[j] ensures Above(less, j, y) < AtLeastOne(window) {
      AboveInside(less, more, j, y);
    }
  }

  // ----- few above, so in order -----

  lemma HeadLeast(runs: Runs, r: nat, x: Accepted)
    requires EachSorted(runs) && r < |runs| && x in runs[r]
    ensures SealLe(runs[r][0], x)
  {
    var k :| 0 <= k < |runs[r]| && runs[r][k] == x;
    KeyOrder(KeyOf(x), KeyOf(x));
    if k > 0 {
      assert InSealOrder()(runs[r][0], runs[r][k]);
    }
  }

  /** If every window head before run `n` is above `y`, the live runs among the first `n` count towards it. */
  lemma {:induction false} WindowAbove(runs: Runs, window: nat, n: nat, y: Accepted)
    requires n <= |runs|
    requires forall p: nat {:trigger InWindow(runs, window, p)} :: p < n && InWindow(runs, window, p) ==> KeyLess(KeyOf(y), KeyOf(runs[p][0]))
    ensures Above(runs, n, y) >= if LiveBefore(runs, n) < AtLeastOne(window) then LiveBefore(runs, n) else AtLeastOne(window)
  {
    if n > 0 {
      WindowAbove(runs, window, n - 1, y);
      if InWindow(runs, window, n - 1) {
        assert runs[n - 1][0] in runs[n - 1];
      }
    }
  }

  lemma BelowLeast(a: Key, b: Key, c: Key)
    requires KeyLess(a, b) && !KeyLess(c, b)
    ensures KeyLess(a, c)
  {
    KeyOrder(a, c);
    KeyOrder(a, b);
    if !KeyLess(a, c) {
      KeyChain(b, c, a);
    }
  }

  /** With few above each record, the chosen head is least of all that is left, in the window or beyond it. */
  lemma ChosenLeast(runs: Runs, window: nat, r: nat, q: nat, y: Accepted)
    requires EachSorted(runs) && FewAbove(runs, window) && Chosen(runs, window, r) && q < |runs| && y in runs[q]
    ensures SealLe(runs[r][0], y)
  {
    if InWindow(runs, window, q) {
      HeadLeast(runs, q, y);
      KeyChain(KeyOf(runs[r][0]), KeyOf(runs[q][0]), KeyOf(y));
    } else if KeyLess(KeyOf(y), KeyOf(runs[r][0])) {
      forall p: nat | p < q && InWindow(runs, window, p) ensures KeyLess(KeyOf(y), KeyOf(runs[p][0])) {
        BelowLeast(KeyOf(y), KeyOf(runs[r][0]), KeyOf(runs[p][0]));
      }
      WindowAbove(runs, window, q, y);
    }
  }

  lemma TakenInside(runs: Runs, r: nat)
    requires EachSorted(runs) && Live(runs, r)
    ensures EachSorted(runs[r := runs[r][1..]]) && Inside(runs[r := runs[r][1..]], runs)
  {
  }

  /** All emitted so far are at or below all that is left. */
  ghost predicate Below(done: seq<Accepted>, runs: Runs) {
    forall x, r: nat, y {:trigger x in done, y in runs[r]} :: x in done && r < |runs| && y in runs[r] ==> SealLe(x, y)
  }

  lemma SortedThen(done: seq<Accepted>, last: Accepted)
    requires Sorted(done, InSealOrder()) && forall x :: x in done ==> SealLe(x, last)
    ensures Sorted(done + [last], InSealOrder())
  {
    assert forall i :: 0 <= i < |done| ==> done[i] in done;
  }

  lemma {:induction false} EmitsSorted(runs: Runs, window: nat, emitted: seq<Emission>)
    requires Emits(runs, window, emitted) && EachSorted(runs) && FewAbove(runs, window)
    ensures EachSorted(After(runs, emitted)) && FewAbove(After(runs, emitted), window)
    ensures Sorted(Stream(emitted), InSealOrder()) && Below(Stream(emitted), After(runs, emitted))
    decreases |emitted|
  {
    if emitted != [] {
      var init, last := emitted[..|emitted| - 1], emitted[|emitted| - 1];
      var rest := After(runs, init);
      LastEmission(runs, window, emitted);
      EmitsSorted(runs, window, init);
      assert StepFits(runs, window, emitted, |emitted| - 1);
      TakenInside(rest, last.run);
      FewAboveInside(After(runs, emitted), rest, window);
      assert last.record in rest[last.run];
      forall q: nat, y | q < |rest| && y in rest[q] ensures SealLe(last.record, y) {
        ChosenLeast(rest, window, last.run, q, y);
      }
      SortedThen(Stream(init), last.record);
    }
  }

  // ----- in order, so few above -----

  lemma {:induction false} AfterLength(runs: Runs, emitted: seq<Emission>)
    ensures |After(runs, emitted)| == |runs|
  {
    if emitted != [] {
      AfterLength(runs, emitted[..|emitted| - 1]);
    }
  }

  /** A record no longer in its run has been emitted from it. */
  lemma {:induction false} LeftByEmission(runs: Runs, window: nat, emitted: seq<Emission>, j: nat, y: Accepted) returns (k: nat)
    requires Emits(runs, window, emitted) && j < |runs| == |After(runs, emitted)| && y in runs[j] && y !in After(runs, emitted)[j]
    ensures k < |emitted| && emitted[k] == Emission(j, y)
    decreases |emitted|
  {
    var init, last := emitted[..|emitted| - 1], emitted[|emitted| - 1];
    AfterLength(runs, init);
    LastEmission(runs, window, emitted);
    if y in After(runs, init)[j] {
      k := |emitted| - 1;
    } else {
      k := LeftByEmission(runs, window, init, j, y);
    }
  }

  /** More runs above `y` than runs still live: one of those above it is dry. */
  lemma {:induction false} DryAbove(runs: Runs, rest: Runs, n: nat, y: Accepted) returns (p: nat)
    requires n <= |runs| == |rest| && LiveBefore(rest, n) < Above(runs, n, y)
    ensures p < n && HoldsAbove(runs[p], y) && rest[p] == []
  {
    if HoldsAbove(runs[n - 1], y) && rest[n - 1] == [] {
      p := n - 1;
    } else {
      p := DryAbove(runs, rest, n - 1, y);
    }
  }

  /** When a record leaves its run with too many runs above it, a record above it is already out. */
  lemma TooManyAbove(runs: Runs, window: nat, emitted: seq<Emission>, j: nat, y: Accepted)
    requires Merged(runs, window, emitted) && j < |runs| && y in runs[j] && Above(runs, j, y) >= AtLeastOne(window)
    ensures !Sorted(Stream(emitted), InSealOrder())
  {
    AfterLength(runs, emitted);
    var k := LeftByEmission(runs, window, emitted, j, y);
    var before := emitted[..k];
    var rest := After(runs, before);
    AfterLength(runs, before);
    assert StepFits(runs, window, emitted, k);
    assert InWindow(rest, window, j);
    var p := DryAbove(runs, rest, j, y);
    var x :| x in runs[p] && KeyLess(KeyOf(y), KeyOf(x));
    PrefixEmits(runs, window, emitted, k);
    var i := LeftByEmission(runs, window, before, p, x);
    assert emitted[i] == before[i];
    assert !InSealOrder()(Stream(emitted)[i], Stream(emitted)[k]);
  }

  lemma SortedFewAbove(runs: Runs, window: nat, emitted: seq<Emission>)
    requires Merged(runs, window, emitted) && Sorted(Stream(emitted), InSealOrder())
    ensures FewAbove(runs, window)
  {
    forall j: nat, y | j < |runs| && y in runs[j] ensures Above(runs, j, y) < AtLeastOne(window) {
      if Above(runs, j, y) >= AtLeastOne(window) {
        TooManyAbove(runs, window, emitted, j, y);
      }
    }
  }

  /** Any number of runs, empty ones included, however unsorted inside: the merge reports no jump exactly when
      each record has fewer earlier runs above it than the window holds. */
  lemma OrderedIffFewAbove(runs: Runs, window: nat, emitted: seq<Emission>)
    requires Merged(SortedRuns(runs), window, emitted)
    ensures Jumps(emitted) == [] <==> FewAbove(runs, window)
  {
    var sorted := SortedRuns(runs);
    SortedRunsSame(runs);
    NoJumpIffSorted(emitted);
    if FewAbove(runs, window) {
      FewAboveInside(sorted, runs, window);
      EmitsSorted(sorted, window, emitted);
    }
    if Jumps(emitted) == [] {
      SortedFewAbove(sorted, window, emitted);
      FewAboveInside(runs, sorted, window);
    }
  }

  // ----- bounded displacement -----

  /** No record is displaced by as many runs as the window holds: every record of a run is at or below
      every record of each run that many places on. Within a run, and between nearer runs, any order goes. */
  ghost predicate WithinWindow(runs: Runs, window: nat) {
    forall i: nat, j: nat, x, y {:trigger x in runs[i], y in runs[j]} ::
      i + AtLeastOne(window) <= j < |runs| && x in runs[i] && y in runs[j] ==> SealLe(x, y)
  }

  lemma {:induction false} AboveLate(runs: Runs, m: nat, n: nat, y: Accepted)
    requires m <= n <= |runs| && forall p: nat :: p < m ==> !HoldsAbove(runs[p], y)
    ensures Above(runs, n, y) <= n - m
  {
    if n > m {
      AboveLate(runs, m, n - 1, y);
    } else if n > 0 {
      AboveLate(runs, m - 1, n - 1, y);
    }
  }

  lemma NearlyInPlace(runs: Runs, window: nat)
    requires WithinWindow(runs, window)
    ensures FewAbove(runs, window)
  {
    forall j: nat, y | j < |runs| && y in runs[j] ensures Above(runs, j, y) < AtLeastOne(window) {
      if j >= AtLeastOne(window) {
        forall p: nat | p < j - AtLeastOne(window) + 1 ensures !HoldsAbove(runs[p], y) {}
        AboveLate(runs, j - AtLeastOne(window) + 1, j, y);
      }
    }
  }

  /** Displacement by fewer runs than the window holds leaves few above and no jump: the bound the source argues for. */
  lemma WindowHolds(runs: Runs, window: nat, emitted: seq<Emission>)
    requires WithinWindow(runs, window) && Merged(SortedRuns(runs), window, emitted)
    ensures FewAbove(runs, window) && Jumps(emitted) == []
  {
    NearlyInPlace(runs, window);
    OrderedIffFewAbove(runs, window, emitted);
  }

  function At(gseq: u64): Accepted {
    Accepted("i", BoundaryEvent, gseq, None, "", None, "")
  }

  /** Three one-record runs beat a window of two: two earlier runs are above the last record. */
  lemma WindowBeaten(emitted: seq<Emission>)
    requires Merged(SortedRuns([[At(2)], [At(3)], [At(1)]]), 2, emitted)
    ensures Jumps(emitted) != []
  {
    var runs: Runs := [[At(2)], [At(3)], [At(1)]];
    assert At(2) in runs[0] && At(3) in runs[1] && At(1) in runs[2];
    assert HoldsAbove(runs[0], At(1)) && HoldsAbove(runs[1], At(1));
    assert Above(runs, 1, At(1)) == 1 && Above(runs, 2, At(1)) == 2;
    OrderedIffFewAbove(runs, 2, emitted);
  }
}
