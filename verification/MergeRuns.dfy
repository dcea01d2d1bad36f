/** `merge_runs`: the sliding-admission loop, proved to be the window merge. */
module MergeRuns {
  import opened Common
  import opened Sequences
  import opened Records
  import opened MergeSpec
  import opened MergeOrder

  // ----- admission slides along the live runs -----

  lemma {:induction false} NoneLive(runs: Runs, n: nat)
    requires n <= |runs|
    ensures LiveBefore(runs, n) == 0 <==> forall r: nat :: r < n ==> runs[r] == []
  {
    if n > 0 {
      NoneLive(runs, n - 1);
    }
  }

  lemma {:induction false} TakenLive(runs: Runs, r: nat, n: nat)
    requires Live(runs, r) && n <= |runs|
    ensures LiveBefore(runs[r := runs[r][1..]], n) <= LiveBefore(runs, n)
  {
    if n > 0 {
      TakenLive(runs, r, n - 1);
    }
  }

  /** Either every run is admitted, or the window is full. */
  ghost predicate Admitted(runs: Runs, window: nat, open: nat) {
    && open <= |runs| && LiveBefore(runs, open) <= AtLeastOne(window)
    && (open < |runs| ==> LiveBefore(runs, open) == AtLeastOne(window))
  }

  /** The admitted runs that still hold records are exactly the window. */
  lemma AdmittedIsWindow(runs: Runs, window: nat, open: nat, r: nat)
    requires Admitted(runs, window, open)
    ensures InWindow(runs, window, r) <==> r < open && Live(runs, r)
  {
    if r < open {
      LiveMonotone(runs, r + 1, open);
    } else if r < |runs| {
      LiveMonotone(runs, open, r);
    }
  }

  method TopUp(runs: Runs, window: nat, open: nat) returns (open': nat)
    requires open <= |runs| && LiveBefore(runs, open) <= AtLeastOne(window)
    ensures open <= open' && Admitted(runs, window, open')
  {
    open' := open;
    while open' < |runs|
      invariant open <= open' <= |runs| && LiveBefore(runs, open') <= AtLeastOne(window)
    {
      var live := LiveBefore(runs, open');
      if live >= AtLeastOne(window) {
        break;
      }
      open' := open' + 1;
    }
  }

  ghost predicate LeastAmong(runs: Runs, r: nat, n: nat)
    requires n <= |runs|
  {
    && r < n && Live(runs, r)
    && forall q: nat {:trigger Live(runs, q)} :: q < n && Live(runs, q) ==>
         SealLe(runs[r][0], runs[q][0]) && (q < r ==> KeyLess(KeyOf(runs[r][0]), KeyOf(runs[q][0])))
  }

  lemma NextLeast(runs: Runs, r: nat, i: nat)
    requires i < |runs| && Live(runs, i) && LeastAmong(runs, r, i)
    ensures LeastAmong(runs, if KeyLess(KeyOf(runs[i][0]), KeyOf(runs[r][0])) then i else r, i + 1)
  {
    var best := if KeyLess(KeyOf(runs[i][0]), KeyOf(runs[r][0])) then i else r;
    forall q: nat | q < i + 1 && Live(runs, q)
      ensures SealLe(runs[best][0], runs[q][0]) && (q < best ==> KeyLess(KeyOf(runs[best][0]), KeyOf(runs[q][0])))
    {
      KeyOrder(KeyOf(runs[i][0]), KeyOf(runs[r][0]));
      KeyOrder(KeyOf(runs[q][0]), KeyOf(runs[best][0]));
      if best == i && q < i {
        BelowLeast(KeyOf(runs[i][0]), KeyOf(runs[r][0]), KeyOf(runs[q][0]));
      }
    }
  }

  method PickHead(runs: Runs, window: nat, open: nat) returns (pick: Option<nat>)
    requires Admitted(runs, window, open)
    ensures pick.None? ==> Drained(runs)
    ensures pick.Some? ==> Chosen(runs, window, pick.value)
  {
    pick := None;
    for i := 0 to open
      invariant pick.None? ==> forall r: nat :: r < i ==> runs[r] == []
      invariant pick.Some? ==> LeastAmong(runs, pick.value, i)
    {
      if runs[i] != [] {
        assert Live(runs, i);
        match pick
        case None =>
          KeyOrder(KeyOf(runs[i][0]), KeyOf(runs[i][0]));
          pick := Some(i);
        case Some(best) =>
          NextLeast(runs, best, i);
          if KeyLess(KeyOf(runs[i][0]), KeyOf(runs[best][0])) {
            pick := Some(i);
          }
      }
    }
    match pick
    case None =>
      NoneLive(runs, open);
      assert open == |runs|;
    case Some(r) =>
      forall q: nat | InWindow(runs, window, q) ensures q < open && Live(runs, q) {
        AdmittedIsWindow(runs, window, open, q);
      }
      AdmittedIsWindow(runs, window, open, r);
  }

  // ----- the runs, sorted first -----

  ghost function UnsortedCount(runs: Runs): nat {
    if runs == [] then 0
    else UnsortedCount(runs[..|runs| - 1]) + if Sorted(runs[|runs| - 1], InSealOrder()) then 0 else 1
  }

  method InOrder(run: seq<Accepted>) returns (sorted: bool)
    ensures sorted <==> Sorted(run, InSealOrder())
  {
    for i := 0 to |run|
      invariant Sorted(run[..i], InSealOrder())
    {
      if i > 0 && KeyLess(KeyOf(run[i]), KeyOf(run[i - 1])) {
        assert !InSealOrder()(run[i - 1], run[i]);
        return false;
      }
      SortedGrows(run, i);
    }
    assert run[..|run|] == run;
    return true;
  }

  lemma SortedGrows(run: seq<Accepted>, i: nat)
    requires i < |run| && Sorted(run[..i], InSealOrder()) && (i > 0 ==> SealLe(run[i - 1], run[i]))
    ensures Sorted(run[..i + 1], InSealOrder())
  {
    SealOrderTotal();
    var grown := run[..i + 1];
    forall a, b | 0 <= a < b < |grown| ensures InSealOrder()(grown[a], grown[b]) {
      if b < i {
        assert InSealOrder()(run[..i][a], run[..i][b]);
      } else if a < i - 1 {
        assert InSealOrder()(run[..i][a], run[..i][i - 1]);
      }
    }
  }

  method SortEach(runs: Runs) returns (sorted: Runs, unsorted: nat)
    ensures sorted == SortedRuns(runs) && unsorted == UnsortedCount(runs)
  {
    sorted, unsorted := [], 0;
    for i := 0 to |runs|
      invariant sorted == SortedRuns(runs)[..i] && unsorted == UnsortedCount(runs[..i])
    {
      assert runs[..i + 1][..i] == runs[..i];
      var run := runs[i];
      var ordered := InOrder(run);
      if ordered {
        SortOfSorted(run, InSealOrder());
      } else {
        unsorted := unsorted + 1;
        run := Sort(run, InSealOrder());
      }
      sorted := sorted + [run];
    }
    assert runs[..|runs|] == runs;
  }

  // ----- one emission -----

  lemma OneMore(runs: Runs, window: nat, emitted: seq<Emission>, r: nat)
    requires Emits(runs, window, emitted) && Chosen(After(runs, emitted), window, r)
    ensures
      var rest := After(runs, emitted);
      var next := emitted + [Emission(r, rest[r][0])];
      Emits(runs, window, next) && After(runs, next) == rest[r := rest[r][1..]] && Stream(next) == Stream(emitted) + [rest[r][0]]
  {
    var rest := After(runs, emitted);
    var next := emitted + [Emission(r, rest[r][0])];
    assert next[..|emitted|] == emitted;
    forall k: nat | k < |next| ensures StepFits(runs, window, next, k) {
      assert next[..k] == emitted[..k];
      if k < |emitted| {
        assert StepFits(runs, window, emitted, k);
      }
    }
  }

  function LastKey(emitted: seq<Emission>): Option<Key> {
    if emitted == [] then None else Some(KeyOf(emitted[|emitted| - 1].record))
  }

  lemma OneMoreJump(emitted: seq<Emission>, e: Emission)
    ensures Jumps(emitted + [e]) == Jumps(emitted) +
                (match LastKey(emitted)
                 case None => []
                 case Some(last) =>
                   if KeyLess(KeyOf(e.record), last)
                   then [BackwardJump(|emitted|, e.record.instance, last.1, e.record.gseq, e.run)] else [])
  {
    assert (emitted + [e])[..|emitted|] == emitted;
  }

  /** What the loop's variables say once `emitted` is out. */
  ghost predicate Merging(sorted: Runs, window: nat, emitted: seq<Emission>, rest: Runs, out: seq<Accepted>,
                          jumps: seq<BackwardJump>, last: Option<Key>) {
    && Emits(sorted, window, emitted) && rest == After(sorted, emitted)
    && out == Stream(emitted) && jumps == Jumps(emitted) && last == LastKey(emitted)
  }

  /** The picked head leaves its run, and a jump is noted when it is below the record before it. */
  method Take(ghost sorted: Runs, ghost window: nat, ghost emitted: seq<Emission>, rest: Runs, out: seq<Accepted>,
              jumps: seq<BackwardJump>, last: Option<Key>, r: nat)
    returns (rest': Runs, out': seq<Accepted>, jumps': seq<BackwardJump>, last': Option<Key>)
    requires Merging(sorted, window, emitted, rest, out, jumps, last) && Chosen(rest, window, r)
    ensures Merging(sorted, window, emitted + [Emission(r, rest[r][0])], rest', out', jumps', last')
    ensures rest' == rest[r := rest[r][1..]]
  {
    var rec := rest[r][0];
    OneMore(sorted, window, emitted, r);
    OneMoreJump(emitted, Emission(r, rec));
    jumps' := jumps;
    if last.Some? && KeyLess(KeyOf(rec), last.value) {
      jumps' := jumps + [BackwardJump(|out|, rec.instance, last.value.1, rec.gseq, r)];
    }
    last', out', rest' := Some(KeyOf(rec)), out + [rec], rest[r := rest[r][1..]];
  }

  // ----- the loop -----

  /** The loop emits the window merge of the sorted runs, a permutation of its input, and reports every place
      it goes backwards: none exactly when the output is in seal order, which is exactly when few runs are above
      each record. */
  method MergeRuns(runs: Runs, window: nat) returns (out: seq<Accepted>, report: MergeReport, ghost emitted: seq<Emission>)
    ensures Merged(SortedRuns(runs), window, emitted)
    ensures out == Stream(emitted) && report == MergeReport(UnsortedCount(runs), Jumps(emitted))
    ensures multiset(out) == multiset(Flat(runs)) && report.unsortedRuns == UnsortedCount(runs)
    ensures Ordered(report) <==> Sorted(out, InSealOrder())
    ensures Ordered(report) <==> FewAbove(runs, window)
  {
    var rest, unsorted := SortEach(runs);
    ghost var sorted := rest;
    var jumps: seq<BackwardJump>, last: Option<Key>, open := [], None, 0;
    out, emitted := [], [];
    while true
      invariant Merging(sorted, window, emitted, rest, out, jumps, last)
      invariant open <= |rest| && LiveBefore(rest, open) <= AtLeastOne(window)
      decreases |multiset(Flat(rest))|
    {
      open := TopUp(rest, window, open);
      var pick := PickHead(rest, window, open);
      if pick.None? {
        break;
      }
      TakenLive(rest, pick.value, open);
      TakeHead(rest, pick.value);
      ghost var next := emitted + [Emission(pick.value, rest[pick.value][0])];
      rest, out, jumps, last := Take(sorted, window, emitted, rest, out, jumps, last, pick.value);
      emitted := next;
    }
    report := MergeReport(unsorted, jumps);
    MergePermutes(sorted, window, emitted);
    SortedRunsFlat(runs);
    NoJumpIffSorted(emitted);
    OrderedIffFewAbove(runs, window, emitted);
  }

  /** A record of the run is followed, somewhere, by one sealed before it. */
  ghost predicate OutOfOrder(run: seq<Accepted>) {
    exists i, j :: 0 <= i < j < |run| && SealedBefore(run[j], run[i])
  }

  lemma OutOfOrderIs(run: seq<Accepted>)
    ensures OutOfOrder(run) <==> !Sorted(run, InSealOrder())
  {
    forall i, j | 0 <= i < j < |run| ensures InSealOrder()(run[i], run[j]) <==> !SealedBefore(run[j], run[i]) {
      SealOrderIs(run[j], run[i]);
    }
  }

  /** The report counts the runs that came out of order. */
  lemma {:induction false} UnsortedAre(runs: Runs)
    ensures UnsortedCount(runs) == HowMany(runs, (run: seq<Accepted>) => OutOfOrder(run))
  {
    if runs != [] {
      var init, last := runs[..|runs| - 1], runs[|runs| - 1];
      assert runs == init + [last];
      UnsortedAre(init);
      OutOfOrderIs(last);
      HowManyNext(init, last, (run: seq<Accepted>) => OutOfOrder(run));
    }
  }
}
