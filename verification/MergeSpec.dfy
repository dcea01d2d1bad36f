/** The window merge, stated without its loop: at each step the least head among the first `window`
    runs that still hold records is taken. */
module MergeSpec {
  import opened Sequences
  import opened Records

  type Runs = seq<seq<Accepted>>

  datatype Emission = Emission(run: nat, record: Accepted)

  predicate Live(runs: Runs, r: nat) {
    r < |runs| && runs[r] != []
  }

  /** How many of the first `n` runs still hold records. */
  function LiveBefore(runs: Runs, n: nat): (count: nat)
    requires n <= |runs|
  {
    if n == 0 then 0 else LiveBefore(runs, n - 1) + if runs[n - 1] != [] then 1 else 0
  }

  function AtLeastOne(window: nat): nat {
    if window == 0 then 1 else window
  }

  predicate InWindow(runs: Runs, window: nat, r: nat) {
    Live(runs, r) && LiveBefore(runs, r) < AtLeastOne(window)
  }

  /** Run `r` has the least head in the window; of equal heads the earliest run's is taken. */
  ghost predicate Chosen(runs: Runs, window: nat, r: nat) {
    && InWindow(runs, window, r)
    && (forall q: nat {:trigger InWindow(runs, window, q)} :: InWindow(runs, window, q) ==>
          SealLe(runs[r][0], runs[q][0]) && (q < r ==> KeyLess(KeyOf(runs[r][0]), KeyOf(runs[q][0]))))
  }

  /** What is left of the runs after these emissions. */
  function After(runs: Runs, emitted: seq<Emission>): Runs {
    if emitted == [] then runs
    else
      var rest, r := After(runs, emitted[..|emitted| - 1]), emitted[|emitted| - 1].run;
      if Live(rest, r) then rest[r := rest[r][1..]] else rest
  }

  /** Emission `k` is the chosen head of what the earlier emissions left. */
  ghost predicate StepFits(runs: Runs, window: nat, emitted: seq<Emission>, k: nat)
    requires k < |emitted|
  {
    var rest := After(runs, emitted[..k]);
    Chosen(rest, window, emitted[k].run) && emitted[k].record == rest[emitted[k].run][0]
  }

  ghost predicate Emits(runs: Runs, window: nat, emitted: seq<Emission>) {
    forall k: nat {:trigger StepFits(runs, window, emitted, k)} :: k < |emitted| ==> StepFits(runs, window, emitted, k)
  }

  ghost predicate Drained(runs: Runs) {
    forall r: nat :: r < |runs| ==> runs[r] == []
  }

  /** The whole merge of these runs. */
  ghost predicate Merged(runs: Runs, window: nat, emitted: seq<Emission>) {
    Emits(runs, window, emitted) && Drained(After(runs, emitted))
  }

  function Stream(emitted: seq<Emission>): seq<Accepted> {
    seq(|emitted|, k requires 0 <= k < |emitted| => emitted[k].record)
  }

  // ----- jumps -----

  datatype BackwardJump = BackwardJump(at: nat, instance: string, previousGseq: u64, arrivedGseq: u64, fromRun: nat)

  datatype MergeReport = MergeReport(unsortedRuns: nat, backwardJumps: seq<BackwardJump>)

  predicate Ordered(report: MergeReport) {
    report.backwardJumps == []
  }

  /** One entry for each place where a record is below the one before it. */
  function Jumps(emitted: seq<Emission>): seq<BackwardJump> {
    if |emitted| < 2 then []
    else
      var last, before := emitted[|emitted| - 1], emitted[|emitted| - 2];
      Jumps(emitted[..|emitted| - 1]) +
      if KeyLess(KeyOf(last.record), KeyOf(before.record))
      then [BackwardJump(|emitted| - 1, last.record.instance, before.record.gseq, last.record.gseq, last.run)]
      else []
  }

  lemma JumpsNext(init: seq<Emission>, before: Emission, last: Emission)
    ensures Jumps(init + [before] + [last]) == [] <==>
              Jumps(init + [before]) == [] && SealLe(before.record, last.record)
  {
    var all := init + [before] + [last];
    assert all[..|all| - 1] == init + [before];
  }

  lemma SortedNext(rs: seq<Accepted>, before: Accepted, last: Accepted)
    ensures Sorted(rs + [before] + [last], InSealOrder()) <==> Sorted(rs + [before], InSealOrder()) && SealLe(before, last)
  {
    SealOrderTotal();
    var init, all := rs + [before], rs + [before] + [last];
    if Sorted(init, InSealOrder()) && SealLe(before, last) {
      forall x | x in init ensures InSealOrder()(x, last) {
        var i :| 0 <= i < |init| && init[i] == x;
        if i < |rs| {
          assert InSealOrder()(init[i], init[|rs|]);
        }
      }
      SortedSnoc(init, last, InSealOrder());
    }
    if Sorted(all, InSealOrder()) {
      assert InSealOrder()(all[|rs|], all[|rs| + 1]);
      forall i, j | 0 <= i < j < |init| ensures InSealOrder()(init[i], init[j]) {
        assert InSealOrder()(all[i], all[j]);
      }
    }
  }

  /** No jump is reported exactly when the whole stream is in seal order. */
  lemma {:induction false} NoJumpIffSorted(emitted: seq<Emission>)
    ensures Jumps(emitted) == [] <==> Sorted(Stream(emitted), InSealOrder())
  {
    var n := |emitted|;
    if n >= 2 {
      var init, before, last := emitted[..n - 2], emitted[n - 2], emitted[n - 1];
      assert emitted == init + [before] + [last] && emitted[..n - 1] == init + [before];
      NoJumpIffSorted(init + [before]);
      JumpsNext(init, before, last);
      assert Stream(emitted) == Stream(init) + [before.record] + [last.record];
      assert Stream(init + [before]) == Stream(init) + [before.record];
      SortedNext(Stream(init), before.record, last.record);
    }
  }

  // ----- the merge is one thing -----

  lemma {:induction false} ChosenOnce(runs: Runs, window: nat, q: nat, r: nat)
    requires Chosen(runs, window, q) && Chosen(runs, window, r)
    ensures q == r
  {
    KeyOrder(KeyOf(runs[q][0]), KeyOf(runs[r][0]));
  }

  lemma SameEmissions(runs: Runs, window: nat, a: seq<Emission>, b: seq<Emission>, k: nat)
    requires Emits(runs, window, a) && Emits(runs, window, b) && k <= |a| && k <= |b|
    ensures a[..k] == b[..k]
  {
    if k > 0 {
      SameEmissions(runs, window, a, b, k - 1);
      assert StepFits(runs, window, a, k - 1) && StepFits(runs, window, b, k - 1);
      ChosenOnce(After(runs, a[..k - 1]), window, a[k - 1].run, b[k - 1].run);
      assert a[..k] == a[..k - 1] + [a[k - 1]] && b[..k] == b[..k - 1] + [b[k - 1]];
    }
  }

  /** Runs and window determine the merge. */
  lemma MergeUnique(runs: Runs, window: nat, a: seq<Emission>, b: seq<Emission>)
    requires Merged(runs, window, a) && Merged(runs, window, b)
    ensures a == b
  {
    if |a| <= |b| {
      EmissionsEnd(runs, window, a, b);
    } else {
      EmissionsEnd(runs, window, b, a);
    }
  }

  lemma EmissionsEnd(runs: Runs, window: nat, a: seq<Emission>, b: seq<Emission>)
    requires Merged(runs, window, a) && Merged(runs, window, b) && |a| <= |b|
    ensures a == b
  {
    SameEmissions(runs, window, a, b, |a|);
    assert a[..|a|] == a;
    if |a| < |b| {
      StillHolds(runs, window, b, |a|);
    }
    assert b[..|b|] == b;
  }

  lemma StillHolds(runs: Runs, window: nat, emitted: seq<Emission>, k: nat)
    requires Emits(runs, window, emitted) && k < |emitted|
    ensures !Drained(After(runs, emitted[..k]))
  {
    assert StepFits(runs, window, emitted, k);
  }

  // ----- nothing is lost -----

  function Flat(runs: Runs): seq<Accepted> {
    if runs == [] then [] else Flat(runs[..|runs| - 1]) + runs[|runs| - 1]
  }

  lemma FlatSnoc(init: Runs, last: seq<Accepted>)
    ensures Flat(init + [last]) == Flat(init) + last
  {
    assert (init + [last])[..|init|] == init;
  }

  lemma {:induction false} TakeHead(runs: Runs, r: nat)
    requires Live(runs, r)
    ensures multiset(Flat(runs)) == multiset{runs[r][0]} + multiset(Flat(runs[r := runs[r][1..]]))
    decreases |runs|
  {
    var init, last := runs[..|runs| - 1], runs[|runs| - 1];
    var taken := runs[r := runs[r][1..]];
    FlatSnoc(init, last);
    assert runs == init + [last];
    if r == |runs| - 1 {
      assert taken == init + [last[1..]];
      FlatSnoc(init, last[1..]);
      assert last == [last[0]] + last[1..];
    } else {
      assert taken == init[r := init[r][1..]] + [last];
      FlatSnoc(init[r := init[r][1..]], last);
      TakeHead(init, r);
    }
  }

  lemma LastEmission(runs: Runs, window: nat, emitted: seq<Emission>)
    requires Emits(runs, window, emitted) && emitted != []
    ensures
      var init, last := emitted[..|emitted| - 1], emitted[|emitted| - 1];
      var rest := After(runs, init);
      && Emits(runs, window, init) && Live(rest, last.run) && last.record == rest[last.run][0]
      && After(runs, emitted) == rest[last.run := rest[last.run][1..]]
      && Stream(emitted) == Stream(init) + [last.record]
  {
    PrefixEmits(runs, window, emitted, |emitted| - 1);
    assert StepFits(runs, window, emitted, |emitted| - 1);
  }

  lemma {:induction false} NothingLost(runs: Runs, window: nat, emitted: seq<Emission>)
    requires Emits(runs, window, emitted)
    ensures multiset(Flat(runs)) == multiset(Stream(emitted)) + multiset(Flat(After(runs, emitted)))
    decreases |emitted|
  {
    if emitted != [] {
      var init, last := emitted[..|emitted| - 1], emitted[|emitted| - 1];
      LastEmission(runs, window, emitted);
      NothingLost(runs, window, init);
      TakeHead(After(runs, init), last.run);
    }
  }

  lemma PrefixEmits(runs: Runs, window: nat, emitted: seq<Emission>, n: nat)
    requires Emits(runs, window, emitted) && n <= |emitted|
    ensures Emits(runs, window, emitted[..n])
  {
    forall k: nat | k < n ensures StepFits(runs, window, emitted[..n], k) {
      assert StepFits(runs, window, emitted, k);
      assert emitted[..n][..k] == emitted[..k];
    }
  }

  lemma {:induction false} FlatDrained(runs: Runs)
    requires Drained(runs)
    ensures Flat(runs) == []
  {
    if runs != [] {
      FlatDrained(runs[..|runs| - 1]);
    }
  }

  /** The merge emits each record of its runs exactly as often as they hold it. */
  lemma MergePermutes(runs: Runs, window: nat, emitted: seq<Emission>)
    requires Merged(runs, window, emitted)
    ensures multiset(Stream(emitted)) == multiset(Flat(runs))
  {
    NothingLost(runs, window, emitted);
    FlatDrained(After(runs, emitted));
  }

  // ----- what a jump reports -----

  /** The record emitted at `k` is sealed before the one emitted just before it, and this is the jump reported. */
  ghost predicate JumpsAt(emitted: seq<Emission>, k: nat, jump: BackwardJump) {
    && 0 < k < |emitted| && SealedBefore(emitted[k].record, emitted[k - 1].record)
    && jump.at == k && jump.fromRun == emitted[k].run && jump.instance == emitted[k].record.instance
    && jump.previousGseq == emitted[k - 1].record.gseq && jump.arrivedGseq == emitted[k].record.gseq
  }

  lemma {:induction false} JumpsAre(emitted: seq<Emission>, jump: BackwardJump)
    ensures jump in Jumps(emitted) <==> exists k: nat :: JumpsAt(emitted, k, jump)
  {
    if |emitted| >= 2 {
      var init, n := emitted[..|emitted| - 1], |emitted| - 1;
      JumpsAre(init, jump);
      SealOrderIs(emitted[n].record, emitted[n - 1].record);
      if k: nat :| JumpsAt(init, k, jump) {
        assert JumpsAt(emitted, k, jump);
      }
      if k: nat :| JumpsAt(emitted, k, jump) {
        assert k < n ==> JumpsAt(init, k, jump);
      }
      if JumpsAt(emitted, n, jump) {
        assert jump == BackwardJump(n, emitted[n].record.instance, emitted[n - 1].record.gseq, emitted[n].record.gseq, emitted[n].run);
      }
    }
  }

  // ----- a window of one, or none -----

  lemma {:induction false} FlatTakesFirst(runs: Runs, r: nat)
    requires Live(runs, r) && LiveBefore(runs, r) == 0
    ensures Flat(runs) == [runs[r][0]] + Flat(runs[r := runs[r][1..]])
    decreases |runs|
  {
    var init, last := runs[..|runs| - 1], runs[|runs| - 1];
    var after := runs[r := runs[r][1..]];
    if r < |init| {
      LiveBeforeInit(runs, r);
      FlatTakesFirst(init, r);
      assert after[..|runs| - 1] == init[r := init[r][1..]];
    } else {
      LiveBeforeInit(runs, r);
      NoneLiveFlat(init);
      assert after[..|runs| - 1] == init;
    }
  }

  lemma {:induction false} LiveBeforeInit(runs: Runs, r: nat)
    requires r < |runs|
    ensures LiveBefore(runs, r) == LiveBefore(runs[..|runs| - 1], r)
  {
    if r > 0 {
      LiveBeforeInit(runs, r - 1);
    }
  }

  lemma {:induction false} NoneLiveFlat(runs: Runs)
    requires LiveBefore(runs, |runs|) == 0
    ensures Flat(runs) == []
  {
    if runs != [] {
      LiveBeforeInit(runs, |runs| - 1);
      NoneLiveFlat(runs[..|runs| - 1]);
    }
  }

  lemma {:induction false} DrainedFlat(runs: Runs)
    requires Drained(runs)
    ensures Flat(runs) == []
  {
    if runs != [] {
      assert runs[|runs| - 1] == [];
      DrainedFlat(runs[..|runs| - 1]);
    }
  }

  lemma {:induction false} OneAtATime(runs: Runs, window: nat, emitted: seq<Emission>)
    requires Emits(runs, window, emitted) && window <= 1
    ensures Flat(runs) == Stream(emitted) + Flat(After(runs, emitted))
    decreases |emitted|
  {
    if emitted != [] {
      var init, last := emitted[..|emitted| - 1], emitted[|emitted| - 1];
      LastEmission(runs, window, emitted);
      OneAtATime(runs, window, init);
      assert StepFits(runs, window, emitted, |emitted| - 1);
      FlatTakesFirst(After(runs, init), last.run);
      assert Stream(emitted) == Stream(init) + [last.record];
    }
  }

  /** With a window of one, or of none, the runs come out one after another. */
  lemma OneRunAtATime(runs: Runs, window: nat, emitted: seq<Emission>)
    requires Merged(runs, window, emitted) && window <= 1
    ensures Stream(emitted) == Flat(runs)
  {
    OneAtATime(runs, window, emitted);
    DrainedFlat(After(runs, emitted));
  }
}
