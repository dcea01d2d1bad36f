/** Per-instance coverage: one scan over the sealed tape, and which gaps the recorder accounted for. */
module Coverage {
  import opened Sequences
  import opened Records

  /** An inclusive range of sequence numbers. */
  datatype Range = Range(from: u64, to: u64)

  datatype InstanceCoverage = InstanceCoverage(
    instance: string,
    gseqMin: u64,
    gseqMax: u64,
    events: nat,
    gaps: seq<Range>,
    gapsAccounted: seq<Range>,
    duplicatesDropped: nat)

  /** Seal order with every key once. */
  ghost predicate Tape(events: seq<Accepted>) {
    forall i, j :: 0 <= i < j < |events| ==> KeyLess(KeyOf(events[i]), KeyOf(events[j]))
  }

  // ----- the scan -----

  function FirstRow(a: Accepted): InstanceCoverage {
    InstanceCoverage(a.instance, a.gseq, a.gseq, 1, [], [], 0)
  }

  function Extend(row: InstanceCoverage, g: u64): InstanceCoverage {
    row.(gseqMax := g, events := row.events + 1,
         gaps := if g as int > row.gseqMax as int + 1 then row.gaps + [Range(row.gseqMax + 1, g - 1)] else row.gaps)
  }

  function Scan(rows: seq<InstanceCoverage>, a: Accepted): seq<InstanceCoverage> {
    if !a.kind.BoundaryEvent? then rows
    else if rows != [] && rows[|rows| - 1].instance == a.instance then rows[..|rows| - 1] + [Extend(rows[|rows| - 1], a.gseq)]
    else rows + [FirstRow(a)]
  }

  function Cover(events: seq<Accepted>): seq<InstanceCoverage> {
    if events == [] then [] else Scan(Cover(events[..|events| - 1]), events[|events| - 1])
  }

  // ----- what a row says -----

  ghost predicate Landed(events: seq<Accepted>, instance: string, g: u64) {
    exists e :: e in events && e.kind.BoundaryEvent? && e.instance == instance && e.gseq == g
  }

  predicate Inside(r: Range, g: u64) {
    r.from <= g <= r.to
  }

  ghost predicate InGap(gaps: seq<Range>, g: u64) {
    exists r :: r in gaps && Inside(r, g)
  }

  function GapTotal(gaps: seq<Range>): int {
    if gaps == [] then 0
    else GapTotal(gaps[..|gaps| - 1]) + (gaps[|gaps| - 1].to as int - gaps[|gaps| - 1].from as int + 1)
  }

  /** Gaps are non-empty, strictly inside the row, increasing, and never touch. */
  ghost predicate GapsApart(row: InstanceCoverage) {
    && (forall r :: r in row.gaps ==> row.gseqMin < r.from <= r.to < row.gseqMax)
    && (forall i, j :: 0 <= i < j < |row.gaps| ==> row.gaps[i].to as int + 1 < row.gaps[j].from as int)
  }

  /** The landed sequences and the gaps split the row's range between them, and the counts agree. */
  ghost predicate Tiles(row: InstanceCoverage, landed: iset<u64>) {
    && Splits(row, landed) && GapsApart(row)
    && row.events + GapTotal(row.gaps) == row.gseqMax as int - row.gseqMin as int + 1
  }

  /** Everything landed is in the row's range, ends included, and the rest of the range is gaps. */
  ghost predicate Splits(row: InstanceCoverage, landed: iset<u64>) {
    && row.gseqMin in landed && row.gseqMax in landed
    && (forall g :: g in landed ==> row.gseqMin <= g <= row.gseqMax)
    && (forall g :: row.gseqMin <= g <= row.gseqMax ==> (g in landed <==> !InGap(row.gaps, g)))
  }

  ghost function LandedOf(events: seq<Accepted>, instance: string): iset<u64> {
    iset g | Landed(events, instance, g)
  }

  lemma OneTiles(a: Accepted)
    ensures Tiles(FirstRow(a), iset{a.gseq})
  {
  }

  lemma InGapGrows(gaps: seq<Range>, hole: Range, g: u64)
    ensures InGap(gaps + [hole], g) <==> InGap(gaps, g) || Inside(hole, g)
  {
    if InGap(gaps, g) {
      var r :| r in gaps && Inside(r, g);
      assert r in gaps + [hole];
    }
    assert hole in gaps + [hole];
  }

  lemma ExtendSplits(row: InstanceCoverage, landed: iset<u64>, g: u64)
    requires Splits(row, landed) && g > row.gseqMax
    requires forall x :: InGap(row.gaps, x) ==> x < row.gseqMax
    ensures Splits(Extend(row, g), landed + iset{g})
  {
    var next := Extend(row, g);
    forall x | next.gseqMin <= x <= next.gseqMax ensures x in landed + iset{g} <==> !InGap(next.gaps, x) {
      if g as int > row.gseqMax as int + 1 {
        InGapGrows(row.gaps, Range(row.gseqMax + 1, g - 1), x);
      }
    }
  }

  lemma ExtendApart(row: InstanceCoverage, g: u64)
    requires GapsApart(row) && g > row.gseqMax >= row.gseqMin
    ensures GapsApart(Extend(row, g))
  {
    assert forall i :: 0 <= i < |row.gaps| ==> row.gaps[i] in row.gaps;
  }

  lemma ExtendTiles(row: InstanceCoverage, landed: iset<u64>, g: u64)
    requires Tiles(row, landed) && g > row.gseqMax
    ensures Tiles(Extend(row, g), landed + iset{g})
  {
    var next := Extend(row, g);
    ExtendSplits(row, landed, g);
    ExtendApart(row, g);
    if g as int > row.gseqMax as int + 1 {
      assert next.gaps[..|next.gaps| - 1] == row.gaps;
    }
  }

  // ----- the rows as a whole -----

  ghost predicate Ascending(rows: seq<InstanceCoverage>) {
    forall i, j :: 0 <= i < j < |rows| ==> StringLess(rows[i].instance, rows[j].instance)
  }

  ghost predicate TilesAt(rows: seq<InstanceCoverage>, events: seq<Accepted>, i: nat) {
    i < |rows| && Tiles(rows[i], LandedOf(events, rows[i].instance))
  }

  ghost predicate EachTiles(rows: seq<InstanceCoverage>, events: seq<Accepted>) {
    forall i: nat {:trigger TilesAt(rows, events, i)} :: i < |rows| ==> TilesAt(rows, events, i)
  }

  ghost predicate HasRow(rows: seq<InstanceCoverage>, instance: string) {
    exists i :: 0 <= i < |rows| && rows[i].instance == instance
  }

  ghost predicate AllHaveRows(rows: seq<InstanceCoverage>, events: seq<Accepted>) {
    forall e :: e in events && e.kind.BoundaryEvent? ==> HasRow(rows, e.instance)
  }

  /** One row per instance with boundary events, in instance order, each tiling its own range. */
  ghost predicate RowsCover(rows: seq<InstanceCoverage>, events: seq<Accepted>) {
    Ascending(rows) && EachTiles(rows, events) && AllHaveRows(rows, events)
  }

  lemma LandedGrows(init: seq<Accepted>, a: Accepted, instance: string)
    ensures LandedOf(init + [a], instance) ==
            LandedOf(init, instance) + if a.kind.BoundaryEvent? && a.instance == instance then iset{a.gseq} else iset{}
  {
    var all := init + [a];
    forall g ensures Landed(all, instance, g) <==> Landed(init, instance, g) || (a.kind.BoundaryEvent? && a.instance == instance && a.gseq == g) {
      if Landed(init, instance, g) {
        var e :| e in init && e.kind.BoundaryEvent? && e.instance == instance && e.gseq == g;
        assert e in all;
      }
      assert a in all;
    }
  }

  lemma LastLanded(rows: seq<InstanceCoverage>, events: seq<Accepted>)
    requires rows != [] && EachTiles(rows, events)
    ensures Landed(events, rows[|rows| - 1].instance, rows[|rows| - 1].gseqMax)
  {
    assert TilesAt(rows, events, |rows| - 1);
  }

  /** The next event's instance is the last row's, and later in it, or comes after every row's. */
  ghost predicate Continues(rows: seq<InstanceCoverage>, a: Accepted) {
    rows != [] ==>
      if rows[|rows| - 1].instance == a.instance then a.gseq > rows[|rows| - 1].gseqMax
      else StringLess(rows[|rows| - 1].instance, a.instance)
  }

  lemma NextEvent(rows: seq<InstanceCoverage>, init: seq<Accepted>, a: Accepted)
    requires a.kind.BoundaryEvent? && forall e :: e in init ==> KeyLess(KeyOf(e), KeyOf(a))
    requires rows != [] ==> Landed(init, rows[|rows| - 1].instance, rows[|rows| - 1].gseqMax)
    ensures Continues(rows, a)
  {
    if rows != [] {
      var last := rows[|rows| - 1];
      var e :| e in init && e.kind.BoundaryEvent? && e.instance == last.instance && e.gseq == last.gseqMax;
      StringOrder(e.instance, a.instance);
    }
  }

  lemma NewInstance(rows: seq<InstanceCoverage>, init: seq<Accepted>, a: Accepted, g: u64)
    requires Ascending(rows) && AllHaveRows(rows, init) && Continues(rows, a)
    requires rows == [] || rows[|rows| - 1].instance != a.instance
    ensures !Landed(init, a.instance, g)
  {
    if Landed(init, a.instance, g) {
      var e :| e in init && e.kind.BoundaryEvent? && e.instance == a.instance && e.gseq == g;
      var i :| 0 <= i < |rows| && rows[i].instance == e.instance;
      StringOrder(rows[i].instance, rows[|rows| - 1].instance);
    }
  }

  lemma ScanAscends(rows: seq<InstanceCoverage>, a: Accepted)
    requires Ascending(rows) && Continues(rows, a)
    ensures Ascending(Scan(rows, a))
  {
    var n := |rows|;
    if a.kind.BoundaryEvent? && (rows == [] || rows[n - 1].instance != a.instance) {
      forall i | 0 <= i < n ensures StringLess(rows[i].instance, a.instance) {
        if i < n - 1 {
          StringChain(rows[i].instance, rows[n - 1].instance, a.instance);
        }
      }
    }
  }

  lemma ScanHasRows(rows: seq<InstanceCoverage>, init: seq<Accepted>, a: Accepted)
    requires AllHaveRows(rows, init)
    ensures AllHaveRows(Scan(rows, a), init + [a])
  {
    var next, n := Scan(rows, a), |rows|;
    forall e | e in init + [a] && e.kind.BoundaryEvent? ensures HasRow(next, e.instance) {
      if e in init {
        var i :| 0 <= i < n && rows[i].instance == e.instance;
        assert next[i].instance == e.instance;
      } else {
        assert next[|next| - 1].instance == e.instance;
      }
    }
  }

  /** A row the event does not touch still tiles. */
  lemma UntouchedTiles(row: InstanceCoverage, init: seq<Accepted>, a: Accepted)
    requires Tiles(row, LandedOf(init, row.instance)) && (a.kind.BoundaryEvent? ==> row.instance != a.instance)
    ensures Tiles(row, LandedOf(init + [a], row.instance))
  {
    LandedGrows(init, a, row.instance);
    assert LandedOf(init + [a], row.instance) == LandedOf(init, row.instance);
  }

  lemma TouchedTiles(row: InstanceCoverage, init: seq<Accepted>, a: Accepted)
    requires Tiles(row, LandedOf(init, row.instance)) && a.kind.BoundaryEvent? && row.instance == a.instance && a.gseq > row.gseqMax
    ensures Tiles(Extend(row, a.gseq), LandedOf(init + [a], row.instance))
  {
    LandedGrows(init, a, row.instance);
    ExtendTiles(row, LandedOf(init, row.instance), a.gseq);
  }

  lemma FreshTiles(init: seq<Accepted>, a: Accepted)
    requires a.kind.BoundaryEvent? && forall g :: !Landed(init, a.instance, g)
    ensures Tiles(FirstRow(a), LandedOf(init + [a], a.instance))
  {
    LandedGrows(init, a, a.instance);
    OneTiles(a);
    assert LandedOf(init, a.instance) == iset{};
    assert LandedOf(init + [a], a.instance) == iset{a.gseq};
  }

  lemma ScanTilesAt(rows: seq<InstanceCoverage>, init: seq<Accepted>, a: Accepted, i: nat)
    requires Ascending(rows) && (i < |rows| ==> TilesAt(rows, init, i)) && AllHaveRows(rows, init)
    requires a.kind.BoundaryEvent? ==> Continues(rows, a)
    requires i < |Scan(rows, a)|
    ensures TilesAt(Scan(rows, a), init + [a], i)
  {
    var n := |rows|;
    if !a.kind.BoundaryEvent? {
      UntouchedTiles(rows[i], init, a);
    } else if i == n {
      forall g ensures !Landed(init, a.instance, g) {
        NewInstance(rows, init, a, g);
      }
      FreshTiles(init, a);
    } else if i == n - 1 && rows[i].instance == a.instance {
      TouchedTiles(rows[i], init, a);
    } else {
      EarlierInstance(rows, a, i);
      UntouchedTiles(rows[i], init, a);
    }
  }

  lemma EarlierInstance(rows: seq<InstanceCoverage>, a: Accepted, i: nat)
    requires Ascending(rows) && Continues(rows, a) && i < |rows|
    requires i < |rows| - 1 || rows[i].instance != a.instance
    ensures rows[i].instance != a.instance
  {
    if i < |rows| - 1 {
      StringOrder(rows[i].instance, rows[|rows| - 1].instance);
    }
  }

  lemma ScanCovers(rows: seq<InstanceCoverage>, init: seq<Accepted>, a: Accepted)
    requires RowsCover(rows, init) && forall e :: e in init ==> KeyLess(KeyOf(e), KeyOf(a))
    ensures RowsCover(Scan(rows, a), init + [a])
    ensures a.kind.BoundaryEvent? ==> Continues(rows, a)
  {
    if a.kind.BoundaryEvent? {
      if rows != [] {
        LastLanded(rows, init);
      }
      NextEvent(rows, init, a);
      ScanAscends(rows, a);
    }
    ScanHasRows(rows, init, a);
    forall i: nat | i < |Scan(rows, a)| ensures TilesAt(Scan(rows, a), init + [a], i) {
      if i < |rows| {
        assert TilesAt(rows, init, i);
      }
      ScanTilesAt(rows, init, a, i);
    }
  }

  /** On a tape, coverage has one row per instance with boundary events, and each row tiles its range. */
  lemma {:induction false} CoverTiles(events: seq<Accepted>)
    requires Tape(events)
    ensures RowsCover(Cover(events), events)
  {
    if events != [] {
      var init, last := events[..|events| - 1], events[|events| - 1];
      assert events == init + [last];
      CoverTiles(init);
      ScanCovers(Cover(init), init, last);
    }
  }

  /** One event's turn, in 64-bit arithmetic: it is later than the row it extends, so nothing overflows. */
  method ScanNext(rows: seq<InstanceCoverage>, acc: Accepted) returns (next: seq<InstanceCoverage>)
    requires acc.kind.BoundaryEvent? && Continues(rows, acc)
    ensures next == Scan(rows, acc)
  {
    var n := |rows|;
    if n > 0 && rows[n - 1].instance == acc.instance {
      var cov := rows[n - 1];
      if acc.gseq > cov.gseqMax + 1 {
        cov := cov.(gaps := cov.gaps + [Range(cov.gseqMax + 1, acc.gseq - 1)]);
      }
      next := rows[..n - 1] + [cov.(gseqMax := acc.gseq, events := cov.events + 1)];
    } else {
      next := rows + [FirstRow(acc)];
    }
  }

  /** The scan of a sorted, deduplicated tape. */
  method CoverInstances(events: seq<Accepted>) returns (rows: seq<InstanceCoverage>)
    requires Tape(events)
    ensures rows == Cover(events) && RowsCover(rows, events)
  {
    rows := [];
    for i := 0 to |events|
      invariant rows == Cover(events[..i]) && RowsCover(rows, events[..i])
    {
      PrefixGrows(events, i);
      assert events[..i + 1][..i] == events[..i];
      assert forall e :: e in events[..i] ==> KeyLess(KeyOf(e), KeyOf(events[i]));
      ScanCovers(rows, events[..i], events[i]);
      if events[i].kind.BoundaryEvent? {
        rows := ScanNext(rows, events[i]);
      }
    }
    assert events[..|events|] == events;
  }

  // ----- shed ranges -----

  function RangeLe(): (Range, Range) -> bool {
    (a: Range, b: Range) => a.from < b.from || (a.from == b.from && a.to <= b.to)
  }

  function InsideAGap(gaps: seq<Range>): Range -> bool {
    (r: Range) => exists i :: 0 <= i < |gaps| && gaps[i].from <= r.from && r.to <= gaps[i].to
  }

  /** Equal neighbours collapsed. */
  function Dedup<T(==)>(xs: seq<T>): seq<T> {
    if |xs| < 2 then xs
    else
      var init := Dedup(xs[..|xs| - 1]);
      if xs[|xs| - 1] == xs[|xs| - 2] then init else init + [xs[|xs| - 1]]
  }

  function Accounted(gaps: seq<Range>, shed: seq<Range>): seq<Range> {
    Dedup(Sort(Filter(shed, InsideAGap(gaps)), RangeLe()))
  }

  lemma {:induction false} DedupSorted<T(!new)>(xs: seq<T>, le: (T, T) -> bool)
    requires TotalPreorder(le) && Sorted(xs, le) && NoTies(le)
    ensures Sorted(Dedup(xs), le) && NoDup(Dedup(xs)) && ToSet(Dedup(xs)) == ToSet(xs)
  {
    if |xs| >= 2 {
      var init, last := xs[..|xs| - 1], xs[|xs| - 1];
      DedupSorted(init, le);
      assert xs == init + [last];
      var had := Dedup(init);
      assert ToSet(xs) == ToSet(init) + {last};
      if last != init[|init| - 1] {
        forall x | x in had ensures le(x, last) && x != last {
          assert x in ToSet(had);
          StrictlyBefore(xs, le, x);
        }
        NoDupJoin(had, [last]);
        assert ToSet(had + [last]) == ToSet(had) + {last};
      }
    }
  }

  lemma StrictlyBefore<T(!new)>(xs: seq<T>, le: (T, T) -> bool, x: T)
    requires TotalPreorder(le) && Sorted(xs, le) && NoTies(le) && |xs| >= 2 && xs[|xs| - 1] != xs[|xs| - 2]
    requires x in xs[..|xs| - 1]
    ensures le(x, xs[|xs| - 1]) && x != xs[|xs| - 1]
  {
    var n := |xs|;
    var i :| 0 <= i < n - 1 && xs[i] == x;
    assert le(x, x) && le(xs[n - 2], xs[n - 1]);
    assert le(x, xs[n - 2]) by {
      if i < n - 2 {
        assert le(xs[i], xs[n - 2]);
      }
    }
  }

  /** Accounted ranges are the shed ranges that lie inside a gap: sorted, each once. */
  lemma AccountedIs(gaps: seq<Range>, shed: seq<Range>)
    ensures Sorted(Accounted(gaps, shed), RangeLe()) && NoDup(Accounted(gaps, shed))
    ensures forall r :: r in Accounted(gaps, shed) <==> r in shed && InsideAGap(gaps)(r)
  {
    var kept := Filter(shed, InsideAGap(gaps));
    var sorted := Sort(kept, RangeLe());
    FilterKeeps(shed, InsideAGap(gaps), RangeLe());
    SortSorts(kept, RangeLe());
    assert NoTies(RangeLe()) by {
      forall x, y | RangeLe()(x, y) && RangeLe()(y, x) ensures x == y {}
    }
    DedupSorted(sorted, RangeLe());
    forall r ensures r in Accounted(gaps, shed) <==> r in shed && InsideAGap(gaps)(r) {
      assert r in ToSet(Accounted(gaps, shed)) <==> r in multiset(sorted);
      assert r in multiset(sorted) <==> r in multiset(kept);
    }
  }

  /** Every sequence number in an accounted range is missing from the tape. */
  lemma AccountedIsMissing(row: InstanceCoverage, landed: iset<u64>, shed: seq<Range>, r: Range, g: u64)
    requires Tiles(row, landed) && r in Accounted(row.gaps, shed) && Inside(r, g)
    ensures InGap(row.gaps, g) && g !in landed && row.gseqMin < g < row.gseqMax
  {
    AccountedIs(row.gaps, shed);
    var i :| 0 <= i < |row.gaps| && row.gaps[i].from <= r.from && r.to <= row.gaps[i].to;
    assert row.gaps[i] in row.gaps;
  }

  /** Whether the accounted ranges are a sub-list of the gaps is decided by the shed ranges that pass the guard:
      each must be a whole gap. */
  lemma AccountedAmongGapsIff(gaps: seq<Range>, shed: seq<Range>)
    ensures (forall r :: r in Accounted(gaps, shed) ==> r in gaps) <==> (forall r :: r in shed && InsideAGap(gaps)(r) ==> r in gaps)
  {
    AccountedIs(gaps, shed);
  }

  /** Part of a gap is accounted for without being a gap. */
  lemma PartOfGapAccounted()
    ensures var gaps, part := [Range(3, 5)], Range(4, 4); part in Accounted(gaps, [part]) && part !in gaps
  {
    AccountedIs([Range(3, 5)], [Range(4, 4)]);
    assert InsideAGap([Range(3, 5)])(Range(4, 4)) by {
      assert [Range(3, 5)][0] == Range(3, 5);
    }
  }

  /** A range written backwards passes the guard and accounts for no sequence number. */
  lemma BackwardsAccounted()
    ensures var gaps, back := [Range(3, 5)], Range(9, 1); back in Accounted(gaps, [back]) && forall g :: !Inside(back, g)
  {
    AccountedIs([Range(3, 5)], [Range(9, 1)]);
    assert InsideAGap([Range(3, 5)])(Range(9, 1)) by {
      assert [Range(3, 5)][0] == Range(3, 5);
    }
  }

  /** The number after a gap is in no gap. */
  lemma AfterGapLanded(row: InstanceCoverage, i: nat)
    requires GapsApart(row) && i < |row.gaps|
    ensures !InGap(row.gaps, row.gaps[i].to + 1)
  {
    forall j | 0 <= j < |row.gaps| ensures !Inside(row.gaps[j], row.gaps[i].to + 1) {
      assert row.gaps[i] in row.gaps && row.gaps[j] in row.gaps;
    }
  }

  /** A run of missing numbers lies within one gap, because gaps never touch. */
  lemma MissingRunInOneGap(row: InstanceCoverage, r: Range, i: nat)
    requires GapsApart(row) && r.from <= r.to && i < |row.gaps| && Inside(row.gaps[i], r.from)
    requires forall g :: Inside(r, g) ==> InGap(row.gaps, g)
    ensures r.to <= row.gaps[i].to
  {
    if r.to > row.gaps[i].to {
      assert Inside(r, row.gaps[i].to + 1);
      AfterGapLanded(row, i);
    }
  }

  /** A shed range written forwards is accounted for exactly when every sequence number in it is missing. */
  lemma AccountedIffMissing(row: InstanceCoverage, shed: seq<Range>, r: Range)
    requires GapsApart(row) && r.from <= r.to
    ensures r in Accounted(row.gaps, shed) <==> r in shed && forall g :: Inside(r, g) ==> InGap(row.gaps, g)
  {
    AccountedIs(row.gaps, shed);
    if InsideAGap(row.gaps)(r) {
      var i :| 0 <= i < |row.gaps| && row.gaps[i].from <= r.from && r.to <= row.gaps[i].to;
      assert row.gaps[i] in row.gaps;
    }
    if forall g :: Inside(r, g) ==> InGap(row.gaps, g) {
      assert Inside(r, r.from);
      var h :| h in row.gaps && Inside(h, r.from);
      var i: nat :| i < |row.gaps| && row.gaps[i] == h;
      MissingRunInOneGap(row, r, i);
    }
  }

  /** Only which ranges were shed matters, not how often or in which order the markers arrived. */
  lemma MarkerOrderIrrelevant(gaps: seq<Range>, a: seq<Range>, b: seq<Range>)
    requires ToSet(a) == ToSet(b)
    ensures Accounted(gaps, a) == Accounted(gaps, b)
  {
    AccountedIs(gaps, a);
    AccountedIs(gaps, b);
    var x, y := Accounted(gaps, a), Accounted(gaps, b);
    forall r ensures r in x <==> r in y {
      assert r in a <==> r in ToSet(a);
      assert r in b <==> r in ToSet(b);
    }
    SameElements(x, y);
    SortedUnique(x, y, RangeLe());
  }

  /** Each row takes the losses of its own instance. */
  function WithLosses(row: InstanceCoverage, shed: map<string, seq<Range>>, dupes: map<string, nat>): InstanceCoverage {
    row.(gapsAccounted := if row.instance in shed then Accounted(row.gaps, shed[row.instance]) else row.gapsAccounted,
         duplicatesDropped := if row.instance in dupes then dupes[row.instance] else 0)
  }

  method AccountLosses(rows: seq<InstanceCoverage>, shed: map<string, seq<Range>>, dupes: map<string, nat>)
    returns (out: seq<InstanceCoverage>)
    ensures |out| == |rows| && forall i :: 0 <= i < |rows| ==> out[i] == WithLosses(rows[i], shed, dupes)
  {
    out := rows;
    for i := 0 to |rows|
      invariant |out| == |rows|
      invariant forall j :: 0 <= j < i ==> out[j] == WithLosses(rows[j], shed, dupes)
      invariant forall j :: i <= j < |rows| ==> out[j] == rows[j]
    {
      var cov := out[i];
      if cov.instance in shed {
        cov := cov.(gapsAccounted := Accounted(cov.gaps, shed[cov.instance]));
      }
      out := out[i := cov.(duplicatesDropped := if cov.instance in dupes then dupes[cov.instance] else 0)];
    }
  }
}
