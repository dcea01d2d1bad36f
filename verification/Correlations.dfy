/** The per-correlation index: rows in tape order, with capped, sorted evidence. */
module Correlations {
  import opened Common
  import opened Sequences
  import opened Records

  const MAX_BOUNDARIES: nat := 16

  datatype CorrelationSummary = CorrelationSummary(
    correlation: Option<string>,
    events: nat,
    gseqMin: u64,
    gseqMax: u64,
    boundaries: seq<string>,
    roles: seq<string>,
    truncated: bool)

  function Capped(xs: seq<string>): seq<string> {
    xs[..Least(MAX_BOUNDARIES, |xs|)]
  }

  /** The first sixteen distinct values, in tape order. */
  function FirstFew(xs: seq<string>): seq<string> {
    Capped(Distinct(xs))
  }

  /** The distinct values first met once the cap was reached. */
  function Later(xs: seq<string>): seq<string> {
    Distinct(xs)[|FirstFew(xs)|..]
  }

  /** ... listed in sorted order. */
  function Kept(xs: seq<string>): seq<string> {
    Sort(FirstFew(xs), StringLe())
  }

  predicate Truncated(xs: seq<string>) {
    |Distinct(xs)| > MAX_BOUNDARIES
  }

  /** The kept values are sorted, each once, and are the first sixteen distinct ones met. */
  lemma KeptIs(xs: seq<string>)
    ensures Sorted(Kept(xs), StringLe()) && NoDup(Kept(xs)) && ToSet(Kept(xs)) == ToSet(FirstFew(xs))
    ensures |Kept(xs)| == Least(MAX_BOUNDARIES, |Distinct(xs)|)
    ensures !Truncated(xs) ==> forall x :: x in Kept(xs) <==> x in xs
  {
    DistinctIs(xs);
    StringLeOrders();
    SortSorts(FirstFew(xs), StringLe());
    assert NoDup(FirstFew(xs));
    NoDupFromMultiset(FirstFew(xs), Kept(xs));
    assert |Kept(xs)| == |multiset(Kept(xs))| == |multiset(FirstFew(xs))| == |FirstFew(xs)|;
    if !Truncated(xs) {
      assert FirstFew(xs) == Distinct(xs);
      forall x ensures x in Kept(xs) <==> x in xs {
        assert x in ToSet(Kept(xs)) <==> x in ToSet(FirstFew(xs));
      }
    }
  }

  // ----- which sixteen are kept -----

  /** The first `n` of a list, sorted, lead the sorted list when they sort before all the others. */
  lemma SmallestFirst(front: seq<string>, back: seq<string>)
    requires forall x, y :: x in front && y in back ==> StringLess(x, y)
    ensures Sort(front + back, StringLe()) == Sort(front, StringLe()) + Sort(back, StringLe())
  {
    var f, b, all := Sort(front, StringLe()), Sort(back, StringLe()), Sort(front + back, StringLe());
    StringLeOrders();
    SortSorts(front, StringLe());
    SortSorts(back, StringLe());
    SortSorts(front + back, StringLe());
    forall i, j | 0 <= i < j < |f + b| ensures StringLe()((f + b)[i], (f + b)[j]) {
      if i < |f| <= j {
        SortedAcross(front, back, f[i], b[j - |f|]);
      }
    }
    SortedUnique(f + b, all, StringLe());
  }

  lemma SortedAcross(front: seq<string>, back: seq<string>, x: string, y: string)
    requires forall x, y :: x in front && y in back ==> StringLess(x, y)
    requires x in Sort(front, StringLe()) && y in Sort(back, StringLe())
    ensures StringLe()(x, y)
  {
    SortSorts(front, StringLe());
    SortSorts(back, StringLe());
    assert x in multiset(Sort(front, StringLe())) && y in multiset(Sort(back, StringLe()));
    StringOrder(x, y);
  }

  /** A list that begins with a permutation of the front ends with one of the back. */
  lemma RestPermutes(f: seq<string>, rest: seq<string>, front: seq<string>, back: seq<string>)
    requires multiset(f) == multiset(front) && multiset(f + rest) == multiset(front + back)
    ensures multiset(rest) == multiset(back)
  {
    assert multiset(rest) == multiset(f + rest) - multiset(f);
    assert multiset(back) == multiset(front + back) - multiset(front);
  }

  lemma SortedHalves(f: seq<string>, rest: seq<string>, x: string, y: string)
    requires Sorted(f + rest, StringLe()) && x in f && y in rest
    ensures StringLe()(x, y)
  {
    var i :| 0 <= i < |f| && f[i] == x;
    var j :| 0 <= j < |rest| && rest[j] == y;
    assert StringLe()((f + rest)[i], (f + rest)[|f| + j]);
  }

  /** A sorted list that begins with the sorted front has everything of the front before everything else. */
  lemma FrontIsSmallest(front: seq<string>, back: seq<string>, rest: seq<string>, x: string, y: string)
    requires NoDup(front + back) && x in front && y in back
    requires Sort(front + back, StringLe()) == Sort(front, StringLe()) + rest
    ensures StringLess(x, y)
  {
    StringLeOrders();
    SortSorts(front, StringLe());
    SortSorts(front + back, StringLe());
    RestPermutes(Sort(front, StringLe()), rest, front, back);
    assert x in multiset(Sort(front, StringLe())) && y in multiset(rest);
    SortedHalves(Sort(front, StringLe()), rest, x, y);
    StringOrder(x, y);
    DifferentHalves(front, back, x, y);
  }

  lemma DifferentHalves(front: seq<string>, back: seq<string>, x: string, y: string)
    requires NoDup(front + back) && x in front && y in back
    ensures x != y
  {
    var i :| 0 <= i < |front| && front[i] == x;
    var j :| 0 <= j < |back| && back[j] == y;
    assert (front + back)[i] != (front + back)[|front| + j];
  }

  lemma SortKeepsLength(xs: seq<string>)
    ensures |Sort(xs, StringLe())| == |xs|
  {
    SortSorts(xs, StringLe());
    SameLength(Sort(xs, StringLe()), xs);
  }

  ghost predicate AllBefore(front: seq<string>, back: seq<string>) {
    forall x, y :: x in front && y in back ==> StringLess(x, y)
  }

  /** The kept values are the first sixteen in sorted order exactly when no value first met after the cap sorts
      before one met within it. */
  lemma KeptAreSmallestIff(xs: seq<string>)
    ensures Kept(xs) == Capped(Sort(Distinct(xs), StringLe())) <==> AllBefore(FirstFew(xs), Later(xs))
  {
    var front, back, all := FirstFew(xs), Later(xs), Sort(Distinct(xs), StringLe());
    assert Distinct(xs) == front + back;
    SortKeepsLength(Distinct(xs));
    SortKeepsLength(front);
    if AllBefore(front, back) {
      SmallestFirst(front, back);
    }
    if Kept(xs) == Capped(all) {
      DistinctIs(xs);
      assert all == Kept(xs) + all[|front|..];
      forall x, y | x in front && y in back ensures StringLess(x, y) {
        FrontIsSmallest(front, back, all[|front|..], x, y);
      }
    }
  }

  function Letter(i: nat): string
    requires i < 26
  {
    ['a' + i as char]
  }

  /** Sixteen later letters, then "a": what is kept is not the first sixteen in sorted order. */
  lemma KeptNotSmallest()
    ensures
      var xs := seq(MAX_BOUNDARIES, i requires 0 <= i < MAX_BOUNDARIES => Letter(i + 1)) + [Letter(0)];
      Truncated(xs) && Kept(xs) != Capped(Sort(Distinct(xs), StringLe()))
  {
    var xs := seq(MAX_BOUNDARIES, i requires 0 <= i < MAX_BOUNDARIES => Letter(i + 1)) + [Letter(0)];
    forall i, j | 0 <= i < j < |xs| ensures xs[i] != xs[j] {
      assert xs[i][0] != xs[j][0];
    }
    DistinctOfNoDup(xs);
    assert FirstFew(xs)[0] == Letter(1) && Later(xs)[0] == Letter(0);
    assert Letter(1) in FirstFew(xs) && Letter(0) in Later(xs);
    assert !StringLess(Letter(1), Letter(0));
    KeptAreSmallestIff(xs);
  }

  // ----- one correlation's row -----

  function Ids(events: seq<Accepted>): seq<Option<string>> {
    if events == [] then []
    else Ids(events[..|events| - 1]) + if events[|events| - 1].kind.BoundaryEvent? then [events[|events| - 1].correlation] else []
  }

  /** The boundary events of one correlation, in tape order. */
  function Of(events: seq<Accepted>, id: Option<string>): seq<Accepted> {
    if events == [] then []
    else
      var last := events[|events| - 1];
      Of(events[..|events| - 1], id) + if last.kind.BoundaryEvent? && last.correlation == id then [last] else []
  }

  function BoundariesOf(es: seq<Accepted>): seq<string> {
    seq(|es|, i requires 0 <= i < |es| => es[i].boundary)
  }

  function RolesOf(es: seq<Accepted>): seq<string> {
    if es == [] then []
    else RolesOf(es[..|es| - 1]) + if es[|es| - 1].role.Some? then [es[|es| - 1].role.value] else []
  }

  ghost predicate LeastOf(es: seq<Accepted>, g: u64) {
    (exists e :: e in es && e.gseq == g) && forall e :: e in es ==> g <= e.gseq
  }

  ghost predicate GreatestOf(es: seq<Accepted>, g: u64) {
    (exists e :: e in es && e.gseq == g) && forall e :: e in es ==> e.gseq <= g
  }

  /** The row says what it should of these events of its correlation. */
  ghost predicate Summarizes(row: CorrelationSummary, es: seq<Accepted>) {
    && row.events == |es| && LeastOf(es, row.gseqMin) && GreatestOf(es, row.gseqMax)
    && row.boundaries == Kept(BoundariesOf(es)) && row.roles == Kept(RolesOf(es))
    && row.truncated == (Truncated(BoundariesOf(es)) || Truncated(RolesOf(es)))
  }

  lemma SummaryUnique(a: CorrelationSummary, b: CorrelationSummary, es: seq<Accepted>)
    requires Summarizes(a, es) && Summarizes(b, es) && a.correlation == b.correlation
    ensures a == b
  {
  }

  // ----- capped, sorted insertion -----

  lemma InsertIsSort(xs: seq<string>, x: string)
    ensures Sort(xs + [x], StringLe()) == Insert(x, Sort(xs, StringLe()), StringLe())
  {
    StringLeOrders();
    SortSorts(xs, StringLe());
    SortSorts(xs + [x], StringLe());
    InsertKeeps(x, Sort(xs, StringLe()), StringLe());
    SortedUnique(Sort(xs + [x], StringLe()), Insert(x, Sort(xs, StringLe()), StringLe()), StringLe());
  }

  /** One value offered to a capped sorted list. */
  method Offer(kept: seq<string>, value: string, ghost xs: seq<string>) returns (kept': seq<string>, over: bool)
    requires kept == Kept(xs)
    ensures kept' == Kept(xs + [value])
    ensures Truncated(xs + [value]) <==> Truncated(xs) || over
  {
    KeptIs(xs);
    DistinctIs(xs);
    var all := xs + [value];
    assert all[..|xs|] == xs;
    kept', over := kept, false;
    if value !in kept {
      assert value !in ToSet(kept);
      if |kept| < MAX_BOUNDARIES {
        assert value !in Distinct(xs);
        assert FirstFew(xs) == Distinct(xs) && FirstFew(all) == Distinct(xs) + [value];
        InsertIsSort(Distinct(xs), value);
        kept' := Insert(value, kept, StringLe());
      } else {
        over := true;
        LateValueDropped(xs, value);
      }
    } else {
      assert value in ToSet(kept);
      assert value in FirstFew(xs);
      assert value in Distinct(xs);
    }
  }

  /** Once sixteen values are kept, another changes nothing but the flag, wherever it sorts. */
  lemma LateValueDropped(xs: seq<string>, value: string)
    requires |Kept(xs)| >= MAX_BOUNDARIES && value !in Kept(xs)
    ensures Kept(xs + [value]) == Kept(xs) && Truncated(xs + [value])
  {
    KeptIs(xs);
    DistinctIs(xs);
    assert (xs + [value])[..|xs|] == xs;
    var d := Distinct(xs);
    assert FirstFew(xs) == d[..MAX_BOUNDARIES];
    assert value !in d[..MAX_BOUNDARIES] by {
      assert value !in ToSet(Kept(xs));
    }
    assert |d| == MAX_BOUNDARIES ==> d[..MAX_BOUNDARIES] == d;
    if value !in d {
      assert (d + [value])[..MAX_BOUNDARIES] == d[..MAX_BOUNDARIES];
    }
  }

  // ----- the scan -----

  type Rows = map<Option<string>, CorrelationSummary>

  ghost predicate RowFor(corr: Rows, events: seq<Accepted>, id: Option<string>) {
    id in corr && corr[id].correlation == id && Summarizes(corr[id], Of(events, id))
  }

  /** Ids in first-appearance order, each with a row that summarises its events. */
  ghost predicate Indexed(order: seq<Option<string>>, corr: Rows, events: seq<Accepted>) {
    order == Distinct(Ids(events)) && SameKeys(order, corr) && RowsFor(order, corr, events)
  }

  ghost predicate SameKeys(order: seq<Option<string>>, corr: Rows) {
    forall id :: id in corr <==> id in order
  }

  ghost predicate RowsFor(order: seq<Option<string>>, corr: Rows, events: seq<Accepted>) {
    forall id {:trigger RowFor(corr, events, id)} :: id in order ==> RowFor(corr, events, id)
  }

  lemma OneMore(events: seq<Accepted>, i: nat)
    requires i < |events| && events[i].kind.BoundaryEvent?
    ensures Ids(events[..i + 1]) == Ids(events[..i]) + [events[i].correlation]
    ensures Of(events[..i + 1], events[i].correlation) == Of(events[..i], events[i].correlation) + [events[i]]
    ensures forall id :: id != events[i].correlation ==> Of(events[..i + 1], id) == Of(events[..i], id)
  {
    assert events[..i + 1][..i] == events[..i];
  }

  lemma {:induction false} OfNone(events: seq<Accepted>, id: Option<string>)
    ensures Of(events, id) == [] <==> id !in Ids(events)
  {
    if events != [] {
      OfNone(events[..|events| - 1], id);
    }
  }

  lemma SpreadGrows(es: seq<Accepted>, a: Accepted, lo: u64, hi: u64)
    requires es != [] ==> LeastOf(es, lo) && GreatestOf(es, hi)
    requires es == [] ==> lo == hi == a.gseq
    ensures LeastOf(es + [a], if a.gseq < lo then a.gseq else lo)
    ensures GreatestOf(es + [a], if a.gseq > hi then a.gseq else hi)
  {
    var all := es + [a];
    assert a in all;
    if es != [] {
      var e :| e in es && e.gseq == lo;
      var f :| f in es && f.gseq == hi;
      assert e in all && f in all;
    }
  }

  /** A correlation's row before its first event counts nothing. */
  function Blank(a: Accepted): CorrelationSummary {
    CorrelationSummary(a.correlation, 0, a.gseq, a.gseq, [], [], false)
  }

  ghost predicate Counts(row: CorrelationSummary, es: seq<Accepted>, a: Accepted) {
    if es == [] then row == Blank(a) else Summarizes(row, es)
  }

  /** The evidence lists of a row take in one more event. */
  method Observe(row: CorrelationSummary, a: Accepted, ghost es: seq<Accepted>) returns (row': CorrelationSummary)
    requires row.boundaries == Kept(BoundariesOf(es)) && row.roles == Kept(RolesOf(es))
    requires row.truncated == (Truncated(BoundariesOf(es)) || Truncated(RolesOf(es)))
    ensures row'.boundaries == Kept(BoundariesOf(es + [a])) && row'.roles == Kept(RolesOf(es + [a]))
    ensures row'.truncated == (Truncated(BoundariesOf(es + [a])) || Truncated(RolesOf(es + [a])))
    ensures row' == row.(boundaries := row'.boundaries, roles := row'.roles, truncated := row'.truncated)
  {
    assert BoundariesOf(es + [a]) == BoundariesOf(es) + [a.boundary];
    assert (es + [a])[..|es|] == es;
    var boundaries, over := Offer(row.boundaries, a.boundary, BoundariesOf(es));
    var roles, overRoles := row.roles, false;
    if a.role.None? {
      assert RolesOf(es + [a]) == RolesOf(es);
    } else {
      assert RolesOf(es + [a]) == RolesOf(es) + [a.role.value];
      roles, overRoles := Offer(row.roles, a.role.value, RolesOf(es));
    }
    row' := row.(boundaries := boundaries, roles := roles, truncated := row.truncated || over || overRoles);
  }

  method Count(row: CorrelationSummary, a: Accepted, ghost es: seq<Accepted>) returns (row': CorrelationSummary)
    requires Counts(row, es, a)
    ensures Summarizes(row', es + [a]) && row'.correlation == row.correlation
  {
    SpreadGrows(es, a, row.gseqMin, row.gseqMax);
    assert es == [] ==> BoundariesOf(es) == [];
    row' := row.(events := row.events + 1,
                 gseqMin := if a.gseq < row.gseqMin then a.gseq else row.gseqMin,
                 gseqMax := if a.gseq > row.gseqMax then a.gseq else row.gseqMax);
    row' := Observe(row', a, es);
  }

  lemma OrderGrows(order: seq<Option<string>>, ids: seq<Option<string>>, id: Option<string>)
    requires order == Distinct(ids)
    ensures (if id in order then order else order + [id]) == Distinct(ids + [id])
  {
    assert (ids + [id])[..|ids|] == ids;
  }

  lemma KeysGrow(order: seq<Option<string>>, corr: Rows, row: CorrelationSummary)
    requires SameKeys(order, corr)
    ensures SameKeys(if row.correlation in corr then order else order + [row.correlation], corr[row.correlation := row])
  {
  }

  lemma RowsGrow(order: seq<Option<string>>, order': seq<Option<string>>, corr: Rows, events: seq<Accepted>, i: nat, row: CorrelationSummary)
    requires i < |events| && events[i].kind.BoundaryEvent? && RowsFor(order, corr, events[..i])
    requires forall o :: o in order' ==> o in order || o == row.correlation
    requires row.correlation == events[i].correlation && Summarizes(row, Of(events[..i + 1], row.correlation))
    ensures RowsFor(order', corr[row.correlation := row], events[..i + 1])
  {
    OneMore(events, i);
    forall o | o in order' ensures RowFor(corr[row.correlation := row], events[..i + 1], o) {
      if o != row.correlation {
        assert RowFor(corr, events[..i], o);
      }
    }
  }

  lemma IndexGrows(order: seq<Option<string>>, corr: Rows, events: seq<Accepted>, i: nat, row: CorrelationSummary)
    requires i < |events| && events[i].kind.BoundaryEvent? && Indexed(order, corr, events[..i])
    requires row.correlation == events[i].correlation && Summarizes(row, Of(events[..i + 1], row.correlation))
    ensures Indexed(if row.correlation in corr then order else order + [row.correlation], corr[row.correlation := row], events[..i + 1])
  {
    OneMore(events, i);
    OrderGrows(order, Ids(events[..i]), row.correlation);
    KeysGrow(order, corr, row);
    RowsGrow(order, if row.correlation in corr then order else order + [row.correlation], corr, events, i, row);
  }

  /** Rows come out in first-appearance order, one per correlation, each summarising exactly its events. */
  method SummarizeCorrelations(events: seq<Accepted>) returns (rows: seq<CorrelationSummary>)
    ensures IndexRows(rows, events)
  {
    var order: seq<Option<string>>, corr: Rows := [], map[];
    for i := 0 to |events|
      invariant Indexed(order, corr, events[..i])
    {
      var acc := events[i];
      if acc.kind.BoundaryEvent? {
        var id := acc.correlation;
        OneMore(events, i);
        OfNone(events[..i], id);
        DistinctIs(Ids(events[..i]));
        assert id in order ==> RowFor(corr, events[..i], id);
        var row := if id in corr then corr[id] else Blank(acc);
        row := Count(row, acc, Of(events[..i], id));
        IndexGrows(order, corr, events, i, row);
        order := if id in corr then order else order + [id];
        corr := corr[id := row];
      } else {
        SkipKeeps(order, corr, events, i);
      }
    }
    assert events[..|events|] == events;
    rows := [];
    for i := 0 to |order|
      invariant |rows| == i && forall j :: 0 <= j < i ==> rows[j] == corr[order[j]]
    {
      assert RowFor(corr, events, order[i]);
      rows := rows + [corr[order[i]]];
    }
    forall j | 0 <= j < |rows| ensures rows[j].correlation == order[j] && Summarizes(rows[j], Of(events, order[j])) {
      assert RowFor(corr, events, order[j]);
    }
  }

  lemma SkipKeeps(order: seq<Option<string>>, corr: Rows, events: seq<Accepted>, i: nat)
    requires i < |events| && !events[i].kind.BoundaryEvent? && Indexed(order, corr, events[..i])
    ensures Indexed(order, corr, events[..i + 1])
  {
    assert events[..i + 1][..i] == events[..i];
    assert Ids(events[..i + 1]) == Ids(events[..i]);
    forall id | id in order ensures RowFor(corr, events[..i + 1], id) {
      assert RowFor(corr, events[..i], id);
      assert Of(events[..i + 1], id) == Of(events[..i], id);
    }
  }

  ghost predicate IndexRows(rows: seq<CorrelationSummary>, events: seq<Accepted>) {
    && |rows| == |Distinct(Ids(events))|
    && forall j :: 0 <= j < |rows| ==> rows[j].correlation == Distinct(Ids(events))[j] && Summarizes(rows[j], Of(events, rows[j].correlation))
  }

  /** The tape determines the index. */
  lemma IndexUnique(a: seq<CorrelationSummary>, b: seq<CorrelationSummary>, events: seq<Accepted>)
    requires IndexRows(a, events) && IndexRows(b, events)
    ensures a == b
  {
    forall j | 0 <= j < |a| ensures a[j] == b[j] {
      SummaryUnique(a[j], b[j], Of(events, a[j].correlation));
    }
  }

  // ----- the index counts every boundary event once -----

  function TotalEvents(rows: seq<CorrelationSummary>): nat {
    if rows == [] then 0 else TotalEvents(rows[..|rows| - 1]) + rows[|rows| - 1].events
  }

  function SizesOf(events: seq<Accepted>, ids: seq<Option<string>>): nat {
    if ids == [] then 0 else SizesOf(events, ids[..|ids| - 1]) + |Of(events, ids[|ids| - 1])|
  }

  lemma {:induction false} SizesGrow(events: seq<Accepted>, ids: seq<Option<string>>)
    requires events != [] && NoDup(ids)
    ensures
      var last := events[|events| - 1];
      SizesOf(events, ids) == SizesOf(events[..|events| - 1], ids) + if last.kind.BoundaryEvent? && last.correlation in ids then 1 else 0
  {
    if ids != [] {
      var init, id := ids[..|ids| - 1], ids[|ids| - 1];
      assert ids == init + [id];
      NoDupParts(init, [id]);
      assert id !in init;
      SizesGrow(events, init);
    }
  }

  lemma {:induction false} SizesCover(events: seq<Accepted>, ids: seq<Option<string>>)
    requires NoDup(ids) && forall id :: id in Ids(events) ==> id in ids
    ensures SizesOf(events, ids) == |Ids(events)|
  {
    if events == [] {
      SizesEmpty(ids);
    } else {
      var init, last := events[..|events| - 1], events[|events| - 1];
      SizesGrow(events, ids);
      assert last.kind.BoundaryEvent? ==> last.correlation in Ids(events);
      SizesCover(init, ids);
    }
  }

  lemma {:induction false} SizesEmpty(ids: seq<Option<string>>)
    ensures SizesOf([], ids) == 0
  {
    if ids != [] {
      SizesEmpty(ids[..|ids| - 1]);
    }
  }

  lemma {:induction false} TotalIsSizes(rows: seq<CorrelationSummary>, events: seq<Accepted>, ids: seq<Option<string>>)
    requires |rows| == |ids| && forall j :: 0 <= j < |rows| ==> rows[j].events == |Of(events, ids[j])|
    ensures TotalEvents(rows) == SizesOf(events, ids)
  {
    if rows != [] {
      TotalIsSizes(rows[..|rows| - 1], events, ids[..|ids| - 1]);
    }
  }

  /** The rows' event counts add up to the boundary events on the tape, and no correlation has two rows. */
  lemma IndexCountsAll(rows: seq<CorrelationSummary>, events: seq<Accepted>)
    requires IndexRows(rows, events)
    ensures TotalEvents(rows) == |Ids(events)|
    ensures forall i, j :: 0 <= i < j < |rows| ==> rows[i].correlation != rows[j].correlation
  {
    var ids := Distinct(Ids(events));
    DistinctIs(Ids(events));
    SizesCover(events, ids);
    TotalIsSizes(rows, events, ids);
  }
}
