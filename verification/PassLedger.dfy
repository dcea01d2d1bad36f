/** The sealing pass: what was planned, what was accounted for, and every way the two can disagree. */
module PassLedger {
  import opened Common
  import opened Sequences
  import opened Records
  import opened LandingPlan

  datatype Outcome =
    | Sealed(landingObjects: nat, resealed: bool)
    | AlreadyCurrent(sealedObjects: nat)
    | NotReady(objects: nat)
    | TooLarge(readBytes: nat)
    | Failed(error: string)

  datatype Row = Row(system: string, recordingId: string, outcome: Outcome)

  datatype SystemLedger = SystemLedger(system: string, planned: seq<string>, rows: seq<Row>, unreachable: Option<string>)

  datatype Ledger = Ledger(systems: seq<SystemLedger>, rosterError: Option<string>)

  // ----- disagreements -----

  datatype Disagreement =
    | RowsWithoutPlan(rows: nat)
    | NeverAccounted(id: string)
    | AccountedTimes(id: string, times: nat)
    | NeverPlanned(id: string)

  function IdsOf(rows: seq<Row>): seq<string> {
    seq(|rows|, i requires 0 <= i < |rows| => rows[i].recordingId)
  }

  function Times(rows: seq<Row>, id: string): nat {
    multiset(IdsOf(rows))[id]
  }

  /** Each id once, in order, as a tree set iterates. */
  function InOrder(ids: seq<string>): seq<string> {
    Sort(Distinct(ids), StringLe())
  }

  function OfPlanned(rows: seq<Row>, id: string): seq<Disagreement> {
    if Times(rows, id) == 0 then [NeverAccounted(id)]
    else if Times(rows, id) == 1 then []
    else [AccountedTimes(id, Times(rows, id))]
  }

  function OfSeen(planned: seq<string>, id: string): seq<Disagreement> {
    if id in planned then [] else [NeverPlanned(id)]
  }

  function AllPlanned(ids: seq<string>, rows: seq<Row>): seq<Disagreement> {
    if ids == [] then [] else AllPlanned(ids[..|ids| - 1], rows) + OfPlanned(rows, ids[|ids| - 1])
  }

  function AllSeen(ids: seq<string>, planned: seq<string>): seq<Disagreement> {
    if ids == [] then [] else AllSeen(ids[..|ids| - 1], planned) + OfSeen(planned, ids[|ids| - 1])
  }

  function Disagreeing(s: SystemLedger): seq<Disagreement> {
    if s.unreachable.Some? then (if s.rows == [] then [] else [RowsWithoutPlan(|s.rows|)])
    else AllPlanned(InOrder(s.planned), s.rows) + AllSeen(InOrder(IdsOf(s.rows)), s.planned)
  }

  /** Every planned id has exactly one row, and no other id has any. */
  ghost predicate Reconciled(planned: seq<string>, rows: seq<Row>) {
    forall id :: Times(rows, id) == if id in planned then 1 else 0
  }

  lemma InOrderIs(ids: seq<string>)
    ensures forall id :: id in InOrder(ids) <==> id in ids
    ensures NoDup(InOrder(ids)) && Sorted(InOrder(ids), StringLe())
  {
    DistinctIs(ids);
    StringLeOrders();
    SortSorts(Distinct(ids), StringLe());
    NoDupFromMultiset(Distinct(ids), InOrder(ids));
    forall id ensures id in InOrder(ids) <==> id in ids {
      assert id in ToSet(InOrder(ids)) <==> id in ToSet(Distinct(ids));
    }
  }

  lemma {:induction false} AllPlannedIs(ids: seq<string>, rows: seq<Row>, d: Disagreement)
    ensures d in AllPlanned(ids, rows) <==>
              || (d.NeverAccounted? && d.id in ids && Times(rows, d.id) == 0)
              || (d.AccountedTimes? && d.id in ids && d.times == Times(rows, d.id) && d.times > 1)
  {
    if ids != [] {
      AllPlannedIs(ids[..|ids| - 1], rows, d);
      assert ids == ids[..|ids| - 1] + [ids[|ids| - 1]];
    }
  }

  lemma {:induction false} AllSeenIs(ids: seq<string>, planned: seq<string>, d: Disagreement)
    ensures d in AllSeen(ids, planned) <==> d.NeverPlanned? && d.id in ids && d.id !in planned
  {
    if ids != [] {
      AllSeenIs(ids[..|ids| - 1], planned, d);
      assert ids == ids[..|ids| - 1] + [ids[|ids| - 1]];
    }
  }

  /** What is reported for a reachable system: each planned id missed or repeated, and each id never planned. */
  lemma DisagreementsAre(s: SystemLedger, d: Disagreement)
    requires s.unreachable.None?
    ensures d in Disagreeing(s) <==>
              || (d.NeverAccounted? && d.id in s.planned && Times(s.rows, d.id) == 0)
              || (d.AccountedTimes? && d.id in s.planned && d.times == Times(s.rows, d.id) && d.times > 1)
              || (d.NeverPlanned? && d.id !in s.planned && Times(s.rows, d.id) > 0)
  {
    InOrderIs(s.planned);
    InOrderIs(IdsOf(s.rows));
    AllPlannedIs(InOrder(s.planned), s.rows, d);
    AllSeenIs(InOrder(IdsOf(s.rows)), s.planned, d);
    assert d.NeverPlanned? ==> (d.id in multiset(IdsOf(s.rows)) <==> d.id in IdsOf(s.rows));
  }

  /** No disagreement is reported exactly when plan and rows reconcile. */
  lemma NoneIffReconciled(s: SystemLedger)
    requires s.unreachable.None?
    ensures Disagreeing(s) == [] <==> Reconciled(s.planned, s.rows)
  {
    var found := Disagreeing(s);
    if found != [] {
      assert found[0] in found;
      DisagreementsAre(s, found[0]);
    }
    if found == [] {
      forall id ensures Times(s.rows, id) == if id in s.planned then 1 else 0 {
        DisagreementsAre(s, NeverAccounted(id));
        DisagreementsAre(s, AccountedTimes(id, Times(s.rows, id)));
        DisagreementsAre(s, NeverPlanned(id));
      }
    }
  }

  method CountRows(rows: seq<Row>) returns (seen: map<string, nat>)
    ensures forall id :: (id in seen <==> id in IdsOf(rows)) && (id in seen ==> seen[id] == Times(rows, id))
  {
    seen := map[];
    for i := 0 to |rows|
      invariant forall id :: id in seen <==> id in IdsOf(rows[..i])
      invariant forall id :: id in seen ==> seen[id] == Times(rows[..i], id)
    {
      var id := rows[i].recordingId;
      assert rows[..i + 1] == rows[..i] + [rows[i]];
      assert IdsOf(rows[..i + 1]) == IdsOf(rows[..i]) + [id];
      assert id !in IdsOf(rows[..i]) ==> Times(rows[..i], id) == 0;
      seen := seen[id := (if id in seen then seen[id] else 0) + 1];
    }
    assert rows[..|rows|] == rows;
  }

  method PlannedFindings(planned: seq<string>, seen: map<string, nat>, ghost rows: seq<Row>) returns (out: seq<Disagreement>)
    requires forall id :: (id in seen <==> id in IdsOf(rows)) && (id in seen ==> seen[id] == Times(rows, id))
    ensures out == AllPlanned(planned, rows)
  {
    out := [];
    for i := 0 to |planned|
      invariant out == AllPlanned(planned[..i], rows)
    {
      var id := planned[i];
      assert planned[..i + 1][..i] == planned[..i];
      assert id in multiset(IdsOf(rows)) <==> id in IdsOf(rows);
      if id !in seen {
        out := out + [NeverAccounted(id)];
      } else if seen[id] != 1 {
        out := out + [AccountedTimes(id, seen[id])];
      }
    }
    assert planned[..|planned|] == planned;
  }

  method SeenFindings(accounted: seq<string>, planned: seq<string>) returns (out: seq<Disagreement>)
    ensures out == AllSeen(accounted, planned)
  {
    out := [];
    for i := 0 to |accounted|
      invariant out == AllSeen(accounted[..i], planned)
    {
      assert accounted[..i + 1][..i] == accounted[..i];
      if accounted[i] !in planned {
        out := out + [NeverPlanned(accounted[i])];
      }
    }
    assert accounted[..|accounted|] == accounted;
  }

  method Disagreements(s: SystemLedger) returns (out: seq<Disagreement>)
    ensures out == Disagreeing(s)
  {
    if s.unreachable.Some? {
      return if s.rows == [] then [] else [RowsWithoutPlan(|s.rows|)];
    }
    var seen := CountRows(s.rows);
    var missed := PlannedFindings(InOrder(s.planned), seen, s.rows);
    var extra := SeenFindings(InOrder(IdsOf(s.rows)), s.planned);
    out := missed + extra;
  }

  // ----- totals -----

  datatype Totals = Totals(
    systems: nat, unreachable: nat, planned: nat, sealed: nat, alreadyCurrent: nat, notReady: nat,
    dropped: nat, refused: nat, failed: nat)

  const ZERO := Totals(0, 0, 0, 0, 0, 0, 0, 0, 0)

  function WithRow(t: Totals, row: Row): Totals {
    match row.outcome
    case Sealed(_, _) => t.(sealed := t.sealed + 1)
    case AlreadyCurrent(_) => t.(alreadyCurrent := t.alreadyCurrent + 1)
    case NotReady(_) => t.(notReady := t.notReady + 1)
    case TooLarge(_) => t.(dropped := t.dropped + 1, refused := t.refused + 1)
    case Failed(_) => t.(dropped := t.dropped + 1, failed := t.failed + 1)
  }

  /** Rows with one kind of outcome. */
  function Having(rows: seq<Row>, kind: Outcome -> bool): nat {
    if rows == [] then 0 else Having(rows[..|rows| - 1], kind) + if kind(rows[|rows| - 1].outcome) then 1 else 0
  }

  function HavingAll(systems: seq<SystemLedger>, kind: Outcome -> bool): nat {
    if systems == [] then 0 else HavingAll(systems[..|systems| - 1], kind) + Having(systems[|systems| - 1].rows, kind)
  }

  function RowCount(systems: seq<SystemLedger>): nat {
    if systems == [] then 0 else RowCount(systems[..|systems| - 1]) + |systems[|systems| - 1].rows|
  }

  function PlannedCount(systems: seq<SystemLedger>): nat {
    if systems == [] then 0 else PlannedCount(systems[..|systems| - 1]) + |systems[|systems| - 1].planned|
  }

  function UnreachableCount(systems: seq<SystemLedger>): nat {
    if systems == [] then 0
    else UnreachableCount(systems[..|systems| - 1]) + if systems[|systems| - 1].unreachable.Some? then 1 else 0
  }

  function IsSealed(): Outcome -> bool { (o: Outcome) => o.Sealed? }
  function IsCurrent(): Outcome -> bool { (o: Outcome) => o.AlreadyCurrent? }
  function IsNotReady(): Outcome -> bool { (o: Outcome) => o.NotReady? }
  function IsRefusal(): Outcome -> bool { (o: Outcome) => o.TooLarge? }
  function IsFailure(): Outcome -> bool { (o: Outcome) => o.Failed? }

  /** The totals these counts come to. */
  function TotalsFrom(systems: nat, unreachable: nat, planned: nat, sealed: nat, current: nat, notReady: nat, refused: nat, failed: nat): Totals {
    Totals(systems, unreachable, planned, sealed, current, notReady, refused + failed, refused, failed)
  }

  function Counted(systems: seq<SystemLedger>): Totals {
    TotalsFrom(|systems|, UnreachableCount(systems), PlannedCount(systems), HavingAll(systems, IsSealed()),
               HavingAll(systems, IsCurrent()), HavingAll(systems, IsNotReady()), HavingAll(systems, IsRefusal()),
               HavingAll(systems, IsFailure()))
  }

  function AddRows(t: Totals, rows: seq<Row>): Totals {
    TotalsFrom(t.systems, t.unreachable, t.planned, t.sealed + Having(rows, IsSealed()), t.alreadyCurrent + Having(rows, IsCurrent()),
               t.notReady + Having(rows, IsNotReady()), t.refused + Having(rows, IsRefusal()), t.failed + Having(rows, IsFailure()))
  }

  method TallyRows(rows: seq<Row>, t: Totals) returns (t': Totals)
    requires t.dropped == t.refused + t.failed
    ensures t' == AddRows(t, rows)
  {
    t' := t;
    for i := 0 to |rows|
      invariant t' == AddRows(t, rows[..i])
    {
      assert rows[..i + 1][..i] == rows[..i];
      t' := WithRow(t', rows[i]);
    }
    assert rows[..|rows|] == rows;
  }

  method TotalsOf(ledger: Ledger) returns (t: Totals)
    ensures t == Counted(ledger.systems)
  {
    t := ZERO.(systems := |ledger.systems|);
    for i := 0 to |ledger.systems|
      invariant t == Counted(ledger.systems[..i]).(systems := |ledger.systems|)
    {
      var system := ledger.systems[i];
      assert ledger.systems[..i + 1][..i] == ledger.systems[..i];
      if system.unreachable.Some? {
        t := t.(unreachable := t.unreachable + 1);
      }
      t := t.(planned := t.planned + |system.planned|);
      t := TallyRows(system.rows, t);
    }
    assert ledger.systems[..|ledger.systems|] == ledger.systems;
  }

  lemma {:induction false} OneKindEach(rows: seq<Row>)
    ensures Having(rows, IsSealed()) + Having(rows, IsCurrent()) + Having(rows, IsNotReady()) + Having(rows, IsRefusal())
            + Having(rows, IsFailure()) == |rows|
  {
    if rows != [] {
      OneKindEach(rows[..|rows| - 1]);
    }
  }

  lemma {:induction false} TimesCounted(rows: seq<Row>, id: string)
    ensures Times(rows, id) == HowMany(rows, (r: Row) => r.recordingId == id)
  {
    if rows != [] {
      var init, last := rows[..|rows| - 1], rows[|rows| - 1];
      assert rows == init + [last];
      assert IdsOf(rows) == IdsOf(init) + [last.recordingId];
      TimesCounted(init, id);
      HowManyNext(init, last, (r: Row) => r.recordingId == id);
    }
  }

  /** What is reported, by how many rows name an id: planned ids with no row or several, ids with a row and no plan,
      and for a system never reached any rows at all. */
  lemma FindingsAre(s: SystemLedger, d: Disagreement)
    ensures d in Disagreeing(s) <==>
              match d
              case RowsWithoutPlan(rows) => s.unreachable.Some? && rows == |s.rows| > 0
              case NeverAccounted(id) => s.unreachable.None? && id in s.planned && HowMany(s.rows, (r: Row) => r.recordingId == id) == 0
              case AccountedTimes(id, times) =>
                s.unreachable.None? && id in s.planned && times == HowMany(s.rows, (r: Row) => r.recordingId == id) > 1
              case NeverPlanned(id) => s.unreachable.None? && id !in s.planned && HowMany(s.rows, (r: Row) => r.recordingId == id) > 0
  {
    if s.unreachable.None? {
      DisagreementsAre(s, d);
      if !d.RowsWithoutPlan? {
        TimesCounted(s.rows, d.id);
      }
    }
  }

  /** Every row is counted under exactly one outcome. */
  lemma {:induction false} RowsAreCounted(systems: seq<SystemLedger>)
    ensures var t := Counted(systems);
            t.sealed + t.alreadyCurrent + t.notReady + t.refused + t.failed == RowCount(systems) && t.dropped == t.refused + t.failed
  {
    if systems != [] {
      RowsAreCounted(systems[..|systems| - 1]);
      OneKindEach(systems[|systems| - 1].rows);
    }
  }

  /** All the rows of a pass, system after system. */
  function AllRows(systems: seq<SystemLedger>): seq<Row> {
    if systems == [] then [] else AllRows(systems[..|systems| - 1]) + systems[|systems| - 1].rows
  }

  lemma {:induction false} HavingCounted(before: seq<Row>, rows: seq<Row>, kind: Outcome -> bool)
    ensures HowMany(before + rows, (r: Row) => kind(r.outcome)) == HowMany(before, (r: Row) => kind(r.outcome)) + Having(rows, kind)
  {
    if rows == [] {
      assert before + rows == before;
    } else {
      var init, last := rows[..|rows| - 1], rows[|rows| - 1];
      assert before + rows == (before + init) + [last];
      HavingCounted(before, init, kind);
      HowManyNext(before + init, last, (r: Row) => kind(r.outcome));
    }
  }

  lemma {:induction false} HavingAllCounted(systems: seq<SystemLedger>, kind: Outcome -> bool)
    ensures HavingAll(systems, kind) == HowMany(AllRows(systems), (r: Row) => kind(r.outcome))
  {
    if systems != [] {
      HavingAllCounted(systems[..|systems| - 1], kind);
      HavingCounted(AllRows(systems[..|systems| - 1]), systems[|systems| - 1].rows, kind);
    }
  }

  lemma KindCounted(systems: seq<SystemLedger>, kind: Outcome -> bool, wanted: Row -> bool)
    requires forall r: Row :: wanted(r) == kind(r.outcome)
    ensures HavingAll(systems, kind) == HowMany(AllRows(systems), wanted)
  {
    HavingAllCounted(systems, kind);
    HowManySame(AllRows(systems), (r: Row) => kind(r.outcome), wanted);
  }

  lemma {:induction false} UnreachableCounted(systems: seq<SystemLedger>)
    ensures UnreachableCount(systems) == HowMany(systems, (s: SystemLedger) => s.unreachable.Some?)
  {
    if systems != [] {
      var init, last := systems[..|systems| - 1], systems[|systems| - 1];
      assert systems == init + [last];
      UnreachableCounted(init);
      HowManyNext(init, last, (s: SystemLedger) => s.unreachable.Some?);
    }
  }

  /** Each total is the number of rows with that outcome; a drop is a recording too large or one that failed. */
  lemma TotalsCount(systems: seq<SystemLedger>)
    ensures
      var t, rows := Counted(systems), AllRows(systems);
      && t.systems == |systems| && t.unreachable == HowMany(systems, (s: SystemLedger) => s.unreachable.Some?)
      && t.sealed == HowMany(rows, (r: Row) => r.outcome.Sealed?)
      && t.alreadyCurrent == HowMany(rows, (r: Row) => r.outcome.AlreadyCurrent?)
      && t.notReady == HowMany(rows, (r: Row) => r.outcome.NotReady?)
      && t.refused == HowMany(rows, (r: Row) => r.outcome.TooLarge?)
      && t.failed == HowMany(rows, (r: Row) => r.outcome.Failed?)
      && t.dropped == t.refused + t.failed
  {
    UnreachableCounted(systems);
    KindCounted(systems, IsSealed(), (r: Row) => r.outcome.Sealed?);
    KindCounted(systems, IsCurrent(), (r: Row) => r.outcome.AlreadyCurrent?);
    KindCounted(systems, IsNotReady(), (r: Row) => r.outcome.NotReady?);
    KindCounted(systems, IsRefusal(), (r: Row) => r.outcome.TooLarge?);
    KindCounted(systems, IsFailure(), (r: Row) => r.outcome.Failed?);
  }

  lemma {:induction false} NoneHaving(rows: seq<Row>, kind: Outcome -> bool)
    ensures Having(rows, kind) == 0 <==> forall r :: r in rows ==> !kind(r.outcome)
  {
    if rows != [] {
      NoneHaving(rows[..|rows| - 1], kind);
      assert rows == rows[..|rows| - 1] + [rows[|rows| - 1]];
    }
  }

  ghost predicate NoFailure(rows: seq<Row>) {
    forall r :: r in rows ==> !r.outcome.Failed?
  }

  lemma {:induction false} CountedNone(systems: seq<SystemLedger>)
    ensures HavingAll(systems, IsFailure()) == 0 <==> forall s :: s in systems ==> NoFailure(s.rows)
    ensures UnreachableCount(systems) == 0 <==> forall s :: s in systems ==> s.unreachable.None?
  {
    if systems != [] {
      var init, last := systems[..|systems| - 1], systems[|systems| - 1];
      CountedNone(init);
      NoneHaving(last.rows, IsFailure());
      assert systems == init + [last];
    }
  }

  /** A reconciled system has a row per plan entry exactly when its plan names each id once. */
  lemma ReconciledCounts(planned: seq<string>, rows: seq<Row>)
    requires Reconciled(planned, rows)
    ensures |rows| == |planned| <==> NoDup(planned)
  {
    var ids := IdsOf(rows);
    forall id ensures multiset(ids)[id] <= 1 {
      assert Times(rows, id) == if id in planned then 1 else 0;
    }
    NoDupIffSingle(ids);
    NoDupCount(ids);
    DistinctIs(planned);
    NoDupCount(Distinct(planned));
    assert ToSet(ids) == ToSet(Distinct(planned)) by {
      forall id ensures id in ids <==> id in planned {
        assert id in multiset(ids) <==> id in ids;
        assert Times(rows, id) == if id in planned then 1 else 0;
      }
    }
    DistinctShorter(planned);
  }

  lemma {:induction false} DistinctShorter<T(!new)>(xs: seq<T>)
    ensures |Distinct(xs)| <= |xs| && (|Distinct(xs)| == |xs| <==> NoDup(xs))
  {
    if xs != [] {
      var init, last := xs[..|xs| - 1], xs[|xs| - 1];
      DistinctShorter(init);
      DistinctIs(init);
      assert xs == init + [last];
      if NoDup(xs) {
        NoDupParts(init, [last]);
        assert last !in init;
      } else if last !in init && NoDup(init) {
        NoDupJoin(init, [last]);
      }
    }
  }

  ghost predicate AllReconciled(ledger: Ledger) {
    forall s :: s in ledger.systems ==> s.unreachable.None? && Disagreeing(s) == [] && NoDup(s.planned)
  }

  lemma {:induction false} RowsMatchPlan(systems: seq<SystemLedger>)
    requires forall s :: s in systems ==> s.unreachable.None? && Disagreeing(s) == [] && NoDup(s.planned)
    ensures RowCount(systems) == PlannedCount(systems)
  {
    if systems != [] {
      var init, last := systems[..|systems| - 1], systems[|systems| - 1];
      assert systems == init + [last];
      assert last in systems;
      NoneIffReconciled(last);
      ReconciledCounts(last.planned, last.rows);
      RowsMatchPlan(init);
    }
  }

  /** With every system reconciled, what was planned is what was sealed, current, not ready, refused or failed. */
  lemma PlannedIsAccountedFor(ledger: Ledger)
    requires AllReconciled(ledger)
    ensures var t := Counted(ledger.systems);
            t.planned == t.sealed + t.alreadyCurrent + t.notReady + t.refused + t.failed
  {
    RowsMatchPlan(ledger.systems);
    RowsAreCounted(ledger.systems);
  }

  method Clean(ledger: Ledger) returns (clean: bool)
    ensures clean <==>
              && ledger.rosterError.None?
              && (forall s :: s in ledger.systems ==> s.unreachable.None? && Reconciled(s.planned, s.rows) && NoFailure(s.rows))
  {
    var t := TotalsOf(ledger);
    CountedNone(ledger.systems);
    var agreed := true;
    for i := 0 to |ledger.systems|
      invariant agreed <==> forall s :: s in ledger.systems[..i] ==> Disagreeing(s) == []
    {
      PrefixGrows(ledger.systems, i);
      var found := Disagreements(ledger.systems[i]);
      agreed := agreed && found == [];
    }
    assert ledger.systems[..|ledger.systems|] == ledger.systems;
    clean := ledger.rosterError.None? && t.unreachable == 0 && t.failed == 0 && agreed;
    forall s | s in ledger.systems && s.unreachable.None? ensures Disagreeing(s) == [] <==> Reconciled(s.planned, s.rows) {
      NoneIffReconciled(s);
    }
  }

  // ----- the walk -----

  /** What sealing the recording planned at a position comes to. It may depend on everything; it cannot fail. */
  type SealOne = (string, nat) -> Outcome

  function RowsFor(system: string, planned: seq<string>, seal: SealOne): seq<Row> {
    seq(|planned|, i requires 0 <= i < |planned| => Row(system, planned[i], seal(planned[i], i)))
  }

  /** The pass's durable output. */
  class Observer {
    var rows: seq<Row>

    constructor ()
      ensures rows == []
    {
      rows := [];
    }

    method Observe(row: Row)
      modifies this
      ensures rows == old(rows) + [row]
    {
      rows := rows + [row];
    }

    /** The walk of a plan. It may be killed after any number of recordings: what was observed by then is the
        rows of exactly the recordings handled, a prefix of the plan. One that survives returns those rows. */
    method WalkPlan(system: string, planned: seq<string>, seal: SealOne, survives: nat) returns (ledger: Option<SystemLedger>)
      modifies this
      ensures survives < |planned| ==> ledger == None && rows == old(rows) + RowsFor(system, planned, seal)[..survives]
      ensures survives >= |planned| ==>
                && rows == old(rows) + RowsFor(system, planned, seal)
                && ledger == Some(SystemLedger(system, planned, RowsFor(system, planned, seal), None))
                && |rows| == |old(rows)| + |planned|
                && forall i :: 0 <= i < |planned| ==>
                     rows[|old(rows)| + i] == ledger.value.rows[i] == Row(system, planned[i], seal(planned[i], i))
    {
      var all: seq<Row> := [];
      ghost var before := rows;
      for i := 0 to |planned|
        invariant i <= survives && all == RowsFor(system, planned, seal)[..i] && rows == before + all
      {
        if i == survives {
          return None;
        }
        var row := Row(system, planned[i], seal(planned[i], i));
        Observe(row);
        all := all + [row];
      }
      assert RowsFor(system, planned, seal)[..|planned|] == RowsFor(system, planned, seal);
      return Some(SystemLedger(system, planned, all, None));
    }

    /** One system's pass over its listing: plan, then walk. Whatever ledger it returns reconciles. */
    method SealSystem(system: string, listing: Result<seq<string>, string>, read: ReadKey, manifests: Manifests,
                      seal: SealOne, survives: nat)
      returns (ledger: Option<SystemLedger>)
      modifies this
      ensures listing.Err? ==> rows == old(rows) && ledger == Some(SystemLedger(system, [], [], Some(listing.error)))
      ensures listing.Ok? ==>
                exists landed :: IsListing(read, listing.value, landed) &&
                  WalkedTo(system, PlanOf(landed, manifests), seal, survives, old(rows), rows, ledger)
      ensures ledger.Some? ==> Disagreeing(ledger.value) == []
    {
      if listing.Err? {
        return Some(SystemLedger(system, [], [], Some(listing.error)));
      }
      var planned := PlanIn(read, listing.value, manifests);
      ghost var landed :| IsListing(read, listing.value, landed) && planned == PlanOf(landed, manifests);
      ledger := WalkPlan(system, planned, seal, survives);
      WalkReconciles(system, planned, seal);
      assert WalkedTo(system, PlanOf(landed, manifests), seal, survives, old(rows), rows, ledger);
    }
  }

  /** A walk cut short observed a prefix of the plan's rows and returned nothing; a whole one returned them all. */
  ghost predicate WalkedTo(system: string, planned: seq<string>, seal: SealOne, survives: nat, before: seq<Row>,
                           observed: seq<Row>, ledger: Option<SystemLedger>) {
    var all := RowsFor(system, planned, seal);
    if survives < |planned| then ledger == None && observed == before + all[..survives]
    else observed == before + all && ledger == Some(SystemLedger(system, planned, all, None))
  }

  /** The walk reconciles exactly when the plan names each recording once, whatever each sealing comes to. */
  lemma WalkReconciles(system: string, planned: seq<string>, seal: SealOne)
    ensures Disagreeing(SystemLedger(system, planned, RowsFor(system, planned, seal), None)) == [] <==> NoDup(planned)
  {
    var rows := RowsFor(system, planned, seal);
    assert IdsOf(rows) == planned;
    NoneIffReconciled(SystemLedger(system, planned, rows, None));
    NoDupIffSingle(planned);
    forall id ensures id in multiset(planned) <==> id in planned {}
  }
}
