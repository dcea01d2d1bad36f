/** What the correlation index says, told in the fields of the events it was made from. */
module IndexContents {
  import opened Common
  import opened Sequences
  import opened Records
  import opened Correlations

  /** The value, if any, that an event offers to a list. */
  type Pick = Accepted -> Option<string>

  ghost function Values(events: seq<Accepted>, pick: Pick): set<string> {
    set e | e in events && pick(e).Some? :: pick(e).value
  }

  /** The list holds, as words sort, each value offered before sixteen others had been met. */
  ghost predicate ListsFirst(list: seq<string>, events: seq<Accepted>, pick: Pick) {
    && (forall i, j :: 0 <= i < j < |list| ==> LexBefore(list[i], list[j]))
    && (forall v :: v in list <==> exists i :: 0 <= i < |events| && pick(events[i]) == Some(v) && |Values(events[..i], pick)| < 16)
  }

  function Boundary(id: Option<string>): Pick {
    (e: Accepted) => if e.kind.BoundaryEvent? && e.correlation == id then Some(e.boundary) else None
  }

  function Role(id: Option<string>): Pick {
    (e: Accepted) => if e.kind.BoundaryEvent? && e.correlation == id then e.role else None
  }

  ghost predicate RowReads(row: CorrelationSummary, events: seq<Accepted>) {
    && row.events == HowMany(events, (e: Accepted) => e.kind.BoundaryEvent? && e.correlation == row.correlation)
    && (exists e :: e in events && e.kind.BoundaryEvent? && e.correlation == row.correlation && e.gseq == row.gseqMin)
    && (exists e :: e in events && e.kind.BoundaryEvent? && e.correlation == row.correlation && e.gseq == row.gseqMax)
    && (forall e :: e in events && e.kind.BoundaryEvent? && e.correlation == row.correlation ==> row.gseqMin <= e.gseq <= row.gseqMax)
    && ListsFirst(row.boundaries, events, Boundary(row.correlation)) && ListsFirst(row.roles, events, Role(row.correlation))
    && (row.truncated <==> |Values(events, Boundary(row.correlation))| > 16 || |Values(events, Role(row.correlation))| > 16)
  }

  predicate Concerns(events: seq<Accepted>, k: nat, id: Option<string>) {
    k < |events| && events[k].kind.BoundaryEvent? && events[k].correlation == id
  }

  /** A boundary event of `a` comes before all of `b`. */
  ghost predicate SeenBefore(events: seq<Accepted>, a: Option<string>, b: Option<string>) {
    exists k: nat :: Concerns(events, k, a) && forall l: nat :: Concerns(events, l, b) ==> k < l
  }

  ghost predicate Listed(rows: seq<CorrelationSummary>, id: Option<string>) {
    exists i :: 0 <= i < |rows| && rows[i].correlation == id
  }

  ghost predicate InOrderSeen(rows: seq<CorrelationSummary>, events: seq<Accepted>) {
    forall i, j :: 0 <= i < j < |rows| ==> SeenBefore(events, rows[i].correlation, rows[j].correlation)
  }

  /** A row for each correlation with a boundary event, in the order those first appear. */
  ghost predicate IndexReads(rows: seq<CorrelationSummary>, events: seq<Accepted>) {
    && (forall i {:trigger rows[i]} :: 0 <= i < |rows| ==> RowReads(rows[i], events))
    && (forall e :: e in events && e.kind.BoundaryEvent? ==> Listed(rows, e.correlation))
    && InOrderSeen(rows, events)
  }

  // ----- the values offered, in tape order -----

  ghost function Offered(events: seq<Accepted>, pick: Pick): seq<string> {
    if events == [] then []
    else
      var last := pick(events[|events| - 1]);
      Offered(events[..|events| - 1], pick) + if last.Some? then [last.value] else []
  }

  lemma OfferedNext(events: seq<Accepted>, e: Accepted, pick: Pick)
    ensures Offered(events + [e], pick) == Offered(events, pick) + if pick(e).Some? then [pick(e).value] else []
  {
    assert (events + [e])[..|events|] == events;
  }

  lemma ValuesNext(events: seq<Accepted>, e: Accepted, pick: Pick)
    ensures Values(events + [e], pick) == Values(events, pick) + if pick(e).Some? then {pick(e).value} else {}
  {
    forall v ensures v in Values(events + [e], pick) <==> v in Values(events, pick) || pick(e) == Some(v) {
      if a :| a in events && pick(a) == Some(v) {
        assert a in events + [e];
      }
      if pick(e) == Some(v) {
        assert e in events + [e];
      }
    }
  }

  lemma {:induction false} OfferedValues(events: seq<Accepted>, pick: Pick)
    ensures ToSet(Offered(events, pick)) == Values(events, pick)
  {
    if events != [] {
      var init, last := events[..|events| - 1], events[|events| - 1];
      assert events == init + [last];
      OfferedValues(init, pick);
      OfferedNext(init, last, pick);
      ValuesNext(init, last, pick);
      forall v ensures v in Offered(events, pick) <==> v in Values(events, pick) {
        assert v in Offered(init, pick) <==> v in ToSet(Offered(init, pick));
      }
    }
  }

  lemma {:induction false} DistinctSize(xs: seq<string>)
    ensures |Distinct(xs)| == |ToSet(xs)|
  {
    if xs != [] {
      var init, last := xs[..|xs| - 1], xs[|xs| - 1];
      assert xs == init + [last];
      DistinctSize(init);
      DistinctIs(init);
      assert ToSet(xs) == ToSet(init) + {last};
      assert last in Distinct(init) <==> last in ToSet(init);
    }
  }

  /** A value joins the first sixteen when it is met before they are full. */
  lemma FirstFewNext(xs: seq<string>, x: string, v: string)
    ensures v in FirstFew(xs + [x]) <==> v in FirstFew(xs) || (v == x && |Distinct(xs)| < 16)
  {
    var met := Distinct(xs);
    assert (xs + [x])[..|xs|] == xs;
    if x in met {
      assert Distinct(xs + [x]) == met;
      assert |met| < 16 ==> FirstFew(xs) == met;
    } else if |met| < 16 {
      assert FirstFew(xs) == met && FirstFew(xs + [x]) == met + [x];
    } else {
      assert FirstFew(xs + [x]) == (met + [x])[..16] == met[..16] == FirstFew(xs);
    }
  }

  lemma {:induction false} FirstFewAre(events: seq<Accepted>, pick: Pick, v: string)
    ensures v in FirstFew(Offered(events, pick)) <==>
              exists i :: 0 <= i < |events| && pick(events[i]) == Some(v) && |Values(events[..i], pick)| < 16
  {
    if events != [] {
      var init, last := events[..|events| - 1], events[|events| - 1];
      assert events == init + [last];
      FirstFewAre(init, pick, v);
      OfferedNext(init, last, pick);
      OfferedValues(init, pick);
      DistinctSize(Offered(init, pick));
      if pick(last).Some? {
        FirstFewNext(Offered(init, pick), pick(last).value, v);
      } else {
        assert Offered(events, pick) == Offered(init, pick);
      }
      MetEarly(init, last, pick, v);
    }
  }

  lemma MetEarly(events: seq<Accepted>, e: Accepted, pick: Pick, v: string)
    ensures (exists i :: 0 <= i < |events + [e]| && pick((events + [e])[i]) == Some(v) && |Values((events + [e])[..i], pick)| < 16) <==>
              || (exists i :: 0 <= i < |events| && pick(events[i]) == Some(v) && |Values(events[..i], pick)| < 16)
              || (pick(e) == Some(v) && |Values(events, pick)| < 16)
  {
    var more := events + [e];
    assert more[..|events|] == events && more[|events|] == e;
    if i :| 0 <= i < |events| && pick(events[i]) == Some(v) && |Values(events[..i], pick)| < 16 {
      assert more[i] == events[i] && more[..i] == events[..i];
    }
    if i :| 0 <= i < |more| && pick(more[i]) == Some(v) && |Values(more[..i], pick)| < 16 {
      if i < |events| {
        assert more[i] == events[i] && more[..i] == events[..i];
      }
    }
  }

  lemma KeptListsFirst(events: seq<Accepted>, pick: Pick, list: seq<string>)
    requires list == Kept(Offered(events, pick))
    ensures ListsFirst(list, events, pick)
    ensures Truncated(Offered(events, pick)) <==> |Values(events, pick)| > 16
  {
    var xs := Offered(events, pick);
    KeptIs(xs);
    OfferedValues(events, pick);
    DistinctSize(xs);
    forall i, j | 0 <= i < j < |list| ensures LexBefore(list[i], list[j]) {
      assert StringLe()(list[i], list[j]) && list[i] != list[j];
      StringOrder(list[i], list[j]);
      StringLessIs(list[i], list[j]);
    }
    forall v ensures v in list <==> exists i :: 0 <= i < |events| && pick(events[i]) == Some(v) && |Values(events[..i], pick)| < 16 {
      assert v in ToSet(list) <==> v in ToSet(FirstFew(xs));
      FirstFewAre(events, pick, v);
    }
  }

  // ----- rows -----

  lemma {:induction false} OfferedAre(events: seq<Accepted>, id: Option<string>)
    ensures Offered(events, Boundary(id)) == BoundariesOf(Of(events, id)) && Offered(events, Role(id)) == RolesOf(Of(events, id))
  {
    if events != [] {
      var init, last := events[..|events| - 1], events[|events| - 1];
      OfferedAre(init, id);
      if last.kind.BoundaryEvent? && last.correlation == id {
        assert Of(events, id) == Of(init, id) + [last];
        assert Of(events, id)[..|Of(init, id)|] == Of(init, id);
      } else {
        assert Of(events, id) == Of(init, id);
      }
    }
  }

  lemma {:induction false} OfHas(events: seq<Accepted>, id: Option<string>, e: Accepted)
    ensures e in Of(events, id) <==> e in events && e.kind.BoundaryEvent? && e.correlation == id
  {
    if events != [] {
      assert events == events[..|events| - 1] + [events[|events| - 1]];
      OfHas(events[..|events| - 1], id, e);
    }
  }

  lemma {:induction false} OfCounted(events: seq<Accepted>, id: Option<string>)
    ensures |Of(events, id)| == HowMany(events, (e: Accepted) => e.kind.BoundaryEvent? && e.correlation == id)
  {
    if events != [] {
      var init, last := events[..|events| - 1], events[|events| - 1];
      assert events == init + [last];
      OfCounted(init, id);
      HowManyNext(init, last, (e: Accepted) => e.kind.BoundaryEvent? && e.correlation == id);
    }
  }

  lemma RowSummaryReads(row: CorrelationSummary, events: seq<Accepted>)
    requires Summarizes(row, Of(events, row.correlation))
    ensures RowReads(row, events)
  {
    var id := row.correlation;
    forall e ensures e in Of(events, id) <==> e in events && e.kind.BoundaryEvent? && e.correlation == id {
      OfHas(events, id, e);
    }
    OfCounted(events, id);
    HowManySame(events, (e: Accepted) => e.kind.BoundaryEvent? && e.correlation == id,
                (e: Accepted) => e.kind.BoundaryEvent? && e.correlation == row.correlation);
    OfferedAre(events, id);
    KeptListsFirst(events, Boundary(id), row.boundaries);
    KeptListsFirst(events, Role(id), row.roles);
  }

  lemma {:induction false} IdsHave(events: seq<Accepted>, id: Option<string>)
    ensures id in Ids(events) <==> exists k: nat :: Concerns(events, k, id)
  {
    if events != [] {
      var init, last := events[..|events| - 1], events[|events| - 1];
      assert events == init + [last];
      IdsHave(init, id);
      if k: nat :| Concerns(init, k, id) {
        assert Concerns(events, k, id);
      }
      if k: nat :| Concerns(events, k, id) {
        assert k < |init| ==> Concerns(init, k, id);
      }
      if last.kind.BoundaryEvent? && last.correlation == id {
        assert Concerns(events, |init|, id);
      }
    }
  }

  lemma SeenStill(init: seq<Accepted>, last: Accepted, a: Option<string>, b: Option<string>)
    requires SeenBefore(init, a, b)
    ensures SeenBefore(init + [last], a, b)
  {
    var k: nat :| Concerns(init, k, a) && forall l: nat :: Concerns(init, l, b) ==> k < l;
    assert Concerns(init + [last], k, a);
    forall l: nat | Concerns(init + [last], l, b) ensures k < l {
      assert l < |init| ==> Concerns(init, l, b);
    }
  }

  lemma SeenBeforeLast(init: seq<Accepted>, last: Accepted, a: Option<string>)
    requires a in Ids(init) && last.kind.BoundaryEvent? && last.correlation !in Ids(init)
    ensures SeenBefore(init + [last], a, last.correlation)
  {
    IdsHave(init, a);
    IdsHave(init, last.correlation);
    var k: nat :| Concerns(init, k, a);
    assert Concerns(init + [last], k, a);
    forall l: nat | Concerns(init + [last], l, last.correlation) ensures k < l {
      assert l < |init| ==> Concerns(init, l, last.correlation);
    }
  }

  /** Distinct correlations are listed in the order their first events come. */
  lemma {:induction false} FirstSeen(events: seq<Accepted>, i: nat, j: nat)
    requires i < j < |Distinct(Ids(events))|
    ensures SeenBefore(events, Distinct(Ids(events))[i], Distinct(Ids(events))[j])
  {
    var init, last := events[..|events| - 1], events[|events| - 1];
    var before := Distinct(Ids(init));
    assert events == init + [last];
    DistinctIs(Ids(init));
    if last.kind.BoundaryEvent? {
      assert Ids(events) == Ids(init) + [last.correlation] && Ids(events)[..|Ids(init)|] == Ids(init);
    } else {
      assert Ids(events) == Ids(init);
    }
    if j < |before| {
      FirstSeen(init, i, j);
      SeenStill(init, last, before[i], before[j]);
    } else {
      assert before[i] in before;
      SeenBeforeLast(init, last, before[i]);
    }
  }

  lemma RowOfEvent(rows: seq<CorrelationSummary>, events: seq<Accepted>, e: Accepted)
    requires IndexRows(rows, events) && e in events && e.kind.BoundaryEvent?
    ensures Listed(rows, e.correlation)
  {
    var ids := Distinct(Ids(events));
    DistinctIs(Ids(events));
    IdsHave(events, e.correlation);
    var m: nat :| m < |events| && events[m] == e;
    assert Concerns(events, m, e.correlation);
    var i :| 0 <= i < |ids| && ids[i] == e.correlation;
    assert rows[i].correlation == e.correlation;
  }

  lemma RowsRead(rows: seq<CorrelationSummary>, events: seq<Accepted>)
    requires IndexRows(rows, events)
    ensures IndexReads(rows, events)
  {
    forall i | 0 <= i < |rows| ensures RowReads(rows[i], events) {
      RowSummaryReads(rows[i], events);
    }
    forall e | e in events && e.kind.BoundaryEvent? ensures Listed(rows, e.correlation) {
      RowOfEvent(rows, events, e);
    }
    forall i, j | 0 <= i < j < |rows| ensures SeenBefore(events, rows[i].correlation, rows[j].correlation) {
      FirstSeen(events, i, j);
    }
  }
}
