/** What a collated tape holds, told in the fields of the lines it was collated from. */
module TapeContents {
  import opened Common
  import opened Sequences
  import opened Records
  import opened Arrivals
  import opened Coverage

  // ----- the events -----

  function InstanceOf(probe: Probe): string
    requires probe.Record?
  {
    if probe.instance.Some? then probe.instance.value else "unknown"
  }

  /** The line is a record of this instance, kind and sequence. */
  predicate SameSlot(probe: Probe, e: Accepted) {
    probe.Record? && InstanceOf(probe) == e.instance && probe.kind == e.kind && probe.gseq == e.gseq
  }

  predicate ReadsAs(parse: Parse, line: string, e: Accepted) {
    var probe := parse(line);
    && SameSlot(probe, e) && e.rawLine == line
    && probe.correlation == e.correlation && probe.boundary == e.boundary && probe.role == e.role
  }

  /** `e` is what the line at `i` says, and no earlier line says anything of its instance, kind and sequence. */
  ghost predicate SaidFirst(parse: Parse, lines: seq<string>, i: nat, e: Accepted) {
    && i < |lines| && ReadsAs(parse, lines[i], e)
    && forall j: nat :: j < i ==> !SameSlot(parse(lines[j]), e)
  }

  /** The events are the first record said for each instance, kind and sequence, in the order sealed. */
  ghost predicate EventsAreFirsts(parse: Parse, lines: seq<string>, events: seq<Accepted>) {
    && (forall e :: e in events <==> exists i: nat :: SaidFirst(parse, lines, i, e))
    && (forall i: nat :: i < |lines| && parse(lines[i]).Record? ==> exists e :: e in events && SameSlot(parse(lines[i]), e))
    && (forall i, j :: 0 <= i < j < |events| ==> SealedBefore(events[i], events[j]))
  }

  ghost predicate Met(parse: Parse, lines: seq<string>, e: Accepted) {
    exists j: nat :: j < |lines| && SameSlot(parse(lines[j]), e)
  }

  lemma MetNext(parse: Parse, lines: seq<string>, line: string, e: Accepted)
    ensures Met(parse, lines + [line], e) <==> Met(parse, lines, e) || SameSlot(parse(line), e)
  {
    var more := lines + [line];
    if j: nat :| j < |lines| && SameSlot(parse(lines[j]), e) {
      assert more[j] == lines[j];
    }
    if SameSlot(parse(line), e) {
      assert more[|lines|] == line;
    }
    if j: nat :| j < |more| && SameSlot(parse(more[j]), e) {
      assert j < |lines| ==> more[j] == lines[j];
    }
  }

  lemma KeysNext(parse: Parse, lines: seq<string>, line: string, e: Accepted)
    ensures KeyOf(e) in Keys(RecordsOf(parse, lines + [line])) <==>
              KeyOf(e) in Keys(RecordsOf(parse, lines)) || SameSlot(parse(line), e)
  {
    FlatMapNext(lines, line, RecordIn(parse));
    if parse(line).Record? {
      var a := AcceptedFrom(line, parse(line));
      assert RecordsOf(parse, lines + [line]) == RecordsOf(parse, lines) + [a];
      FreshNext({}, RecordsOf(parse, lines), a);
      SealOrderIs(a, e);
    } else {
      assert RecordsOf(parse, lines + [line]) == RecordsOf(parse, lines);
    }
  }

  lemma {:induction false} SlotsMet(parse: Parse, lines: seq<string>, e: Accepted)
    ensures KeyOf(e) in Keys(RecordsOf(parse, lines)) <==> Met(parse, lines, e)
  {
    if lines == [] {
      assert RecordsOf(parse, lines) == [];
    } else {
      var init, last := lines[..|lines| - 1], lines[|lines| - 1];
      assert lines == init + [last];
      SlotsMet(parse, init, e);
      KeysNext(parse, init, last, e);
      MetNext(parse, init, last, e);
    }
  }

  lemma SaidFirstNext(parse: Parse, lines: seq<string>, line: string, e: Accepted)
    ensures (exists i: nat :: SaidFirst(parse, lines + [line], i, e)) <==>
              || (exists i: nat :: SaidFirst(parse, lines, i, e))
              || (ReadsAs(parse, line, e) && !Met(parse, lines, e))
  {
    var more := lines + [line];
    if i: nat :| SaidFirst(parse, lines, i, e) {
      assert more[i] == lines[i] && forall j: nat :: j < i ==> more[j] == lines[j];
      assert SaidFirst(parse, more, i, e);
    }
    if i: nat :| SaidFirst(parse, more, i, e) {
      assert forall j: nat :: j < |lines| ==> more[j] == lines[j];
      if i < |lines| {
        assert SaidFirst(parse, lines, i, e);
      }
    }
    if ReadsAs(parse, line, e) && !Met(parse, lines, e) {
      assert forall j: nat :: j < |lines| ==> more[j] == lines[j];
      assert SaidFirst(parse, more, |lines|, e);
    }
  }

  lemma ReadIs(parse: Parse, line: string, e: Accepted)
    ensures ReadsAs(parse, line, e) <==> parse(line).Record? && e == AcceptedFrom(line, parse(line))
  {
  }

  lemma KeptNext(parse: Parse, lines: seq<string>, line: string, e: Accepted)
    ensures e in Fresh({}, RecordsOf(parse, lines + [line])) <==>
              e in Fresh({}, RecordsOf(parse, lines)) || (ReadsAs(parse, line, e) && !Met(parse, lines, e))
  {
    FlatMapNext(lines, line, RecordIn(parse));
    ReadIs(parse, line, e);
    if parse(line).Record? {
      var a := AcceptedFrom(line, parse(line));
      SlotsMet(parse, lines, a);
      FreshNext({}, RecordsOf(parse, lines), a);
      assert RecordsOf(parse, lines + [line]) == RecordsOf(parse, lines) + [a];
    } else {
      assert RecordsOf(parse, lines + [line]) == RecordsOf(parse, lines);
    }
  }

  /** The records kept are those said first. */
  lemma {:induction false} FreshSaidFirst(parse: Parse, lines: seq<string>, e: Accepted)
    ensures e in Fresh({}, RecordsOf(parse, lines)) <==> exists i: nat :: SaidFirst(parse, lines, i, e)
  {
    if lines == [] {
      assert RecordsOf(parse, lines) == [];
    } else {
      var init, last := lines[..|lines| - 1], lines[|lines| - 1];
      assert lines == init + [last];
      FreshSaidFirst(parse, init, e);
      SaidFirstNext(parse, init, last, e);
      KeptNext(parse, init, last, e);
    }
  }

  lemma SealedAreFirsts(parse: Parse, lines: seq<string>)
    ensures EventsAreFirsts(parse, lines, Sealed(RecordsOf(parse, lines)))
  {
    var recs := RecordsOf(parse, lines);
    var events := Sealed(recs);
    SealedIs(recs);
    FreshIs({}, recs);
    forall e ensures e in events <==> exists i: nat :: SaidFirst(parse, lines, i, e) {
      FreshSaidFirst(parse, lines, e);
    }
    forall i: nat | i < |lines| && parse(lines[i]).Record? ensures exists e :: e in events && SameSlot(parse(lines[i]), e) {
      SlotHeld(parse, lines, i);
    }
    forall i, j | 0 <= i < j < |events| ensures SealedBefore(events[i], events[j]) {
      SealOrderIs(events[i], events[j]);
    }
  }

  lemma SlotHeld(parse: Parse, lines: seq<string>, i: nat)
    requires i < |lines| && parse(lines[i]).Record?
    ensures exists e :: e in Sealed(RecordsOf(parse, lines)) && SameSlot(parse(lines[i]), e)
  {
    var recs, a := RecordsOf(parse, lines), AcceptedFrom(lines[i], parse(lines[i]));
    SlotsMet(parse, lines, a);
    FreshIs({}, recs);
    SealedIs(recs);
    assert KeyOf(a) in Keys(Fresh({}, recs));
    var e :| e in Fresh({}, recs) && KeyOf(e) == KeyOf(a);
    SealOrderIs(e, a);
  }

  // ----- the counts -----

  lemma {:induction false} LinesCounted(parse: Parse, lines: seq<string>)
    ensures LinesIn(parse, lines) == HowMany(lines, (line: string) => !parse(line).Blank?)
  {
    if lines != [] {
      var init, last := lines[..|lines| - 1], lines[|lines| - 1];
      assert lines == init + [last];
      LinesCounted(parse, init);
      FlatMapNext(init, last, LineIn(parse));
      HowManyNext(init, last, (line: string) => !parse(line).Blank?);
    }
  }

  lemma {:induction false} RecordsCounted(parse: Parse, lines: seq<string>)
    ensures |RecordsOf(parse, lines)| == HowMany(lines, (line: string) => parse(line).Record?)
  {
    if lines != [] {
      var init, last := lines[..|lines| - 1], lines[|lines| - 1];
      assert lines == init + [last];
      RecordsCounted(parse, init);
      FlatMapNext(init, last, RecordIn(parse));
      HowManyNext(init, last, (line: string) => parse(line).Record?);
    }
  }

  function OfRow(parse: Parse, instance: string): string -> bool {
    (line: string) => parse(line).Record? && InstanceOf(parse(line)) == instance
  }

  lemma {:induction false} InstanceCounted(parse: Parse, lines: seq<string>, instance: string)
    ensures HowMany(RecordsOf(parse, lines), (a: Accepted) => a.instance == instance) == HowMany(lines, OfRow(parse, instance))
  {
    if lines != [] {
      var init, last := lines[..|lines| - 1], lines[|lines| - 1];
      assert lines == init + [last];
      InstanceCounted(parse, init, instance);
      FlatMapNext(init, last, RecordIn(parse));
      HowManyNext(init, last, OfRow(parse, instance));
      if parse(last).Record? {
        HowManyNext(RecordsOf(parse, init), AcceptedFrom(last, parse(last)), (a: Accepted) => a.instance == instance);
      } else {
        assert RecordsOf(parse, lines) == RecordsOf(parse, init);
      }
    }
  }

  // ----- what was shed, and what an instance lost -----

  /** Some dropped marker of the instance lists the range. */
  ghost predicate Shed(parse: Parse, lines: seq<string>, instance: string, r: Range) {
    exists i: nat :: i < |lines| && ListsRange(parse(lines[i]), instance, r)
  }

  predicate ListsRange(probe: Probe, instance: string, r: Range) {
    probe.Marker? && probe.dropped && probe.instance == Some(instance) && probe.ranges.Some? && r in probe.ranges.value
  }

  lemma {:induction false} ShedListed(parse: Parse, lines: seq<string>, instance: string, r: Range)
    ensures r in ShedOf(parse, lines, instance) <==> Shed(parse, lines, instance, r)
  {
    if lines != [] {
      var init, last := lines[..|lines| - 1], lines[|lines| - 1];
      assert lines == init + [last];
      ShedListed(parse, init, instance, r);
      FlatMapNext(init, last, ShedIn(parse, instance));
      if i: nat :| i < |init| && ListsRange(parse(init[i]), instance, r) {
        assert lines[i] == init[i];
      }
      if i: nat :| i < |lines| && ListsRange(parse(lines[i]), instance, r) {
        assert i < |init| ==> init[i] == lines[i];
      }
      if ListsRange(parse(last), instance, r) {
        assert lines[|init|] == last;
      }
    }
  }

  ghost predicate WithinAGap(gaps: seq<Range>, r: Range) {
    exists g :: g in gaps && g.from <= r.from && r.to <= g.to
  }

  /** The row accounts for exactly the ranges shed inside its gaps, and its kept and dropped records are all it said. */
  ghost predicate LossesTold(parse: Parse, lines: seq<string>, events: seq<Accepted>, row: InstanceCoverage) {
    && (forall r :: r in row.gapsAccounted <==> Shed(parse, lines, row.instance, r) && WithinAGap(row.gaps, r))
    && (forall i, j {:trigger row.gapsAccounted[i], row.gapsAccounted[j]} :: 0 <= i < j < |row.gapsAccounted| ==>
          var a, b := row.gapsAccounted[i], row.gapsAccounted[j]; a.from < b.from || (a.from == b.from && a.to < b.to))
    && row.duplicatesDropped + HowMany(events, (a: Accepted) => a.instance == row.instance) ==
       HowMany(lines, (line: string) => parse(line).Record? && InstanceOf(parse(line)) == row.instance)
  }

  lemma LossesTell(parse: Parse, lines: seq<string>, events: seq<Accepted>, row: InstanceCoverage, dropped: nat)
    requires row.gapsAccounted == Accounted(row.gaps, ShedOf(parse, lines, row.instance)) && row.duplicatesDropped == dropped
    requires dropped + HowMany(events, (a: Accepted) => a.instance == row.instance) ==
             HowMany(RecordsOf(parse, lines), (a: Accepted) => a.instance == row.instance)
    ensures LossesTold(parse, lines, events, row)
  {
    var shed := ShedOf(parse, lines, row.instance);
    AccountedIs(row.gaps, shed);
    InstanceCounted(parse, lines, row.instance);
    HowManySame(lines, OfRow(parse, row.instance), (line: string) => parse(line).Record? && InstanceOf(parse(line)) == row.instance);
    forall r ensures r in row.gapsAccounted <==> Shed(parse, lines, row.instance, r) && WithinAGap(row.gaps, r) {
      ShedListed(parse, lines, row.instance, r);
      assert r in Accounted(row.gaps, shed) <==> r in shed && InsideAGap(row.gaps)(r);
    }
    forall i, j | 0 <= i < j < |row.gapsAccounted|
      ensures var a, b := row.gapsAccounted[i], row.gapsAccounted[j]; a.from < b.from || (a.from == b.from && a.to < b.to)
    {
      assert RangeLe()(row.gapsAccounted[i], row.gapsAccounted[j]) && row.gapsAccounted[i] != row.gapsAccounted[j];
    }
  }
}
