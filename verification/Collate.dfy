/** `collate_runs`: dedup, merge, repair, and the facts the manifest records. */
module Collate {
  import opened Sequences
  import opened Records
  import opened MergeSpec
  import opened MergeOrder
  import opened MergeRuns
  import opened Coverage
  import opened TapeContents
  import opened IndexContents
  import opened Correlations
  import opened Arrivals

  const MERGE_WINDOW: nat := 2

  datatype Collated = Collated(
    events: seq<Accepted>,
    graphNodes: nat,
    linesIn: nat,
    duplicatesDropped: nat,
    instances: seq<InstanceCoverage>,
    correlations: seq<CorrelationSummary>,
    merge: MergeReport)

  datatype Tallies = Tallies(
    dupes: map<string, nat>,
    shed: map<string, seq<Range>>,
    linesIn: nat,
    duplicates: nat,
    graphNodes: nat)

  // ----- counting a selection of records -----

  function IsGraph(): Accepted -> bool {
    (a: Accepted) => a.kind.GraphNode?
  }

  function OfInstance(instance: string): Accepted -> bool {
    (a: Accepted) => a.instance == instance
  }

  function CountOf(recs: seq<Accepted>, select: Accepted -> bool): nat {
    |Filter(recs, select)|
  }

  lemma CountNext(recs: seq<Accepted>, a: Accepted, select: Accepted -> bool)
    ensures CountOf(recs + [a], select) == CountOf(recs, select) + if select(a) then 1 else 0
  {
    assert (recs + [a])[..|recs|] == recs;
  }

  lemma {:induction false} CountJoin(a: seq<Accepted>, b: seq<Accepted>, select: Accepted -> bool)
    ensures CountOf(a + b, select) == CountOf(a, select) + CountOf(b, select)
    decreases |b|
  {
    if b == [] {
      assert a + b == a;
    } else {
      assert (a + b)[..|a + b| - 1] == a + b[..|b| - 1];
      CountJoin(a, b[..|b| - 1], select);
    }
  }

  lemma {:induction false} CountPermuted(a: seq<Accepted>, b: seq<Accepted>, select: Accepted -> bool)
    requires multiset(a) == multiset(b)
    ensures CountOf(a, select) == CountOf(b, select)
    decreases |a|
  {
    if a == [] {
      assert |multiset(b)| == |b|;
    } else {
      var init, last := a[..|a| - 1], a[|a| - 1];
      var front, back := WithoutOne(a, b);
      CountPermuted(init, front + back, select);
      CountJoin(front, back, select);
      CountNext(front, last, select);
      CountJoin(front + [last], back, select);
    }
  }

  // ----- the line loop -----

  function DupesOf(dupes: map<string, nat>, instance: string): nat {
    if instance in dupes then dupes[instance] else 0
  }

  function ShedFor(shed: map<string, seq<Range>>, instance: string): seq<Range> {
    if instance in shed then shed[instance] else []
  }

  ghost predicate DupesAgree(dupes: map<string, nat>, kept: seq<Accepted>, recs: seq<Accepted>, instance: string) {
    DupesOf(dupes, instance) + CountOf(kept, OfInstance(instance)) == CountOf(recs, OfInstance(instance))
  }

  /** Dropped and kept records add up, in all and per instance. */
  ghost predicate Counted(recs: seq<Accepted>, t: Tallies) {
    var kept := Fresh({}, recs);
    && t.duplicates + |kept| == |recs|
    && t.graphNodes == CountOf(kept, IsGraph())
    && forall instance {:trigger DupesAgree(t.dupes, kept, recs, instance)} :: DupesAgree(t.dupes, kept, recs, instance)
  }

  ghost predicate ShedAgrees(parse: Parse, lines: seq<string>, shed: map<string, seq<Range>>) {
    forall instance {:trigger ShedFor(shed, instance)} :: ShedFor(shed, instance) == ShedOf(parse, lines, instance)
  }

  ghost predicate Tallied(parse: Parse, lines: seq<string>, seen: set<Key>, t: Tallies) {
    && seen == Keys(RecordsOf(parse, lines))
    && t.linesIn == LinesIn(parse, lines)
    && Counted(RecordsOf(parse, lines), t)
    && ShedAgrees(parse, lines, t.shed)
  }

  lemma DuplicateAgrees(dupes: map<string, nat>, kept: seq<Accepted>, recs: seq<Accepted>, a: Accepted, instance: string)
    requires DupesAgree(dupes, kept, recs, instance)
    ensures DupesAgree(dupes[a.instance := DupesOf(dupes, a.instance) + 1], kept, recs + [a], instance)
  {
    CountNext(recs, a, OfInstance(instance));
  }

  lemma FreshAgrees(dupes: map<string, nat>, kept: seq<Accepted>, recs: seq<Accepted>, a: Accepted, instance: string)
    requires DupesAgree(dupes, kept, recs, instance)
    ensures DupesAgree(dupes, kept + [a], recs + [a], instance)
  {
    CountNext(recs, a, OfInstance(instance));
    CountNext(kept, a, OfInstance(instance));
  }

  function AfterDuplicate(t: Tallies, a: Accepted): Tallies {
    t.(duplicates := t.duplicates + 1, dupes := t.dupes[a.instance := DupesOf(t.dupes, a.instance) + 1])
  }

  lemma CountDuplicate(recs: seq<Accepted>, a: Accepted, t: Tallies)
    requires Counted(recs, t) && KeyOf(a) in Keys(recs)
    ensures Counted(recs + [a], AfterDuplicate(t, a))
  {
    var kept, after := Fresh({}, recs), AfterDuplicate(t, a);
    assert Fresh({}, recs + [a]) == kept by {
      FreshNext({}, recs, a);
      assert kept + [] == kept;
    }
    forall instance ensures DupesAgree(after.dupes, kept, recs + [a], instance) {
      assert DupesAgree(t.dupes, kept, recs, instance);
      DuplicateAgrees(t.dupes, kept, recs, a, instance);
    }
  }

  lemma CountFresh(recs: seq<Accepted>, a: Accepted, t: Tallies)
    requires Counted(recs, t) && KeyOf(a) !in Keys(recs)
    ensures Counted(recs + [a], t.(graphNodes := t.graphNodes + if a.kind.GraphNode? then 1 else 0))
  {
    var kept := Fresh({}, recs);
    assert Fresh({}, recs + [a]) == kept + [a] by {
      FreshNext({}, recs, a);
    }
    CountNext(kept, a, IsGraph());
    forall instance ensures DupesAgree(t.dupes, kept + [a], recs + [a], instance) {
      assert DupesAgree(t.dupes, kept, recs, instance);
      FreshAgrees(t.dupes, kept, recs, a, instance);
    }
  }

  /** A dropped-marker's ranges join what its instance shed; every other line sheds nothing. */
  method NoteShed(parse: Parse, line: string, shed: map<string, seq<Range>>, ghost lines: seq<string>) returns (shed': map<string, seq<Range>>)
    requires ShedAgrees(parse, lines, shed)
    ensures ShedAgrees(parse, lines + [line], shed')
  {
    shed' := shed;
    var probe := parse(line);
    if probe.Marker? && probe.dropped && probe.instance.Some? && probe.ranges.Some? {
      var inst := probe.instance.value;
      shed' := shed[inst := ShedFor(shed, inst) + probe.ranges.value];
    }
    forall instance ensures ShedFor(shed', instance) == ShedOf(parse, lines + [line], instance) {
      FlatMapNext(lines, line, ShedIn(parse, instance));
      assert ShedFor(shed, instance) == ShedOf(parse, lines, instance);
    }
  }

  method NoteRecord(a: Accepted, seen: set<Key>, t: Tallies, ghost recs: seq<Accepted>)
    returns (seen': set<Key>, t': Tallies, isNew: bool)
    requires Counted(recs, t) && seen == Keys(recs)
    ensures Counted(recs + [a], t') && seen' == Keys(recs + [a]) && t'.linesIn == t.linesIn && t'.shed == t.shed
    ensures isNew <==> KeyOf(a) !in seen
  {
    FreshNext({}, recs, a);
    isNew := KeyOf(a) !in seen;
    seen' := seen + {KeyOf(a)};
    if isNew {
      CountFresh(recs, a, t);
      t' := t.(graphNodes := t.graphNodes + if a.kind.GraphNode? then 1 else 0);
    } else {
      CountDuplicate(recs, a, t);
      t' := AfterDuplicate(t, a);
    }
  }

  /** One line's record, if it is one: kept when its key is new. */
  method TakeRecord(parse: Parse, line: string, seen: set<Key>, t: Tallies, ghost lines: seq<string>)
    returns (seen': set<Key>, t': Tallies, kept: seq<Accepted>)
    requires Counted(RecordsOf(parse, lines), t) && seen == Keys(RecordsOf(parse, lines))
    ensures Counted(RecordsOf(parse, lines + [line]), t') && seen' == Keys(RecordsOf(parse, lines + [line]))
    ensures t'.linesIn == t.linesIn && t'.shed == t.shed
    ensures kept == Fresh(seen, RecordIn(parse)(line))
  {
    var probe := parse(line);
    seen', t', kept := seen, t, [];
    FlatMapNext(lines, line, RecordIn(parse));
    if probe.Record? {
      var a, isNew := AcceptedFrom(line, probe), false;
      seen', t', isNew := NoteRecord(a, seen, t, RecordsOf(parse, lines));
      FreshNext(seen, [], a);
      assert [] + [a] == [a];
      if isNew {
        kept := [a];
      }
    } else {
      assert RecordsOf(parse, lines) + [] == RecordsOf(parse, lines);
    }
  }

  /** One line: counted unless blank, and kept when it is a record with a new key. */
  method TakeLine(parse: Parse, line: string, seen: set<Key>, t: Tallies, ghost lines: seq<string>)
    returns (seen': set<Key>, t': Tallies, kept: seq<Accepted>)
    requires Tallied(parse, lines, seen, t)
    ensures Tallied(parse, lines + [line], seen', t')
    ensures kept == Fresh(seen, RecordIn(parse)(line))
  {
    var shed := NoteShed(parse, line, t.shed, lines);
    FlatMapNext(lines, line, LineIn(parse));
    var counted := t.(linesIn := t.linesIn + if parse(line).Blank? then 0 else 1, shed := shed);
    CountedSame(RecordsOf(parse, lines), t, counted);
    seen', t', kept := TakeRecord(parse, line, seen, counted, lines);
  }

  lemma CountedSame(recs: seq<Accepted>, t: Tallies, t': Tallies)
    requires Counted(recs, t) && t' == t.(linesIn := t'.linesIn, shed := t'.shed)
    ensures Counted(recs, t')
  {
    forall instance ensures DupesAgree(t'.dupes, Fresh({}, recs), recs, instance) {
      assert DupesAgree(t.dupes, Fresh({}, recs), recs, instance);
    }
  }

  /** One object's lines make one run. */
  method TakeObject(parse: Parse, landed: seq<string>, seen: set<Key>, t: Tallies, ghost lines: seq<string>)
    returns (seen': set<Key>, t': Tallies, run: seq<Accepted>)
    requires Tallied(parse, lines, seen, t)
    ensures Tallied(parse, lines + landed, seen', t')
    ensures run == Fresh(seen, RecordsOf(parse, landed))
  {
    seen', t', run := seen, t, [];
    assert lines + landed[..0] == lines;
    for i := 0 to |landed|
      invariant Tallied(parse, lines + landed[..i], seen', t')
      invariant run == Fresh(seen, RecordsOf(parse, landed[..i]))
    {
      PrefixGrows(landed, i);
      RunNext(parse, lines, landed[..i], landed[i]);
      assert lines + landed[..i + 1] == lines + landed[..i] + [landed[i]];
      var kept;
      seen', t', kept := TakeLine(parse, landed[i], seen', t', lines + landed[..i]);
      run := run + kept;
    }
    assert landed[..|landed|] == landed;
  }

  lemma RunNext(parse: Parse, lines: seq<string>, before: seq<string>, line: string)
    ensures
      var seen := Keys(RecordsOf(parse, lines));
      Fresh(seen, RecordsOf(parse, before + [line])) ==
      Fresh(seen, RecordsOf(parse, before)) + Fresh(Keys(RecordsOf(parse, lines + before)), RecordIn(parse)(line))
  {
    var seen := Keys(RecordsOf(parse, lines));
    FlatMapNext(before, line, RecordIn(parse));
    FlatMapJoin(lines, before, RecordIn(parse));
    FreshJoin({}, RecordsOf(parse, lines), RecordsOf(parse, before));
    FreshJoin(seen, RecordsOf(parse, before), RecordIn(parse)(line));
  }

  method TakeObjects(parse: Parse, objects: seq<seq<string>>) returns (seen: set<Key>, t: Tallies, runs: Runs)
    ensures Tallied(parse, Concat(objects), seen, t) && runs == FirstRuns(parse, objects)
  {
    seen, t, runs := {}, Tallies(map[], map[], 0, 0, 0), [];
    NothingTallied(parse, t);
    for i := 0 to |objects|
      invariant Tallied(parse, Concat(objects[..i]), seen, t)
      invariant runs == FirstRuns(parse, objects[..i])
    {
      assert objects[..i + 1][..i] == objects[..i];
      var run;
      seen, t, run := TakeObject(parse, objects[i], seen, t, Concat(objects[..i]));
      runs := runs + [run];
    }
    assert objects[..|objects|] == objects;
  }

  lemma NothingTallied(parse: Parse, t: Tallies)
    requires t == Tallies(map[], map[], 0, 0, 0)
    ensures Tallied(parse, [], {}, t)
  {
    forall instance ensures DupesAgree(t.dupes, Fresh({}, []), [], instance) {}
  }

  // ----- the whole -----

  /** A coverage row with its own instance's losses, stated over the lines. */
  ghost predicate RowLosses(row: InstanceCoverage, bare: InstanceCoverage, parse: Parse, lines: seq<string>, events: seq<Accepted>) {
    && row == bare.(gapsAccounted := row.gapsAccounted, duplicatesDropped := row.duplicatesDropped)
    && row.gapsAccounted == Accounted(row.gaps, ShedOf(parse, lines, row.instance))
    && row.duplicatesDropped + CountOf(events, OfInstance(row.instance)) == CountOf(RecordsOf(parse, lines), OfInstance(row.instance))
  }

  ghost predicate Instances(rows: seq<InstanceCoverage>, parse: Parse, lines: seq<string>, events: seq<Accepted>) {
    && |rows| == |Cover(events)|
    && forall i {:trigger rows[i]} :: 0 <= i < |rows| ==> RowLosses(rows[i], Cover(events)[i], parse, lines, events)
  }

  /** What is derived from the lines, whatever the objects they came in and the window they went through. */
  ghost predicate Collates(parse: Parse, lines: seq<string>, c: Collated) {
    var recs := RecordsOf(parse, lines);
    && c.events == Sealed(recs) && Tape(c.events)
    && c.linesIn == LinesIn(parse, lines)
    && c.duplicatesDropped + |c.events| == |recs|
    && c.graphNodes == CountOf(c.events, IsGraph())
    && Instances(c.instances, parse, lines, c.events) && RowsCover(Cover(c.events), c.events)
    && IndexRows(c.correlations, c.events)
  }

  /** Merged, or repaired when the merge went backwards: either way, the sealed order of what was kept. */
  method OrderEvents(runs: Runs, ghost recs: seq<Accepted>, window: nat)
    returns (events: seq<Accepted>, merge: MergeReport, ghost emitted: seq<Emission>)
    requires Flat(runs) == Fresh({}, recs)
    ensures events == Sealed(recs)
    ensures Merged(SortedRuns(runs), window, emitted) && merge == MergeReport(UnsortedCount(runs), Jumps(emitted))
  {
    events, merge, emitted := MergeRuns.MergeRuns(runs, window);
    SealedIs(recs);
    SealOrderTotal();
    SortSorts(Fresh({}, recs), InSealOrder());
    if !Ordered(merge) {
      SortSorts(events, InSealOrder());
      events := Sort(events, InSealOrder());
    }
    forall x, y | x in events && y in events && InSealOrder()(x, y) && InSealOrder()(y, x) ensures x == y {
      assert x in multiset(events) && y in multiset(events);
      assert x in multiset(Sealed(recs)) && y in multiset(Sealed(recs));
      SameKeySame(Sealed(recs), x, y);
    }
    SortedUnique(events, Sealed(recs), InSealOrder());
  }

  method FinishInstances(parse: Parse, events: seq<Accepted>, t: Tallies, ghost lines: seq<string>, ghost seen: set<Key>)
    returns (instances: seq<InstanceCoverage>)
    requires Tape(events) && Tallied(parse, lines, seen, t) && multiset(events) == multiset(Fresh({}, RecordsOf(parse, lines)))
    ensures Instances(instances, parse, lines, events) && RowsCover(Cover(events), events)
  {
    var rows := CoverInstances(events);
    BareRows(events);
    instances := AccountLosses(rows, t.shed, t.dupes);
    forall i | 0 <= i < |rows| ensures RowLosses(instances[i], rows[i], parse, lines, events) {
      assert ShedFor(t.shed, rows[i].instance) == ShedOf(parse, lines, rows[i].instance);
      assert rows[i].gapsAccounted == [];
      AccountedNone(rows[i].gaps);
      assert DupesAgree(t.dupes, Fresh({}, RecordsOf(parse, lines)), RecordsOf(parse, lines), rows[i].instance);
      CountPermuted(events, Fresh({}, RecordsOf(parse, lines)), OfInstance(rows[i].instance));
    }
  }

  lemma AccountedNone(gaps: seq<Range>)
    ensures Accounted(gaps, []) == []
  {
    assert Filter([], InsideAGap(gaps)) == [];
  }

  lemma {:induction false} BareRows(events: seq<Accepted>)
    ensures forall i :: 0 <= i < |Cover(events)| ==> Cover(events)[i].gapsAccounted == []
  {
    if events != [] {
      BareRows(events[..|events| - 1]);
    }
  }

  /** The collation, told in the fields of the lines. */
  ghost predicate Tells(parse: Parse, lines: seq<string>, c: Collated) {
    && EventsAreFirsts(parse, lines, c.events)
    && c.linesIn == HowMany(lines, (line: string) => !parse(line).Blank?)
    && c.duplicatesDropped + |c.events| == HowMany(lines, (line: string) => parse(line).Record?)
    && c.graphNodes == HowMany(c.events, (a: Accepted) => a.kind.GraphNode?)
    && RowsCover(c.instances, c.events)
    && (forall i {:trigger c.instances[i]} :: 0 <= i < |c.instances| ==> LossesTold(parse, lines, c.events, c.instances[i]))
    && IndexReads(c.correlations, c.events)
  }

  lemma RowTells(parse: Parse, lines: seq<string>, events: seq<Accepted>, row: InstanceCoverage, bare: InstanceCoverage)
    requires RowLosses(row, bare, parse, lines, events)
    ensures LossesTold(parse, lines, events, row)
  {
    var mine := (a: Accepted) => a.instance == row.instance;
    FilterHowMany(events, OfInstance(row.instance));
    FilterHowMany(RecordsOf(parse, lines), OfInstance(row.instance));
    HowManySame(events, OfInstance(row.instance), mine);
    HowManySame(RecordsOf(parse, lines), OfInstance(row.instance), mine);
    LossesTell(parse, lines, events, row, row.duplicatesDropped);
  }

  lemma SameCover(rows: seq<InstanceCoverage>, bare: seq<InstanceCoverage>, events: seq<Accepted>)
    requires RowsCover(bare, events) && |rows| == |bare|
    requires forall i :: 0 <= i < |rows| ==> rows[i] == bare[i].(gapsAccounted := rows[i].gapsAccounted, duplicatesDropped := rows[i].duplicatesDropped)
    ensures RowsCover(rows, events)
  {
    forall i: nat | i < |rows| ensures TilesAt(rows, events, i) {
      assert TilesAt(bare, events, i);
    }
    forall e | e in events && e.kind.BoundaryEvent? ensures HasRow(rows, e.instance) {
      assert HasRow(bare, e.instance);
      var i :| 0 <= i < |bare| && bare[i].instance == e.instance;
      assert rows[i].instance == e.instance;
    }
  }

  lemma InstancesTell(parse: Parse, lines: seq<string>, events: seq<Accepted>, rows: seq<InstanceCoverage>)
    requires Instances(rows, parse, lines, events) && RowsCover(Cover(events), events)
    ensures RowsCover(rows, events)
    ensures forall i {:trigger rows[i]} :: 0 <= i < |rows| ==> LossesTold(parse, lines, events, rows[i])
  {
    forall i | 0 <= i < |rows|
      ensures LossesTold(parse, lines, events, rows[i])
      ensures rows[i] == Cover(events)[i].(gapsAccounted := rows[i].gapsAccounted, duplicatesDropped := rows[i].duplicatesDropped)
    {
      assert RowLosses(rows[i], Cover(events)[i], parse, lines, events);
      RowTells(parse, lines, events, rows[i], Cover(events)[i]);
    }
    SameCover(rows, Cover(events), events);
  }

  lemma CountsTell(parse: Parse, lines: seq<string>, c: Collated)
    requires c.linesIn == LinesIn(parse, lines) && c.duplicatesDropped + |c.events| == |RecordsOf(parse, lines)|
    requires c.graphNodes == CountOf(c.events, IsGraph())
    ensures c.linesIn == HowMany(lines, (line: string) => !parse(line).Blank?)
    ensures c.duplicatesDropped + |c.events| == HowMany(lines, (line: string) => parse(line).Record?)
    ensures c.graphNodes == HowMany(c.events, (a: Accepted) => a.kind.GraphNode?)
  {
    LinesCounted(parse, lines);
    RecordsCounted(parse, lines);
    FilterHowMany(c.events, IsGraph());
    HowManySame(c.events, IsGraph(), (a: Accepted) => a.kind.GraphNode?);
  }

  lemma CollatesTells(parse: Parse, lines: seq<string>, c: Collated)
    requires Collates(parse, lines, c)
    ensures Tells(parse, lines, c)
  {
    SealedAreFirsts(parse, lines);
    CountsTell(parse, lines, c);
    InstancesTell(parse, lines, c.events, c.instances);
    RowsRead(c.correlations, c.events);
  }

  method CollateRuns(parse: Parse, objects: seq<seq<string>>) returns (c: Collated, ghost emitted: seq<Emission>)
    ensures Collates(parse, Concat(objects), c) && Tells(parse, Concat(objects), c)
    ensures var runs := FirstRuns(parse, objects);
            Merged(SortedRuns(runs), 2, emitted) && c.merge == MergeReport(UnsortedCount(runs), Jumps(emitted))
  {
    var seen, t, runs := TakeObjects(parse, objects);
    ghost var lines := Concat(objects);
    ghost var recs := RecordsOf(parse, lines);
    RunsHoldFirsts(parse, objects);
    var events, merge;
    events, merge, emitted := OrderEvents(runs, recs, MERGE_WINDOW);
    SealedIs(recs);
    var instances := FinishInstances(parse, events, t, lines, seen);
    var correlations := SummarizeCorrelations(events);
    CountPermuted(events, Fresh({}, recs), IsGraph());
    assert |multiset(events)| == |events| && |multiset(Fresh({}, recs))| == |Fresh({}, recs)|;
    c := Collated(events, t.graphNodes, t.linesIn, t.duplicates, instances, correlations, merge);
    CollatesTells(parse, lines, c);
  }

  // ----- the seal does not depend on how the lines arrived -----

  lemma InstancesUnique(a: seq<InstanceCoverage>, b: seq<InstanceCoverage>, parse: Parse, l: seq<string>, m: seq<string>, events: seq<Accepted>)
    requires Instances(a, parse, l, events) && Instances(b, parse, m, events) && multiset(l) == multiset(m)
    ensures a == b
  {
    FlatMapPermuted(l, m, RecordIn(parse));
    forall i | 0 <= i < |a| ensures a[i] == b[i] {
      var instance := Cover(events)[i].instance;
      FlatMapPermuted(l, m, ShedIn(parse, instance));
      SameToSet(ShedOf(parse, l, instance), ShedOf(parse, m, instance));
      MarkerOrderIrrelevant(a[i].gaps, ShedOf(parse, l, instance), ShedOf(parse, m, instance));
      CountPermuted(RecordsOf(parse, l), RecordsOf(parse, m), OfInstance(instance));
      assert RowLosses(a[i], Cover(events)[i], parse, l, events) && RowLosses(b[i], Cover(events)[i], parse, m, events);
    }
  }

  lemma SameToSet<T(!new)>(xs: seq<T>, ys: seq<T>)
    requires multiset(xs) == multiset(ys)
    ensures ToSet(xs) == ToSet(ys)
  {
    forall x ensures x in xs <==> x in ys {
      assert x in multiset(xs) <==> x in multiset(ys);
    }
  }

  /** Any split into objects, any order of lines, any window: the same seal, when a key fixes its line. */
  lemma ArrivalIrrelevant(parse: Parse, l: seq<string>, m: seq<string>, a: Collated, b: Collated)
    requires multiset(l) == multiset(m) && KeyFixesRecord(RecordsOf(parse, l))
    requires Collates(parse, l, a) && Collates(parse, m, b)
    ensures a == b.(merge := a.merge)
  {
    FlatMapPermuted(l, m, RecordIn(parse));
    FlatMapPermuted(l, m, LineIn(parse));
    SealedPermuted(RecordsOf(parse, l), RecordsOf(parse, m));
    SameLength(RecordsOf(parse, l), RecordsOf(parse, m));
    SameLength(FlatMap(l, LineIn(parse)), FlatMap(m, LineIn(parse)));
    InstancesUnique(a.instances, b.instances, parse, l, m, a.events);
    IndexUnique(a.correlations, b.correlations, a.events);
  }

  /** Re-cutting the same lines into other objects changes nothing, whatever keys clash. */
  lemma SplitIrrelevant(parse: Parse, objects: seq<seq<string>>, others: seq<seq<string>>, a: Collated, b: Collated)
    requires Concat(objects) == Concat(others)
    requires Collates(parse, Concat(objects), a) && Collates(parse, Concat(others), b)
    ensures a == b.(merge := a.merge)
  {
    InstancesUnique(a.instances, b.instances, parse, Concat(objects), Concat(others), a.events);
    IndexUnique(a.correlations, b.correlations, a.events);
  }
}
