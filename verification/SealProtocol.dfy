/** Any number of sealers, one PUT at a time, in any interleaving, each free to stop for good after any
    of its puts. */
module SealProtocol {
  import opened Common
  import opened Sequences
  import opened Records
  import opened Coverage
  import opened Correlations
  import opened Arrivals
  import opened Collate
  import opened TextLines
  import opened SealPlan

  /** A sealer that may write: it collated some landing, and what it kept is neither empty nor unreadable as lines. */
  ghost predicate SoundJob(parse: Parse, landed: seq<string>, job: Job) {
    && Collates(parse, landed, job.collated) && job.collated.graphNodes <= |job.collated.events|
    && job.collated.events != [] && AllClean(JobLines(job))
  }

  /** The sealers, what each of them read, and a digest under which no two of their texts collide. */
  datatype World = World(parse: Parse, digest: Digest, jobs: seq<Job>, ghost landed: seq<seq<string>>)

  /** The digest tells these two lists of lines apart, if they join to different texts. */
  ghost predicate ToldApart(digest: Digest, mine: seq<string>, theirs: seq<string>) {
    digest(Join(mine)) == digest(Join(theirs)) ==> Join(mine) == Join(theirs)
  }

  ghost predicate NoCollision(w: World) {
    forall i, j {:trigger ToldApart(w.digest, JobLines(w.jobs[i]), JobLines(w.jobs[j]))} :: 0 <= i < |w.jobs| && 0 <= j < |w.jobs| ==>
      ToldApart(w.digest, JobLines(w.jobs[i]), JobLines(w.jobs[j]))
  }

  ghost predicate Sound(w: World) {
    && |w.landed| == |w.jobs| && NoCollision(w)
    && forall i {:trigger w.jobs[i]} :: 0 <= i < |w.jobs| ==> SoundJob(w.parse, w.landed[i], w.jobs[i])
  }

  ghost function PlanOf(w: World, i: nat): seq<Put>
    requires Sound(w) && i < |w.jobs|
  {
    Plan(w.digest, w.jobs[i])
  }

  datatype State = State(objects: Objects, done: seq<nat>)

  /** Sealer `i` can perform its next put. */
  ghost predicate Ready(w: World, s: State, i: nat)
    requires Sound(w)
  {
    i < |w.jobs| == |s.done| && s.done[i] < |PlanOf(w, i)|
  }

  ghost function Step(w: World, s: State, i: nat): State
    requires Sound(w) && Ready(w, s, i)
  {
    var put := PlanOf(w, i)[s.done[i]];
    State(s.objects[put.key := put.body], s.done[i := s.done[i] + 1])
  }

  /** The state after a schedule: each entry names the sealer whose next put happens. A crashed sealer is
      one the schedule never names again. */
  ghost function After(w: World, schedule: seq<nat>): State
    requires Sound(w)
  {
    if schedule == [] then State(map[], seq(|w.jobs|, i => 0))
    else
      var s, i := After(w, schedule[..|schedule| - 1]), schedule[|schedule| - 1];
      if Ready(w, s, i) then Step(w, s, i) else s
  }

  // ----- the same key always means the same content -----

  /** The accepted records are what their own lines parse to. */
  ghost predicate FromLines(parse: Parse, recs: seq<Accepted>) {
    forall a :: a in recs ==> parse(a.rawLine).Record? && a == AcceptedFrom(a.rawLine, parse(a.rawLine))
  }

  lemma {:induction false} RecordsFromLines(parse: Parse, lines: seq<string>)
    ensures FromLines(parse, RecordsOf(parse, lines))
  {
    if lines != [] {
      RecordsFromLines(parse, lines[..|lines| - 1]);
    }
  }

  lemma EventsFromLines(parse: Parse, lines: seq<string>, c: Collated)
    requires Collates(parse, lines, c)
    ensures FromLines(parse, c.events)
  {
    RecordsFromLines(parse, lines);
    SealedIs(RecordsOf(parse, lines));
    FreshIs({}, RecordsOf(parse, lines));
  }

  lemma LinesFixEvents(parse: Parse, a: seq<Accepted>, b: seq<Accepted>)
    requires FromLines(parse, a) && FromLines(parse, b) && RawLines(a) == RawLines(b)
    ensures a == b
  {
    assert |a| == |RawLines(a)| == |RawLines(b)| == |b|;
    forall i | 0 <= i < |a| ensures a[i] == b[i] {
      assert a[i] in a && b[i] in b;
      assert RawLines(a)[i] == RawLines(b)[i];
    }
  }

  /** Sealers with one seal id hold the same events and the same index. */
  lemma SameSealSame(w: World, i: nat, j: nat)
    requires Sound(w) && i < |w.jobs| && j < |w.jobs| && SealId(w.digest, w.jobs[i]) == SealId(w.digest, w.jobs[j])
    ensures JobLines(w.jobs[i]) == JobLines(w.jobs[j])
    ensures w.jobs[i].collated.events == w.jobs[j].collated.events
    ensures w.jobs[i].collated.correlations == w.jobs[j].collated.correlations
  {
    var a, b := w.jobs[i], w.jobs[j];
    assert ToldApart(w.digest, JobLines(a), JobLines(b));
    JoinInjective(JobLines(a), JobLines(b));
    EventsFromLines(w.parse, w.landed[i], a.collated);
    EventsFromLines(w.parse, w.landed[j], b.collated);
    LinesFixEvents(w.parse, a.collated.events, b.collated.events);
    IndexUnique(a.collated.correlations, b.collated.correlations, a.collated.events);
  }

  /** Two sealers work under one seal id exactly when they hold the same lines, one by one, and so the same events. */
  lemma SealIdIffLines(w: World, i: nat, j: nat)
    requires Sound(w) && i < |w.jobs| && j < |w.jobs|
    ensures
      var mine, theirs := w.jobs[i].collated.events, w.jobs[j].collated.events;
      && (SealId(w.digest, w.jobs[i]) == SealId(w.digest, w.jobs[j]) <==>
            |mine| == |theirs| && forall k :: 0 <= k < |mine| ==> mine[k].rawLine == theirs[k].rawLine)
      && (SealId(w.digest, w.jobs[i]) == SealId(w.digest, w.jobs[j]) <==> mine == theirs)
  {
    var mine, theirs := w.jobs[i].collated.events, w.jobs[j].collated.events;
    if SealId(w.digest, w.jobs[i]) == SealId(w.digest, w.jobs[j]) {
      SameSealSame(w, i, j);
    }
    if |mine| == |theirs| && forall k :: 0 <= k < |mine| ==> mine[k].rawLine == theirs[k].rawLine {
      assert RawLines(mine) == RawLines(theirs);
    }
  }

  /** Sealers that hold different events never write to one part or one index: a recording that grew is sealed
      beside what its first manifest names. */
  lemma GrownSealApart(w: World, i: nat, k: nat, j: nat, l: nat)
    requires Sound(w) && i < |w.jobs| && j < |w.jobs| && k < |PlanOf(w, i)| && l < |PlanOf(w, j)|
    requires w.jobs[i].collated.events != w.jobs[j].collated.events
    ensures PlanOf(w, i)[k].key == PlanOf(w, j)[l].key ==> PlanOf(w, i)[k].key == ManifestKey(w.jobs[i].session)
  {
    PlanShape(w, i, k);
    PlanShape(w, j, l);
    SealIdIffLines(w, i, j);
  }

  lemma PlanShape(w: World, i: nat, k: nat)
    requires Sound(w) && i < |w.jobs| && k < |PlanOf(w, i)|
    ensures PlanOf(w, i)[k] ==
            if k < Parts(w.jobs[i]) then PartPut(w.digest, w.jobs[i], k)
            else if k == Parts(w.jobs[i]) then IndexPut(w.digest, w.jobs[i])
            else ManifestPut(w.digest, w.jobs[i])
    ensures |PlanOf(w, i)| == Parts(w.jobs[i]) + 2
  {
  }

  lemma SameKeySameBody(w: World, i: nat, k: nat, j: nat, l: nat)
    requires Sound(w) && i < |w.jobs| && j < |w.jobs| && k < |PlanOf(w, i)| && l < |PlanOf(w, j)|
    requires PlanOf(w, i)[k].key == PlanOf(w, j)[l].key && !PlanOf(w, i)[k].key.ManifestKey?
    ensures PlanOf(w, i)[k].body == PlanOf(w, j)[l].body
  {
    PlanShape(w, i, k);
    PlanShape(w, j, l);
    SameSealSame(w, i, j);
  }

  /** Lines cut out of landing objects hold no newline, and a record's line is not blank: such a seal always reads back. */
  lemma LandedLinesAreClean(parse: Parse, lines: seq<string>, c: Collated)
    requires Collates(parse, lines, c)
    requires forall line :: line in lines ==> '\n' !in line && (BlankLine(line) ==> parse(line).Blank?)
    ensures AllClean(RawLines(c.events))
  {
    EventsFromLines(parse, lines, c);
    SealedIs(RecordsOf(parse, lines));
    FreshIs({}, RecordsOf(parse, lines));
    forall i | 0 <= i < |c.events| ensures Clean(c.events[i].rawLine) {
      assert c.events[i] in c.events;
      RecordLineLanded(parse, lines, c.events[i]);
    }
  }

  lemma {:induction false} RecordLineLanded(parse: Parse, lines: seq<string>, a: Accepted)
    requires a in RecordsOf(parse, lines)
    ensures a.rawLine in lines
  {
    if a in RecordsOf(parse, lines[..|lines| - 1]) {
      RecordLineLanded(parse, lines[..|lines| - 1], a);
    }
  }

  // ----- the invariant -----

  /** Put `k` of sealer `i` is in the store as written, unless it is a manifest a later sealer replaced. */
  ghost predicate Kept(w: World, s: State, i: nat, k: nat)
    requires Sound(w) && i < |w.jobs| && k < |PlanOf(w, i)|
  {
    var put := PlanOf(w, i)[k];
    put.key.ManifestKey? || (put.key in s.objects && s.objects[put.key] == put.body)
  }

  /** What is at this key was put there by some sealer, as its plan says. */
  ghost predicate Explained(w: World, s: State, key: ObjectKey)
    requires Sound(w) && |s.done| == |w.jobs| && key in s.objects
  {
    exists i: nat, k: nat :: Wrote(w, s.done, i, k, Put(key, s.objects[key]))
  }

  /** Put `k` of sealer `i` has been performed, and is this one. */
  ghost predicate Wrote(w: World, done: seq<nat>, i: nat, k: nat, put: Put)
    requires Sound(w) && |done| == |w.jobs|
  {
    i < |w.jobs| && k < done[i] && k < |PlanOf(w, i)| && PlanOf(w, i)[k] == put
  }

  ghost predicate Invariant(w: World, s: State)
    requires Sound(w)
  {
    && |s.done| == |w.jobs| && (forall i: nat :: i < |w.jobs| ==> s.done[i] <= |PlanOf(w, i)|)
    && (forall i: nat, k: nat {:trigger Kept(w, s, i, k)} :: i < |w.jobs| && k < s.done[i] ==> Kept(w, s, i, k))
    && (forall key {:trigger s.objects[key]} :: key in s.objects ==> Explained(w, s, key))
  }

  lemma StepKept(w: World, s: State, s': State, i: nat, j: nat, k: nat)
    requires Sound(w) && Ready(w, s, i) && s' == Step(w, s, i) && j < |w.jobs| && k < |PlanOf(w, j)|
    requires (j == i && k == s.done[i]) || Kept(w, s, j, k)
    ensures Kept(w, s', j, k)
  {
    var put, mine := PlanOf(w, i)[s.done[i]], PlanOf(w, j)[k];
    if mine.key == put.key && !put.key.ManifestKey? {
      SameKeySameBody(w, j, k, i, s.done[i]);
    }
  }

  lemma StillWrote(w: World, done: seq<nat>, i: nat, j: nat, k: nat, put: Put)
    requires Sound(w) && |done| == |w.jobs| && i < |done| && Wrote(w, done, j, k, put)
    ensures Wrote(w, done[i := done[i] + 1], j, k, put)
  {
  }

  lemma ExplainedBy(w: World, s: State, key: ObjectKey, j: nat, k: nat)
    requires Sound(w) && |s.done| == |w.jobs| && key in s.objects && Wrote(w, s.done, j, k, Put(key, s.objects[key]))
    ensures Explained(w, s, key)
  {
  }

  lemma StepExplained(w: World, s: State, s': State, i: nat, key: ObjectKey)
    requires Sound(w) && |s.done| == |w.jobs| && Ready(w, s, i) && s' == Step(w, s, i) && key in s'.objects
    requires key in s.objects ==> Explained(w, s, key)
    ensures Explained(w, s', key)
  {
    var n := s.done[i];
    var put := PlanOf(w, i)[n];
    if key == put.key {
      ExplainedBy(w, s', key, i, n);
    } else {
      var j: nat, k: nat :| Wrote(w, s.done, j, k, Put(key, s.objects[key]));
      StillWrote(w, s.done, i, j, k, Put(key, s.objects[key]));
      ExplainedBy(w, s', key, j, k);
    }
  }

  lemma StepKeeps(w: World, s: State, s': State, i: nat)
    requires Sound(w) && Invariant(w, s) && Ready(w, s, i) && s' == Step(w, s, i)
    ensures Invariant(w, s')
  {
    forall j: nat | j < |w.jobs| ensures s'.done[j] <= |PlanOf(w, j)| {}
    forall j: nat, k: nat | j < |w.jobs| && k < s'.done[j] ensures Kept(w, s', j, k) {
      if !(j == i && k == s.done[i]) {
        assert Kept(w, s, j, k);
      }
      StepKept(w, s, s', i, j, k);
    }
    forall key | key in s'.objects ensures Explained(w, s', key) {
      if key in s.objects {
        assert s.objects[key] == s.objects[key];
      }
      StepExplained(w, s, s', i, key);
    }
  }

  lemma {:induction false} Reachable(w: World, schedule: seq<nat>)
    requires Sound(w)
    ensures Invariant(w, After(w, schedule))
  {
    if schedule != [] {
      var before, i := schedule[..|schedule| - 1], schedule[|schedule| - 1];
      Reachable(w, before);
      var s := After(w, before);
      if Ready(w, s, i) {
        StepKeeps(w, s, Step(w, s, i), i);
      }
    }
  }

  // ----- what readers see -----

  /** Sealer `i` has put its manifest. */
  ghost predicate Finished(w: World, s: State, i: nat)
    requires Sound(w)
  {
    i < |w.jobs| == |s.done| && s.done[i] == |PlanOf(w, i)|
  }

  /** The lines are those of the events, one by one. */
  ghost predicate LinesOf(lines: seq<string>, events: seq<Accepted>) {
    |lines| == |events| && forall k :: 0 <= k < |lines| ==> lines[k] == events[k].rawLine
  }

  /** A manifest reads back a sealer's lines, and its index is there. */
  ghost predicate ReadsAs(w: World, s: State, i: nat)
    requires Sound(w) && i < |w.jobs|
  {
    var m := ManifestOf(w.digest, w.jobs[i]);
    && ReadParts(s.objects, m.parts) == Some(JobLines(w.jobs[i])) && LinesOf(JobLines(w.jobs[i]), w.jobs[i].collated.events)
    && IndexKey(m.session, m.sealId) in s.objects
    && s.objects[IndexKey(m.session, m.sealId)] == Rows(w.jobs[i].collated.correlations)
  }

  lemma PartsAreKept(w: World, s: State, i: nat)
    requires Sound(w) && Invariant(w, s) && Finished(w, s, i)
    ensures PartsStored(w.digest, w.jobs[i], s.objects, Parts(w.jobs[i]))
  {
    var job := w.jobs[i];
    PlanShape(w, i, Parts(job));
    forall k: nat | k < Parts(job)
      ensures PartPut(w.digest, job, k).key in s.objects && s.objects[PartPut(w.digest, job, k).key] == PartPut(w.digest, job, k).body
    {
      PlanShape(w, i, k);
      assert Kept(w, s, i, k);
    }
  }

  lemma IndexIsKept(w: World, s: State, i: nat)
    requires Sound(w) && Invariant(w, s) && Finished(w, s, i)
    ensures
      var m := ManifestOf(w.digest, w.jobs[i]);
      && IndexKey(m.session, m.sealId) in s.objects
      && s.objects[IndexKey(m.session, m.sealId)] == Rows(w.jobs[i].collated.correlations)
  {
    PlanShape(w, i, Parts(w.jobs[i]));
    assert Kept(w, s, i, Parts(w.jobs[i]));
  }

  lemma FinishedReads(w: World, s: State, i: nat)
    requires Sound(w) && Invariant(w, s) && Finished(w, s, i)
    ensures ReadsAs(w, s, i)
  {
    PartsAreKept(w, s, i);
    IndexIsKept(w, s, i);
    ManifestReadsBack(w.digest, w.jobs[i], s.objects);
  }

  /** Whatever manifest a reader finds, in any reachable state, is some finished sealer's: its parts and
      index exist and read back exactly the lines that sealer collated, in order. */
  lemma VisibleManifestReads(w: World, schedule: seq<nat>, session: string) returns (i: nat)
    requires Sound(w) && ManifestKey(session) in After(w, schedule).objects
    ensures Finished(w, After(w, schedule), i) && w.jobs[i].session == session && ReadsAs(w, After(w, schedule), i)
    ensures After(w, schedule).objects[ManifestKey(session)] == Sealed(ManifestOf(w.digest, w.jobs[i]))
  {
    var s, key := After(w, schedule), ManifestKey(session);
    Reachable(w, schedule);
    assert s.objects[key] == s.objects[key];
    assert Explained(w, s, key);
    var j: nat, n: nat :| Wrote(w, s.done, j, n, Put(key, s.objects[key]));
    PlanShape(w, j, n);
    i := j;
    FinishedReads(w, s, i);
  }

  lemma StepStaysFinished(w: World, s: State, j: nat, i: nat)
    requires Sound(w) && Ready(w, s, j) && Finished(w, s, i)
    ensures Finished(w, Step(w, s, j), i)
  {
  }

  lemma NextStaysFinished(w: World, schedule: seq<nat>, i: nat)
    requires Sound(w) && schedule != [] && Finished(w, After(w, schedule[..|schedule| - 1]), i)
    ensures Finished(w, After(w, schedule), i)
  {
    var s, j := After(w, schedule[..|schedule| - 1]), schedule[|schedule| - 1];
    if Ready(w, s, j) {
      StepStaysFinished(w, s, j, i);
    }
  }

  lemma {:induction false} StaysFinished(w: World, schedule: seq<nat>, more: seq<nat>, i: nat)
    requires Sound(w) && Finished(w, After(w, schedule), i)
    ensures Finished(w, After(w, schedule + more), i)
    decreases |more|
  {
    if more == [] {
      assert schedule + more == schedule;
    } else {
      var all := schedule + more;
      assert all[..|all| - 1] == schedule + more[..|more| - 1];
      StaysFinished(w, schedule, more[..|more| - 1], i);
      NextStaysFinished(w, all, i);
    }
  }

  /** Once a manifest has been put, no later put of any sealer changes what it reads back, even after
      another manifest has taken its place. */
  lemma ReadsForever(w: World, schedule: seq<nat>, more: seq<nat>, i: nat)
    requires Sound(w) && Finished(w, After(w, schedule), i)
    ensures ReadsAs(w, After(w, schedule + more), i)
  {
    StaysFinished(w, schedule, more, i);
    Reachable(w, schedule + more);
    FinishedReads(w, After(w, schedule + more), i);
  }

  /** A session is sealed exactly when some sealer of it has finished; until then it reads as still landing. */
  lemma SealedIffFinished(w: World, schedule: seq<nat>, session: string)
    requires Sound(w)
    ensures ManifestKey(session) in After(w, schedule).objects <==>
              exists i: nat :: i < |w.jobs| && w.jobs[i].session == session && Finished(w, After(w, schedule), i)
  {
    if ManifestKey(session) in After(w, schedule).objects {
      var i := VisibleManifestReads(w, schedule, session);
    }
    if i: nat :| i < |w.jobs| && w.jobs[i].session == session && Finished(w, After(w, schedule), i) {
      FinishedShows(w, schedule, i);
    }
  }

  lemma {:induction false} FinishedShows(w: World, schedule: seq<nat>, i: nat)
    requires Sound(w) && Finished(w, After(w, schedule), i)
    ensures ManifestKey(w.jobs[i].session) in After(w, schedule).objects
  {
    var before, j := schedule[..|schedule| - 1], schedule[|schedule| - 1];
    var s := After(w, before);
    if Finished(w, s, i) {
      FinishedShows(w, before, i);
    } else {
      PlanShape(w, i, |PlanOf(w, i)| - 1);
    }
  }

  // ----- sealing again what was read back -----

  lemma {:induction false} RecordsOfRaw(parse: Parse, events: seq<Accepted>)
    requires FromLines(parse, events)
    ensures RecordsOf(parse, RawLines(events)) == events
  {
    if events != [] {
      var init, last := events[..|events| - 1], events[|events| - 1];
      assert RawLines(events)[..|events| - 1] == RawLines(init);
      assert last in events;
      RecordsOfRaw(parse, init);
      assert events == init + [last];
    }
  }

  lemma LastIsNew(init: seq<Accepted>, last: Accepted)
    requires Tape(init + [last])
    ensures Tape(init) && KeyOf(last) !in Keys(init)
  {
    var all := init + [last];
    forall i, j | 0 <= i < j < |init| ensures KeyLess(KeyOf(init[i]), KeyOf(init[j])) {
      assert KeyLess(KeyOf(all[i]), KeyOf(all[j]));
    }
    forall a | a in init ensures KeyOf(a) != KeyOf(last) {
      var i :| 0 <= i < |init| && init[i] == a;
      assert KeyLess(KeyOf(all[i]), KeyOf(all[|init|]));
      KeyOrder(KeyOf(a), KeyOf(a));
    }
  }

  lemma {:induction false} FreshOfTape(events: seq<Accepted>)
    requires Tape(events)
    ensures Fresh({}, events) == events
  {
    if events != [] {
      var init, last := events[..|events| - 1], events[|events| - 1];
      assert events == init + [last];
      LastIsNew(init, last);
      FreshOfTape(init);
      FreshNext({}, init, last);
    }
  }

  /** Sealed events are a fixed point: collating their own lines keeps every one, in the same order. */
  lemma ResealSame(parse: Parse, lines: seq<string>, c: Collated, again: Collated)
    requires Collates(parse, lines, c) && Collates(parse, RawLines(c.events), again)
    ensures again.events == c.events && again.duplicatesDropped == 0
  {
    EventsFromLines(parse, lines, c);
    RecordsOfRaw(parse, c.events);
    FreshOfTape(c.events);
    TapeIsSorted(c.events);
  }

  lemma TapeIsSorted(events: seq<Accepted>)
    requires Tape(events)
    ensures Sort(events, InSealOrder()) == events
  {
    SealOrderTotal();
    forall i, j | 0 <= i < j < |events| ensures InSealOrder()(events[i], events[j]) {
      KeyOrder(KeyOf(events[i]), KeyOf(events[j]));
    }
    SortOfSorted(events, InSealOrder());
  }

  /** A manifest's lines, read back and sealed again, get the seal id it already names. */
  lemma ResealSameId(w: World, schedule: seq<nat>, session: string, again: Job)
    requires Sound(w) && ManifestKey(session) in After(w, schedule).objects
    requires After(w, schedule).objects[ManifestKey(session)].Sealed?
    requires
      var objects := After(w, schedule).objects;
      var read := ReadParts(objects, objects[ManifestKey(session)].manifest.parts);
      read.Some? && Collates(w.parse, read.value, again.collated)
    ensures SealId(w.digest, again) == After(w, schedule).objects[ManifestKey(session)].manifest.sealId
  {
    var i := VisibleManifestReads(w, schedule, session);
    ResealSame(w.parse, w.landed[i], w.jobs[i].collated, again.collated);
  }
}
