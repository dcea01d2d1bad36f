/** `write_seal` and `session_lines`: what one sealer puts, in which order, and what a reader gets back. */
module SealPlan {
  import opened Common
  import opened Sequences
  import opened Records
  import opened Coverage
  import opened Correlations
  import opened Collate
  import opened TextLines

  const PART_MAX_EVENTS: nat := 50_000

  /** The keys of one sealed session. Part and index keys are scoped by the seal id; the manifest key is shared. */
  datatype ObjectKey =
    | PartKey(session: string, seal: string, n: nat)
    | IndexKey(session: string, seal: string)
    | ManifestKey(session: string)

  datatype DataPart = DataPart(key: ObjectKey, events: nat)

  datatype Counts = Counts(
    landingObjects: nat, linesIn: nat, events: nat, duplicatesDropped: nat, correlations: nat, graphNodes: nat)

  datatype Manifest = Manifest(
    session: string, sealId: string, instances: seq<InstanceCoverage>, counts: Counts, parts: seq<DataPart>, createdMs: nat)

  datatype Body = Text(text: string) | Rows(rows: seq<CorrelationSummary>) | Sealed(manifest: Manifest)

  datatype Put = Put(key: ObjectKey, body: Body)

  type Objects = map<ObjectKey, Body>

  /** The content address: a digest of exactly the text the parts hold. */
  type Digest = string -> string

  /** One sealer's work: a session and what it collated. */
  datatype Job = Job(session: string, collated: Collated, landingObjects: nat, createdMs: nat)

  datatype SealError = EmptyRecording | PutFailed

  function RawLines(events: seq<Accepted>): seq<string> {
    seq(|events|, i requires 0 <= i < |events| => events[i].rawLine)
  }

  function JobLines(job: Job): seq<string> {
    RawLines(job.collated.events)
  }

  function SealId(digest: Digest, job: Job): string {
    digest(Join(JobLines(job)))
  }

  function Parts(job: Job): nat {
    PartCount(|job.collated.events|, PART_MAX_EVENTS)
  }

  // ----- the plan -----

  function PartPut(digest: Digest, job: Job, n: nat): Put {
    Put(PartKey(job.session, SealId(digest, job), n), Text(Join(Part(JobLines(job), PART_MAX_EVENTS, n))))
  }

  function PartPuts(digest: Digest, job: Job, n: nat): seq<Put> {
    seq(n, i requires 0 <= i < n => PartPut(digest, job, i))
  }

  function DataParts(digest: Digest, job: Job, n: nat): seq<DataPart> {
    seq(n, i requires 0 <= i < n =>
      DataPart(PartKey(job.session, SealId(digest, job), i), |Part(JobLines(job), PART_MAX_EVENTS, i)|))
  }

  function IndexPut(digest: Digest, job: Job): Put {
    Put(IndexKey(job.session, SealId(digest, job)), Rows(job.collated.correlations))
  }

  function IsCorrelated(): CorrelationSummary -> bool {
    (row: CorrelationSummary) => row.correlation.Some?
  }

  function ManifestOf(digest: Digest, job: Job): Manifest
    requires job.collated.graphNodes <= |job.collated.events|
  {
    var c := job.collated;
    Manifest(job.session, SealId(digest, job), c.instances,
             Counts(job.landingObjects, c.linesIn, |c.events| - c.graphNodes, c.duplicatesDropped,
                    |Filter(c.correlations, IsCorrelated())|, c.graphNodes),
             DataParts(digest, job, Parts(job)), job.createdMs)
  }

  function ManifestPut(digest: Digest, job: Job): Put
    requires job.collated.graphNodes <= |job.collated.events|
  {
    Put(ManifestKey(job.session), Sealed(ManifestOf(digest, job)))
  }

  /** Every part, then the index, then the manifest. */
  function Plan(digest: Digest, job: Job): seq<Put>
    requires job.collated.graphNodes <= |job.collated.events|
  {
    PartPuts(digest, job, Parts(job)) + [IndexPut(digest, job)] + [ManifestPut(digest, job)]
  }

  function Apply(objects: Objects, puts: seq<Put>): Objects {
    if puts == [] then objects
    else Apply(objects, puts[..|puts| - 1])[puts[|puts| - 1].key := puts[|puts| - 1].body]
  }

  lemma ApplyNext(objects: Objects, puts: seq<Put>, put: Put)
    ensures Apply(objects, puts + [put]) == Apply(objects, puts)[put.key := put.body]
  {
    assert (puts + [put])[..|puts|] == puts;
  }

  // ----- one sealer -----

  /** An object store that accepts a number of puts and then fails. */
  class Store {
    var objects: Objects
    var accepts: nat

    constructor (accepts: nat)
      ensures objects == map[] && this.accepts == accepts
    {
      objects := map[];
      this.accepts := accepts;
    }

    method Put(put: Put) returns (ok: bool)
      modifies this
      ensures ok == (old(accepts) > 0)
      ensures ok ==> objects == old(objects)[put.key := put.body] && accepts == old(accepts) - 1
      ensures !ok ==> objects == old(objects) && accepts == 0
    {
      ok := accepts > 0;
      if ok {
        objects := objects[put.key := put.body];
        accepts := accepts - 1;
      }
    }

    /** The lines a manifest's parts hold, in part order; nothing when one is not there. */
    method SessionLines(manifest: Manifest) returns (lines: Option<seq<string>>)
      ensures lines == ReadParts(objects, manifest.parts)
    {
      var read := [];
      for i := 0 to |manifest.parts|
        invariant ReadParts(objects, manifest.parts[..i]) == Some(read)
      {
        var key := manifest.parts[i].key;
        assert manifest.parts[..i + 1][..i] == manifest.parts[..i];
        if key !in objects || !objects[key].Text? {
          ReadStops(objects, manifest.parts, i + 1);
          return None;
        }
        var here := SplitLines(objects[key].text);
        read := read + here;
      }
      assert manifest.parts[..|manifest.parts|] == manifest.parts;
      return Some(read);
    }
  }

  function ReadParts(objects: Objects, parts: seq<DataPart>): Option<seq<string>> {
    if parts == [] then Some([])
    else
      var before, key := ReadParts(objects, parts[..|parts| - 1]), parts[|parts| - 1].key;
      if before.Some? && key in objects && objects[key].Text? then Some(before.value + Lines(objects[key].text)) else None
  }

  lemma {:induction false} ReadStops(objects: Objects, parts: seq<DataPart>, n: nat)
    requires n <= |parts| && ReadParts(objects, parts[..n]).None?
    ensures ReadParts(objects, parts).None?
    decreases |parts| - n
  {
    if n == |parts| {
      assert parts[..n] == parts;
    } else {
      assert parts[..n + 1][..n] == parts[..n];
      ReadStops(objects, parts, n + 1);
    }
  }

  /** The first `n` puts of the plan are in the store, and the rest of the store is as it was. */
  ghost predicate Written(digest: Digest, job: Job, before: Objects, objects: Objects, n: nat)
    requires job.collated.graphNodes <= |job.collated.events|
  {
    n <= |Plan(digest, job)| && objects == Apply(before, Plan(digest, job)[..n])
  }

  lemma WriteNext(digest: Digest, job: Job, before: Objects, objects: Objects, n: nat)
    requires job.collated.graphNodes <= |job.collated.events|
    requires Written(digest, job, before, objects, n) && n < |Plan(digest, job)|
    ensures var put := Plan(digest, job)[n]; Written(digest, job, before, objects[put.key := put.body], n + 1)
  {
    PrefixGrows(Plan(digest, job), n);
    ApplyNext(before, Plan(digest, job)[..n], Plan(digest, job)[n]);
  }

  method WriteParts(digest: Digest, store: Store, job: Job, ghost before: Objects) returns (ok: bool, parts: seq<DataPart>)
    requires job.collated.graphNodes <= |job.collated.events|
    requires Written(digest, job, before, store.objects, 0)
    modifies store
    ensures ok ==> Written(digest, job, before, store.objects, Parts(job)) && store.accepts == old(store.accepts) - Parts(job)
    ensures ok <==> old(store.accepts) >= Parts(job)
    ensures !ok ==> store.accepts == 0 && Written(digest, job, before, store.objects, old(store.accepts))
    ensures ok ==> parts == DataParts(digest, job, Parts(job))
  {
    var lines, seal := JobLines(job), SealId(digest, job);
    parts := [];
    for n := 0 to Parts(job)
      invariant Written(digest, job, before, store.objects, n) && store.accepts == old(store.accepts) - n
      invariant parts == DataParts(digest, job, n)
    {
      var window := Part(lines, PART_MAX_EVENTS, n);
      var key := PartKey(job.session, seal, n);
      assert Plan(digest, job)[n] == PartPut(digest, job, n);
      WriteNext(digest, job, before, store.objects, n);
      ok := store.Put(Put(key, Text(Join(window))));
      if !ok {
        return;
      }
      parts := parts + [DataPart(key, |window|)];
    }
    ok := true;
  }

  /** Nothing is written for an empty recording. Otherwise the plan is followed put by put until the store fails;
      only a sealer whose every put landed reports success, and then the manifest is the last thing it wrote. */
  method WriteSeal(digest: Digest, store: Store, job: Job) returns (r: Result<Manifest, SealError>)
    requires job.collated.graphNodes <= |job.collated.events|
    modifies store
    ensures job.collated.events == [] ==> r == Err(EmptyRecording) && store.objects == old(store.objects)
    ensures job.collated.events != [] ==>
              var plan := Plan(digest, job);
              if old(store.accepts) >= |plan|
              then r == Ok(ManifestOf(digest, job)) && Written(digest, job, old(store.objects), store.objects, |plan|)
              else r == Err(PutFailed) && Written(digest, job, old(store.objects), store.objects, old(store.accepts))
  {
    if job.collated.events == [] {
      return Err(EmptyRecording);
    }
    ghost var before := store.objects;
    var ok, parts := WriteParts(digest, store, job, before);
    if !ok {
      return Err(PutFailed);
    }
    var c := job.collated;
    assert Plan(digest, job)[Parts(job)] == IndexPut(digest, job);
    WriteNext(digest, job, before, store.objects, Parts(job));
    ok := store.Put(Put(IndexKey(job.session, SealId(digest, job)), Rows(c.correlations)));
    if !ok {
      return Err(PutFailed);
    }
    var manifest := Manifest(job.session, SealId(digest, job), c.instances,
                             Counts(job.landingObjects, c.linesIn, |c.events| - c.graphNodes, c.duplicatesDropped,
                                    |Filter(c.correlations, IsCorrelated())|, c.graphNodes),
                             parts, job.createdMs);
    assert Plan(digest, job)[Parts(job) + 1] == ManifestPut(digest, job);
    WriteNext(digest, job, before, store.objects, Parts(job) + 1);
    ok := store.Put(Put(ManifestKey(job.session), Sealed(manifest)));
    if !ok {
      return Err(PutFailed);
    }
    return Ok(manifest);
  }

  // ----- reading back -----

  /** Every part of the job's plan is in the store. */
  ghost predicate PartsStored(digest: Digest, job: Job, objects: Objects, n: nat) {
    forall i: nat {:trigger PartPut(digest, job, i)} :: i < n ==>
      PartPut(digest, job, i).key in objects && objects[PartPut(digest, job, i).key] == PartPut(digest, job, i).body
  }

  lemma {:induction false} StoredReadsBack(digest: Digest, job: Job, objects: Objects, n: nat)
    requires PartsStored(digest, job, objects, n) && AllClean(JobLines(job))
    ensures ReadParts(objects, DataParts(digest, job, n)) == Some(FirstParts(JobLines(job), PART_MAX_EVENTS, n))
  {
    if n > 0 {
      StoredReadsBack(digest, job, objects, n - 1);
      var put := PartPut(digest, job, n - 1);
      assert put.key in objects && objects[put.key] == put.body;
      assert DataParts(digest, job, n)[..n - 1] == DataParts(digest, job, n - 1);
      JoinThenLines(Part(JobLines(job), PART_MAX_EVENTS, n - 1));
    }
  }

  /** Once its parts are stored, a job's manifest reads back the lines it collated, all of them and in order. */
  lemma ManifestReadsBack(digest: Digest, job: Job, objects: Objects)
    requires job.collated.graphNodes <= |job.collated.events|
    requires PartsStored(digest, job, objects, Parts(job)) && AllClean(JobLines(job))
    ensures ReadParts(objects, ManifestOf(digest, job).parts) == Some(JobLines(job))
  {
    StoredReadsBack(digest, job, objects, Parts(job));
    PartsAreWhole(JobLines(job), PART_MAX_EVENTS);
  }

  // ----- what the manifest counts -----

  function PartsTotal(parts: seq<DataPart>): nat {
    if parts == [] then 0 else PartsTotal(parts[..|parts| - 1]) + parts[|parts| - 1].events
  }

  lemma {:induction false} PartsAddUp(digest: Digest, job: Job, n: nat)
    ensures PartsTotal(DataParts(digest, job, n)) == |FirstParts(JobLines(job), PART_MAX_EVENTS, n)|
  {
    if n > 0 {
      PartsAddUp(digest, job, n - 1);
      assert DataParts(digest, job, n)[..n - 1] == DataParts(digest, job, n - 1);
    }
  }

  lemma {:induction false} KindsAddUp(events: seq<Accepted>)
    ensures HowMany(events, (a: Accepted) => a.kind.BoundaryEvent?) + HowMany(events, (a: Accepted) => a.kind.GraphNode?) == |events|
  {
    if events != [] {
      var init, last := events[..|events| - 1], events[|events| - 1];
      assert events == init + [last];
      KindsAddUp(init);
      HowManyNext(init, last, (a: Accepted) => a.kind.BoundaryEvent?);
      HowManyNext(init, last, (a: Accepted) => a.kind.GraphNode?);
    }
  }

  /** The manifest counts the boundary events and the graph nodes of its recording, the rows that name a
      correlation, and in its parts every event once, at most 50,000 to a part. */
  lemma ManifestCounts(digest: Digest, job: Job)
    requires job.collated.graphNodes == HowMany(job.collated.events, (a: Accepted) => a.kind.GraphNode?) <= |job.collated.events|
    ensures
      var m, events := ManifestOf(digest, job), job.collated.events;
      && m.counts.events == HowMany(events, (a: Accepted) => a.kind.BoundaryEvent?)
      && m.counts.graphNodes == HowMany(events, (a: Accepted) => a.kind.GraphNode?)
      && m.counts.events + m.counts.graphNodes == |events| == PartsTotal(m.parts)
      && (forall i :: 0 <= i < |m.parts| ==> 0 < m.parts[i].events <= 50_000)
      && m.counts.correlations == HowMany(job.collated.correlations, (row: CorrelationSummary) => row.correlation.Some?)
      && m.counts.landingObjects == job.landingObjects && m.counts.linesIn == job.collated.linesIn
      && m.counts.duplicatesDropped == job.collated.duplicatesDropped
  {
    KindsAddUp(job.collated.events);
    PartsAddUp(digest, job, Parts(job));
    PartsAreWhole(JobLines(job), PART_MAX_EVENTS);
    FilterHowMany(job.collated.correlations, IsCorrelated());
    HowManySame(job.collated.correlations, IsCorrelated(), (row: CorrelationSummary) => row.correlation.Some?);
    assert |JobLines(job)| == |job.collated.events|;
  }
}
