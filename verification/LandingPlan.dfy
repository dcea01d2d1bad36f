/** The landing's listing, and which of its recordings a pass plans to seal. */
module LandingPlan {
  import opened Common
  import opened Sequences
  import opened Records
  import SealPlan

  /** What one landing key says: the session it names, if any, and its date partition. */
  datatype KeyParts = KeyParts(session: Option<string>, date: Option<string>)

  type ReadKey = string -> KeyParts

  /** One recording as listed: how many objects it has, and the last partition it appears under. */
  datatype Landed = Landed(sessionId: string, objects: nat, latest: Option<string>)

  predicate Names(read: ReadKey, key: string, session: string) {
    read(key).session == Some(session)
  }

  function ObjectsOf(read: ReadKey, keys: seq<string>, session: string): nat {
    if keys == [] then 0
    else ObjectsOf(read, keys[..|keys| - 1], session) + if Names(read, keys[|keys| - 1], session) then 1 else 0
  }

  predicate DateLess(a: Option<string>, b: Option<string>) {
    b.Some? && (a.None? || StringLess(a.value, b.value))
  }

  function Later(a: Option<string>, b: Option<string>): Option<string> {
    if DateLess(a, b) then b else a
  }

  /** The latest date partition the session appears under. */
  function LatestOf(read: ReadKey, keys: seq<string>, session: string): Option<string> {
    if keys == [] then None
    else
      var before, key := LatestOf(read, keys[..|keys| - 1], session), keys[|keys| - 1];
      if Names(read, key, session) then Later(before, read(key).date) else before
  }

  function Listed(read: ReadKey, keys: seq<string>, session: string): Landed {
    Landed(session, ObjectsOf(read, keys, session), LatestOf(read, keys, session))
  }

  /** Newest first: by last partition, then by id, both descending. */
  predicate NewerOrSame(a: Landed, b: Landed) {
    DateLess(b.latest, a.latest) || (a.latest == b.latest && !StringLess(a.sessionId, b.sessionId))
  }

  function NewestFirst(): (Landed, Landed) -> bool {
    (a: Landed, b: Landed) => NewerOrSame(a, b)
  }

  lemma DateOrder(a: Option<string>, b: Option<string>)
    ensures DateLess(a, b) || a == b || DateLess(b, a)
  {
    if a.Some? && b.Some? {
      StringOrder(a.value, b.value);
    }
  }

  lemma DateChain(a: Option<string>, b: Option<string>, c: Option<string>)
    requires DateLess(a, b) && DateLess(b, c)
    ensures DateLess(a, c)
  {
    if a.Some? {
      StringChain(a.value, b.value, c.value);
    }
  }

  lemma NewestIsPreorder()
    ensures TotalPreorder(NewestFirst())
  {
    forall a: Landed, b: Landed ensures NewerOrSame(a, b) || NewerOrSame(b, a) {
      DateOrder(a.latest, b.latest);
      StringOrder(a.sessionId, b.sessionId);
    }
    forall a: Landed, b: Landed, c: Landed | NewerOrSame(a, b) && NewerOrSame(b, c) ensures NewerOrSame(a, c) {
      if DateLess(c.latest, b.latest) && DateLess(b.latest, a.latest) {
        DateChain(c.latest, b.latest, a.latest);
      }
      StringLeOrders();
      assert StringLe()(b.sessionId, a.sessionId) && StringLe()(c.sessionId, b.sessionId) ==> StringLe()(c.sessionId, a.sessionId);
    }
  }

  function SessionsOf(landed: seq<Landed>): seq<string> {
    seq(|landed|, i requires 0 <= i < |landed| => landed[i].sessionId)
  }

  /** Exactly the sessions the keys name, once each, with their counts and dates, newest first. */
  ghost predicate IsListing(read: ReadKey, keys: seq<string>, landed: seq<Landed>) {
    && NoDup(SessionsOf(landed)) && Sorted(landed, NewestFirst())
    && forall rec :: rec in landed <==> rec == Listed(read, keys, rec.sessionId) && rec.objects > 0
  }

  type Found = map<string, Landed>

  ghost predicate FoundSoFar(read: ReadKey, keys: seq<string>, found: Found) {
    forall s {:trigger s in found} {:trigger ObjectsOf(read, keys, s)} ::
      (s in found <==> ObjectsOf(read, keys, s) > 0) && (s in found ==> found[s] == Listed(read, keys, s))
  }

  lemma {:induction false} NoneBeforeFirst(read: ReadKey, keys: seq<string>, session: string)
    requires ObjectsOf(read, keys, session) == 0
    ensures LatestOf(read, keys, session) == None
  {
    if keys != [] {
      NoneBeforeFirst(read, keys[..|keys| - 1], session);
    }
  }

  lemma NextKey(read: ReadKey, keys: seq<string>, key: string, session: string)
    ensures Listed(read, keys + [key], session) ==
            if Names(read, key, session)
            then Landed(session, ObjectsOf(read, keys, session) + 1, Later(LatestOf(read, keys, session), read(key).date))
            else Listed(read, keys, session)
  {
    assert (keys + [key])[..|keys|] == keys;
  }

  method CountKeys(read: ReadKey, keys: seq<string>) returns (found: Found)
    ensures FoundSoFar(read, keys, found)
  {
    found := map[];
    for i := 0 to |keys|
      invariant FoundSoFar(read, keys[..i], found)
    {
      var parts := read(keys[i]);
      PrefixGrows(keys, i);
      forall s ensures Listed(read, keys[..i] + [keys[i]], s) ==
        if Names(read, keys[i], s) then Landed(s, ObjectsOf(read, keys[..i], s) + 1, Later(LatestOf(read, keys[..i], s), parts.date))
        else Listed(read, keys[..i], s)
      {
        NextKey(read, keys[..i], keys[i], s);
      }
      if parts.session.Some? {
        var s := parts.session.value;
        var had := if s in found then found[s] else Landed(s, 0, None);
        if s !in found {
          NoneBeforeFirst(read, keys[..i], s);
        }
        found := found[s := Landed(s, had.objects + 1, Later(had.latest, parts.date))];
      }
    }
    assert keys[..|keys|] == keys;
  }

  method Enumerate(found: Found) returns (landed: seq<Landed>)
    requires forall s :: s in found ==> found[s].sessionId == s
    ensures NoDup(SessionsOf(landed)) && forall rec :: rec in landed <==> rec.sessionId in found && found[rec.sessionId] == rec
  {
    var ids := AnyOrder(found.Keys);
    landed := [];
    for i := 0 to |ids|
      invariant SessionsOf(landed) == ids[..i]
      invariant forall j :: 0 <= j < |landed| ==> landed[j].sessionId in found && landed[j] == found[landed[j].sessionId]
    {
      assert ids[i] in ToSet(ids);
      landed := landed + [found[ids[i]]];
    }
    assert ids[..|ids|] == ids;
    forall rec: Landed | rec.sessionId in found && found[rec.sessionId] == rec ensures rec in landed {
      assert rec.sessionId in ToSet(ids);
      var i :| 0 <= i < |ids| && ids[i] == rec.sessionId;
      assert SessionsOf(landed)[i] == landed[i].sessionId;
    }
  }

  lemma SessionsApart(landed: seq<Landed>, a: Landed, b: Landed)
    requires NoDup(SessionsOf(landed)) && a in landed && b in landed && a != b
    ensures a.sessionId != b.sessionId
  {
    var k :| 0 <= k < |landed| && landed[k] == a;
    var l :| 0 <= l < |landed| && landed[l] == b;
    assert SessionsOf(landed)[k] == a.sessionId && SessionsOf(landed)[l] == b.sessionId;
  }

  lemma RecordsDistinct(landed: seq<Landed>)
    requires NoDup(SessionsOf(landed))
    ensures NoDup(landed)
  {
    forall i, j | 0 <= i < j < |landed| ensures landed[i] != landed[j] {
      assert SessionsOf(landed)[i] != SessionsOf(landed)[j];
    }
  }

  lemma SortedListing(landed: seq<Landed>)
    requires NoDup(SessionsOf(landed))
    ensures var out := Sort(landed, NewestFirst());
            NoDup(SessionsOf(out)) && Sorted(out, NewestFirst()) && forall rec :: rec in out <==> rec in landed
  {
    var out := Sort(landed, NewestFirst());
    NewestIsPreorder();
    SortSorts(landed, NewestFirst());
    RecordsDistinct(landed);
    NoDupFromMultiset(landed, out);
    forall rec ensures rec in out <==> rec in landed {
      assert rec in multiset(out) <==> rec in multiset(landed);
    }
    forall i, j | 0 <= i < j < |out| ensures SessionsOf(out)[i] != SessionsOf(out)[j] {
      assert out[i] in out && out[j] in out;
      SessionsApart(landed, out[i], out[j]);
    }
  }

  /** `index_landed_keys`. */
  method IndexLandedKeys(read: ReadKey, keys: seq<string>) returns (landed: seq<Landed>)
    ensures IsListing(read, keys, landed) && ListsKeys(read, keys, landed)
  {
    var found := CountKeys(read, keys);
    assert forall s :: s in found ==> found[s] == Listed(read, keys, s);
    var any := Enumerate(found);
    SortedListing(any);
    landed := Sort(any, NewestFirst());
    forall rec ensures rec in landed <==> rec == Listed(read, keys, rec.sessionId) && rec.objects > 0 {
      assert rec.sessionId in found <==> ObjectsOf(read, keys, rec.sessionId) > 0;
    }
    ListingReads(read, keys, landed);
  }

  // ----- what is listed, told in the keys -----

  /** The latest of the dates, as words sort, that the session's keys give; none when they give none. */
  ghost predicate IsLatest(read: ReadKey, keys: seq<string>, session: string, latest: Option<string>) {
    match latest
    case None => forall key :: key in keys && read(key).session == Some(session) ==> read(key).date == None
    case Some(d) =>
      && (exists key :: key in keys && read(key) == KeyParts(Some(session), Some(d)))
      && forall key :: key in keys && read(key).session == Some(session) && read(key).date.Some? ==> !LexBefore(d, read(key).date.value)
  }

  /** The date of `a` comes before that of `b`, or only `b` has one. */
  ghost predicate Earlier(a: Option<string>, b: Option<string>) {
    b.Some? && (a.None? || LexBefore(a.value, b.value))
  }

  ghost predicate ListedBefore(a: Landed, b: Landed) {
    Earlier(b.latest, a.latest) || (a.latest == b.latest && LexBefore(b.sessionId, a.sessionId))
  }

  function Naming(read: ReadKey, session: string): string -> bool {
    (key: string) => read(key).session == Some(session)
  }

  /** Each session a key names, with the number of keys that name it and its latest date; later dates first, and
      of one date the greater id first. */
  ghost predicate ListsKeys(read: ReadKey, keys: seq<string>, landed: seq<Landed>) {
    && (forall rec :: rec in landed ==>
          rec.objects == HowMany(keys, Naming(read, rec.sessionId)) > 0 && IsLatest(read, keys, rec.sessionId, rec.latest))
    && (forall key :: key in keys && read(key).session.Some? ==> exists rec :: rec in landed && rec.sessionId == read(key).session.value)
    && (forall i, j :: 0 <= i < j < |landed| ==> ListedBefore(landed[i], landed[j]))
  }

  lemma {:induction false} ObjectsCounted(read: ReadKey, keys: seq<string>, session: string)
    ensures ObjectsOf(read, keys, session) == HowMany(keys, Naming(read, session))
  {
    if keys != [] {
      var init, last := keys[..|keys| - 1], keys[|keys| - 1];
      assert keys == init + [last];
      ObjectsCounted(read, init, session);
      HowManyNext(init, last, Naming(read, session));
    }
  }

  lemma NotAfter(d: string, e: string, f: string)
    requires !LexBefore(d, e) && StringLess(d, f)
    ensures !LexBefore(f, e)
  {
    StringLessIs(d, e);
    StringLessIs(f, e);
    if StringLess(f, e) {
      StringChain(d, f, e);
    }
  }

  lemma {:induction false} LatestIs(read: ReadKey, keys: seq<string>, session: string)
    ensures IsLatest(read, keys, session, LatestOf(read, keys, session))
  {
    if keys != [] {
      var init, last := keys[..|keys| - 1], keys[|keys| - 1];
      assert keys == init + [last];
      LatestIs(read, init, session);
      LatestNext(read, init, last, session, LatestOf(read, init, session));
    }
  }

  lemma LatestNext(read: ReadKey, keys: seq<string>, key: string, session: string, before: Option<string>)
    requires IsLatest(read, keys, session, before)
    ensures IsLatest(read, keys + [key], session, if Names(read, key, session) then Later(before, read(key).date) else before)
  {
    var more, date := keys + [key], read(key).date;
    assert key in more && forall k :: k in keys ==> k in more;
    if Names(read, key, session) && date.Some? {
      StringOrder(date.value, date.value);
      StringLessIs(date.value, date.value);
      if before.Some? {
        StringLessIs(before.value, date.value);
        if StringLess(before.value, date.value) {
          forall k | k in keys && read(k).session == Some(session) && read(k).date.Some? ensures !LexBefore(date.value, read(k).date.value) {
            NotAfter(before.value, read(k).date.value, date.value);
          }
        }
      }
    }
  }

  lemma SessionListed(read: ReadKey, keys: seq<string>, landed: seq<Landed>, key: string)
    requires IsListing(read, keys, landed) && key in keys && read(key).session.Some?
    ensures exists rec :: rec in landed && rec.sessionId == read(key).session.value
  {
    var session := read(key).session.value;
    ObjectsCounted(read, keys, session);
    HowManySome(keys, key, Naming(read, session));
    assert Listed(read, keys, session) in landed;
  }

  lemma ListingReads(read: ReadKey, keys: seq<string>, landed: seq<Landed>)
    requires IsListing(read, keys, landed)
    ensures ListsKeys(read, keys, landed)
  {
    forall rec | rec in landed
      ensures rec.objects == HowMany(keys, Naming(read, rec.sessionId)) > 0 && IsLatest(read, keys, rec.sessionId, rec.latest)
    {
      ObjectsCounted(read, keys, rec.sessionId);
      LatestIs(read, keys, rec.sessionId);
    }
    forall key | key in keys && read(key).session.Some? ensures exists rec :: rec in landed && rec.sessionId == read(key).session.value {
      SessionListed(read, keys, landed, key);
    }
    forall i, j | 0 <= i < j < |landed| ensures ListedBefore(landed[i], landed[j]) {
      assert NewestFirst()(landed[i], landed[j]) && SessionsOf(landed)[i] != SessionsOf(landed)[j];
      ListedApart(landed[i], landed[j]);
    }
  }

  lemma ListedApart(a: Landed, b: Landed)
    requires NewerOrSame(a, b) && a.sessionId != b.sessionId
    ensures ListedBefore(a, b)
  {
    StringOrder(a.sessionId, b.sessionId);
    StringLessIs(b.sessionId, a.sessionId);
    if a.latest.Some? && b.latest.Some? {
      StringLessIs(b.latest.value, a.latest.value);
    }
  }

  // ----- the plan -----

  /** The landing-object count of the manifest a recording has, when it has a readable one. */
  type Manifests = string -> Option<nat>

  /** `plan_in`'s filter: no seal, or a landing grown past it. */
  predicate Planned(rec: Landed, existing: Option<nat>) {
    existing.None? || rec.objects > existing.value
  }

  function IsPlanned(manifests: Manifests): Landed -> bool {
    (rec: Landed) => Planned(rec, manifests(rec.sessionId))
  }

  function PlanOf(landed: seq<Landed>, manifests: Manifests): seq<string> {
    SessionsOf(Filter(landed, IsPlanned(manifests)))
  }

  lemma {:induction false} FilterSessions(landed: seq<Landed>, keep: Landed -> bool)
    requires NoDup(SessionsOf(landed))
    ensures NoDup(SessionsOf(Filter(landed, keep)))
  {
    if landed != [] {
      var init, last := landed[..|landed| - 1], landed[|landed| - 1];
      assert landed == init + [last];
      assert SessionsOf(landed) == SessionsOf(init) + [last.sessionId];
      NoDupParts(SessionsOf(init), [last.sessionId]);
      FilterSessions(init, keep);
      var kept := Filter(init, keep);
      assert last.sessionId !in SessionsOf(kept) by {
        forall i | 0 <= i < |kept| ensures kept[i].sessionId != last.sessionId {
          SessionElsewhere(init, keep, last, i);
        }
      }
      NoDupJoin(SessionsOf(kept), [last.sessionId]);
      assert SessionsOf(kept + [last]) == SessionsOf(kept) + [last.sessionId];
      assert kept + [] == kept;
      assert Filter(landed, keep) == if keep(last) then kept + [last] else kept;
    }
  }

  lemma SessionElsewhere(init: seq<Landed>, keep: Landed -> bool, last: Landed, i: nat)
    requires NoDup(SessionsOf(init) + [last.sessionId]) && i < |Filter(init, keep)|
    ensures Filter(init, keep)[i].sessionId != last.sessionId
  {
    FilterMembers(init, keep, Filter(init, keep)[i]);
    assert Filter(init, keep)[i] in Filter(init, keep);
    var j :| 0 <= j < |init| && init[j] == Filter(init, keep)[i];
    var all := SessionsOf(init) + [last.sessionId];
    assert all[j] != all[|init|];
  }

  /** `plan_in`: each listed recording without a seal, or grown past it, once. */
  method PlanIn(read: ReadKey, keys: seq<string>, manifests: Manifests) returns (planned: seq<string>)
    ensures NoDup(planned)
    ensures forall id :: id in planned <==>
              var listed := HowMany(keys, Naming(read, id)); listed > 0 && (manifests(id).None? || listed > manifests(id).value)
    ensures exists landed :: IsListing(read, keys, landed) && planned == PlanOf(landed, manifests)
  {
    var landed := IndexLandedKeys(read, keys);
    planned := PlanOf(landed, manifests);
    FilterSessions(landed, IsPlanned(manifests));
    forall id ensures id in planned <==>
      var listed := HowMany(keys, Naming(read, id)); listed > 0 && (manifests(id).None? || listed > manifests(id).value)
    {
      PlannedIff(read, keys, landed, manifests, id);
    }
  }

  lemma PlannedIff(read: ReadKey, keys: seq<string>, landed: seq<Landed>, manifests: Manifests, id: string)
    requires IsListing(read, keys, landed)
    ensures id in PlanOf(landed, manifests) <==>
              var listed := HowMany(keys, Naming(read, id)); listed > 0 && (manifests(id).None? || listed > manifests(id).value)
  {
    var kept, rec := Filter(landed, IsPlanned(manifests)), Listed(read, keys, id);
    ObjectsCounted(read, keys, id);
    FilterMembers(landed, IsPlanned(manifests), rec);
    if id in PlanOf(landed, manifests) {
      var i :| 0 <= i < |kept| && SessionsOf(kept)[i] == id;
      FilterMembers(landed, IsPlanned(manifests), kept[i]);
    }
    if rec in kept {
      var i :| 0 <= i < |kept| && kept[i] == rec;
      assert SessionsOf(kept)[i] == id;
    }
  }

  /** The object count in the manifest of each sealed session. */
  function ManifestsIn(objects: SealPlan.Objects): Manifests {
    (id: string) =>
      var key := SealPlan.ManifestKey(id);
      if key in objects && objects[key].Sealed? then Some(objects[key].manifest.counts.landingObjects) else None
  }

  /** A recording sealed from some objects is planned again exactly when more than those are listed. */
  lemma PlannedAgainIffGrown(read: ReadKey, keys: seq<string>, landed: seq<Landed>, objects: SealPlan.Objects,
                             digest: SealPlan.Digest, job: SealPlan.Job)
    requires IsListing(read, keys, landed) && job.collated.graphNodes <= |job.collated.events|
    requires SealPlan.ManifestKey(job.session) in objects
    requires objects[SealPlan.ManifestKey(job.session)] == SealPlan.Sealed(SealPlan.ManifestOf(digest, job))
    ensures job.session in PlanOf(landed, ManifestsIn(objects)) <==> HowMany(keys, Naming(read, job.session)) > job.landingObjects
  {
    PlannedIff(read, keys, landed, ManifestsIn(objects), job.session);
  }

  // ----- the same rule, once more per recording -----

  datatype Readiness = Absent | Active(objects: nat) | Complete(objects: nat) | Quiesced(objects: nat)

  function ObjectsLanded(r: Readiness): nat {
    if r.Absent? then 0 else r.objects
  }

  predicate ShouldSeal(r: Readiness) {
    r.Complete? || r.Quiesced?
  }

  datatype Decision = Seal(resealing: bool) | Current(sealedObjects: nat) | Wait

  /** `seal_decision`: `existing` is the landing-object count of the manifest, when there is one. */
  function SealDecision(existing: Option<nat>, readiness: Readiness): Decision {
    if existing.Some? && ObjectsLanded(readiness) <= existing.value then Current(existing.value)
    else if !ShouldSeal(readiness) then Wait
    else Seal(existing.Some?)
  }

  /** While the landing is as it was listed, a recording left out of the plan is exactly one whose seal the
      decision calls current; a planned one is sealed as soon as it is ready. */
  lemma PlanAgreesWithDecision(rec: Landed, existing: Option<nat>, readiness: Readiness)
    requires ObjectsLanded(readiness) == rec.objects
    ensures !Planned(rec, existing) <==> SealDecision(existing, readiness).Current?
    ensures Planned(rec, existing) && ShouldSeal(readiness) <==> SealDecision(existing, readiness).Seal?
  {
  }
}
