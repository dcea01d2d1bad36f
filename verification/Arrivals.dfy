/** Landed lines, what each one parses to, and which record keeps a key. */
module Arrivals {
  import opened Common
  import opened Sequences
  import opened Records
  import opened MergeSpec
  import opened Coverage

  /** What one landed line turns out to be. */
  datatype Probe =
    | Blank
    | NotEnvelope
    | Marker(dropped: bool, instance: Option<string>, ranges: Option<seq<Range>>)
    | NoPayload
    | BadEvent
    | Record(instance: Option<string>, kind: RecordKind, gseq: u64, correlation: Option<string>, boundary: string, role: Option<string>)

  /** Parsing is a function of the line alone. */
  type Parse = string -> Probe

  function AcceptedFrom(line: string, probe: Probe): Accepted
    requires probe.Record?
  {
    Accepted(if probe.instance.Some? then probe.instance.value else "unknown",
             probe.kind, probe.gseq, probe.correlation, probe.boundary, probe.role, line)
  }

  // ----- what every line contributes, whatever came before it -----

  function FlatMap<T>(lines: seq<string>, f: string -> seq<T>): seq<T> {
    if lines == [] then [] else FlatMap(lines[..|lines| - 1], f) + f(lines[|lines| - 1])
  }

  lemma {:induction false} FlatMapJoin<T>(a: seq<string>, b: seq<string>, f: string -> seq<T>)
    ensures FlatMap(a + b, f) == FlatMap(a, f) + FlatMap(b, f)
    decreases |b|
  {
    if b == [] {
      assert a + b == a;
    } else {
      assert (a + b)[..|a + b| - 1] == a + b[..|b| - 1];
      FlatMapJoin(a, b[..|b| - 1], f);
    }
  }

  lemma FlatMapNext<T>(lines: seq<string>, line: string, f: string -> seq<T>)
    ensures FlatMap(lines + [line], f) == FlatMap(lines, f) + f(line)
  {
    assert (lines + [line])[..|lines|] == lines;
  }

  lemma {:induction false} FlatMapPermuted<T>(a: seq<string>, b: seq<string>, f: string -> seq<T>)
    requires multiset(a) == multiset(b)
    ensures multiset(FlatMap(a, f)) == multiset(FlatMap(b, f))
    decreases |a|
  {
    if a == [] {
      assert |multiset(b)| == |b|;
    } else {
      var init, last := a[..|a| - 1], a[|a| - 1];
      var front, back := WithoutOne(a, b);
      FlatMapPermuted(init, front + back, f);
      FlatMapJoin(front, back, f);
      FlatMapNext(front, last, f);
      FlatMapJoin(front + [last], back, f);
    }
  }

  function RecordIn(parse: Parse): string -> seq<Accepted> {
    line => if parse(line).Record? then [AcceptedFrom(line, parse(line))] else []
  }

  function LineIn(parse: Parse): string -> seq<string> {
    line => if parse(line).Blank? then [] else [line]
  }

  /** The ranges a `dropped` marker of this instance says the recorder shed. */
  function ShedIn(parse: Parse, instance: string): string -> seq<Range> {
    line =>
      var probe := parse(line);
      if probe.Marker? && probe.dropped && probe.instance == Some(instance) && probe.ranges.Some? then probe.ranges.value else []
  }

  function RecordsOf(parse: Parse, lines: seq<string>): seq<Accepted> {
    FlatMap(lines, RecordIn(parse))
  }

  function ShedOf(parse: Parse, lines: seq<string>, instance: string): seq<Range> {
    FlatMap(lines, ShedIn(parse, instance))
  }

  function LinesIn(parse: Parse, lines: seq<string>): nat {
    |FlatMap(lines, LineIn(parse))|
  }

  // ----- the first record of a key keeps it -----

  ghost function Keys(recs: seq<Accepted>): set<Key> {
    set a | a in recs :: KeyOf(a)
  }

  /** The records whose key is new: not met before, nor earlier in this list. */
  ghost function Fresh(met: set<Key>, recs: seq<Accepted>): seq<Accepted> {
    if recs == [] then []
    else
      var init, last := recs[..|recs| - 1], recs[|recs| - 1];
      Fresh(met, init) + if KeyOf(last) in met || KeyOf(last) in Keys(init) then [] else [last]
  }

  lemma FreshNext(met: set<Key>, recs: seq<Accepted>, a: Accepted)
    ensures Fresh(met, recs + [a]) == Fresh(met, recs) + if KeyOf(a) in met || KeyOf(a) in Keys(recs) then [] else [a]
    ensures Keys(recs + [a]) == Keys(recs) + {KeyOf(a)}
  {
    assert (recs + [a])[..|recs|] == recs;
    assert a in recs + [a];
    forall k ensures k in Keys(recs + [a]) <==> k in Keys(recs) || k == KeyOf(a) {
      if k in Keys(recs) {
        var x :| x in recs && KeyOf(x) == k;
        assert x in recs + [a];
      }
    }
  }

  lemma KeysJoin(a: seq<Accepted>, b: seq<Accepted>)
    ensures Keys(a + b) == Keys(a) + Keys(b)
  {
    forall k ensures k in Keys(a + b) <==> k in Keys(a) || k in Keys(b) {
      if k in Keys(a) {
        var x :| x in a && KeyOf(x) == k;
        assert x in a + b;
      }
      if k in Keys(b) {
        var x :| x in b && KeyOf(x) == k;
        assert x in a + b;
      }
    }
  }

  lemma FreshJoinNext(met: set<Key>, a: seq<Accepted>, init: seq<Accepted>, last: Accepted)
    requires Fresh(met, a + init) == Fresh(met, a) + Fresh(met + Keys(a), init)
    ensures Fresh(met, (a + init) + [last]) == Fresh(met, a) + Fresh(met + Keys(a), init + [last])
  {
    KeysJoin(a, init);
    FreshNext(met, a + init, last);
    FreshNext(met + Keys(a), init, last);
  }

  lemma {:induction false} FreshJoin(met: set<Key>, a: seq<Accepted>, b: seq<Accepted>)
    ensures Fresh(met, a + b) == Fresh(met, a) + Fresh(met + Keys(a), b)
    ensures Keys(a + b) == Keys(a) + Keys(b)
    decreases |b|
  {
    KeysJoin(a, b);
    if b == [] {
      assert a + b == a;
    } else {
      var init, last := b[..|b| - 1], b[|b| - 1];
      assert a + b == (a + init) + [last] && b == init + [last];
      FreshJoin(met, a, init);
      FreshJoinNext(met, a, init, last);
    }
  }

  ghost predicate DistinctKeys(recs: seq<Accepted>) {
    forall i, j :: 0 <= i < j < |recs| ==> KeyOf(recs[i]) != KeyOf(recs[j])
  }

  lemma DistinctKeysGrow(recs: seq<Accepted>, a: Accepted)
    requires DistinctKeys(recs) && KeyOf(a) !in Keys(recs)
    ensures DistinctKeys(recs + [a])
  {
    forall i | 0 <= i < |recs| ensures KeyOf(recs[i]) != KeyOf(a) {
      assert recs[i] in recs;
      assert KeyOf(recs[i]) in Keys(recs);
    }
  }

  lemma {:induction false} FreshInside(met: set<Key>, recs: seq<Accepted>)
    ensures forall a :: a in Fresh(met, recs) ==> a in recs
  {
    if recs != [] {
      FreshInside(met, recs[..|recs| - 1]);
    }
  }

  lemma {:induction false} FreshKeys(met: set<Key>, recs: seq<Accepted>)
    ensures Keys(Fresh(met, recs)) == Keys(recs) - met
  {
    if recs != [] {
      var init, last := recs[..|recs| - 1], recs[|recs| - 1];
      assert recs == init + [last];
      FreshKeys(met, init);
      FreshNext(met, init, last);
      FreshNext({}, Fresh(met, init), last);
    }
  }

  lemma {:induction false} FreshDistinct(met: set<Key>, recs: seq<Accepted>)
    ensures DistinctKeys(Fresh(met, recs))
  {
    if recs != [] {
      var init, last := recs[..|recs| - 1], recs[|recs| - 1];
      FreshDistinct(met, init);
      FreshKeys(met, init);
      if KeyOf(last) !in Keys(init) {
        DistinctKeysGrow(Fresh(met, init), last);
      }
    }
  }

  /** One record per key met; and the one kept for a key is some record that carries it. */
  lemma FreshIs(met: set<Key>, recs: seq<Accepted>)
    ensures DistinctKeys(Fresh(met, recs)) && Keys(Fresh(met, recs)) == Keys(recs) - met
    ensures forall a :: a in Fresh(met, recs) ==> a in recs
  {
    FreshInside(met, recs);
    FreshKeys(met, recs);
    FreshDistinct(met, recs);
  }

  // ----- objects -----

  function Concat(objects: seq<seq<string>>): seq<string> {
    if objects == [] then [] else Concat(objects[..|objects| - 1]) + objects[|objects| - 1]
  }

  /** Each object's run: its records whose key no earlier line carried. An object that adds none is an empty run. */
  ghost function FirstRuns(parse: Parse, objects: seq<seq<string>>): Runs {
    if objects == [] then []
    else
      var before := objects[..|objects| - 1];
      FirstRuns(parse, before) + [Fresh(Keys(RecordsOf(parse, Concat(before))), RecordsOf(parse, objects[|objects| - 1]))]
  }

  /** Together the runs hold what one pass over all the lines would keep. */
  lemma {:induction false} RunsHoldFirsts(parse: Parse, objects: seq<seq<string>>)
    ensures Flat(FirstRuns(parse, objects)) == Fresh({}, RecordsOf(parse, Concat(objects)))
    ensures |FirstRuns(parse, objects)| == |objects|
  {
    if objects != [] {
      var before, last := objects[..|objects| - 1], objects[|objects| - 1];
      RunsHoldFirsts(parse, before);
      var runs := FirstRuns(parse, objects);
      assert runs[..|runs| - 1] == FirstRuns(parse, before);
      FlatMapJoin(Concat(before), last, RecordIn(parse));
      FreshJoin({}, RecordsOf(parse, Concat(before)), RecordsOf(parse, last));
      assert {} + Keys(RecordsOf(parse, Concat(before))) == Keys(RecordsOf(parse, Concat(before)));
    }
  }

  // ----- when arrival order cannot matter -----

  /** Records with the same key are the same record: a redelivered line is the same line. */
  ghost predicate KeyFixesRecord(recs: seq<Accepted>) {
    forall a, b :: a in recs && b in recs && KeyOf(a) == KeyOf(b) ==> a == b
  }

  ghost function Sealed(recs: seq<Accepted>): seq<Accepted> {
    Sort(Fresh({}, recs), InSealOrder())
  }

  lemma NoDupOfDistinctKeys(recs: seq<Accepted>)
    requires DistinctKeys(recs)
    ensures NoDup(recs)
  {
  }

  lemma SealedIs(recs: seq<Accepted>)
    ensures Tape(Sealed(recs)) && DistinctKeys(Sealed(recs)) && multiset(Sealed(recs)) == multiset(Fresh({}, recs))
    ensures forall a :: a in Sealed(recs) <==> a in Fresh({}, recs)
  {
    var kept, out := Fresh({}, recs), Sealed(recs);
    SealOrderTotal();
    FreshIs({}, recs);
    SortSorts(kept, InSealOrder());
    forall a ensures a in out <==> a in kept {
      assert a in multiset(out) <==> a in multiset(kept);
    }
    NoDupOfDistinctKeys(kept);
    NoDupFromMultiset(kept, out);
    forall i, j | 0 <= i < j < |out| ensures KeyLess(KeyOf(out[i]), KeyOf(out[j])) {
      assert InSealOrder()(out[i], out[j]) && out[i] in kept && out[j] in kept;
      KeyOrder(KeyOf(out[i]), KeyOf(out[j]));
      KeyOrder(KeyOf(out[i]), KeyOf(out[i]));
      assert out[i] != out[j];
    }
    forall i, j | 0 <= i < j < |out| ensures KeyOf(out[i]) != KeyOf(out[j]) {
      KeyOrder(KeyOf(out[i]), KeyOf(out[i]));
    }
  }

  /** Each key is represented; with the key fixing the record, by that record. */
  lemma FreshHoldsAll(recs: seq<Accepted>, a: Accepted)
    requires KeyFixesRecord(recs)
    ensures a in Fresh({}, recs) <==> a in recs
  {
    FreshIs({}, recs);
    if a in recs {
      assert KeyOf(a) in Keys(recs);
      var b :| b in Fresh({}, recs) && KeyOf(b) == KeyOf(a);
    }
  }

  lemma SealedSameElements(a: seq<Accepted>, b: seq<Accepted>)
    requires multiset(a) == multiset(b) && KeyFixesRecord(a)
    ensures multiset(Sealed(a)) == multiset(Sealed(b))
  {
    forall x ensures x in a <==> x in b {
      assert x in multiset(a) <==> x in multiset(b);
    }
    assert KeyFixesRecord(b);
    SealedIs(a);
    SealedIs(b);
    NoDupOfDistinctKeys(Sealed(a));
    NoDupOfDistinctKeys(Sealed(b));
    forall x ensures x in Sealed(a) <==> x in Sealed(b) {
      FreshHoldsAll(a, x);
      FreshHoldsAll(b, x);
    }
    SameElements(Sealed(a), Sealed(b));
  }

  /** Two arrival orders of the same records seal the same events. */
  lemma SealedPermuted(a: seq<Accepted>, b: seq<Accepted>)
    requires multiset(a) == multiset(b) && KeyFixesRecord(a)
    ensures Sealed(a) == Sealed(b)
  {
    SealedSameElements(a, b);
    SealOrderTotal();
    SealedIs(a);
    forall x, y | x in Sealed(a) && y in Sealed(a) && InSealOrder()(x, y) && InSealOrder()(y, x) ensures x == y {
      SameKeySame(Sealed(a), x, y);
    }
    SortSorts(Fresh({}, a), InSealOrder());
    SortSorts(Fresh({}, b), InSealOrder());
    SortedUnique(Sealed(a), Sealed(b), InSealOrder());
  }

  lemma SameKeySame(recs: seq<Accepted>, x: Accepted, y: Accepted)
    requires DistinctKeys(recs) && x in recs && y in recs && KeyOf(x) == KeyOf(y)
    ensures x == y
  {
    var i :| 0 <= i < |recs| && recs[i] == x;
    var j :| 0 <= j < |recs| && recs[j] == y;
    assert i == j;
  }

  /** The first to arrive keeps the key. */
  lemma FirstKept(x: Accepted, rest: seq<Accepted>)
    ensures x in Sealed([x] + rest)
    ensures forall y :: y in Sealed([x] + rest) && KeyOf(y) == KeyOf(x) ==> y == x
  {
    FreshJoin({}, [x], rest);
    FreshNext({}, [], x);
    assert [] + [x] == [x];
    SealedIs([x] + rest);
    assert Fresh({}, [x]) == [x];
    forall y | y in Sealed([x] + rest) && KeyOf(y) == KeyOf(x) ensures y == x {
      SameKeySame(Sealed([x] + rest), x, y);
    }
  }

  lemma BringForward(recs: seq<Accepted>, x: Accepted) returns (rest: seq<Accepted>)
    requires x in recs
    ensures multiset([x] + rest) == multiset(recs)
  {
    var i :| 0 <= i < |recs| && recs[i] == x;
    rest := recs[..i] + recs[i + 1..];
    assert recs == recs[..i] + [recs[i]] + recs[i + 1..];
  }

  /** What is sealed is independent of arrival order exactly when no two different records share a key. */
  lemma OrderIrrelevantIffKeyFixesRecord(recs: seq<Accepted>)
    ensures (forall other :: multiset(other) == multiset(recs) ==> Sealed(other) == Sealed(recs)) <==> KeyFixesRecord(recs)
  {
    if KeyFixesRecord(recs) {
      forall other | multiset(other) == multiset(recs) ensures Sealed(other) == Sealed(recs) {
        SealedPermuted(recs, other);
      }
    } else {
      var x, y :| x in recs && y in recs && KeyOf(x) == KeyOf(y) && x != y;
      var xs := BringForward(recs, x);
      var ys := BringForward(recs, y);
      FirstKept(x, xs);
      FirstKept(y, ys);
      assert Sealed([x] + xs) != Sealed([y] + ys);
    }
  }
}
