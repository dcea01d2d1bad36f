/** One side's forests and annex, and the re-checkable balance over them. */
module ForestSets {
  import opened Common
  import opened Sequences
  import opened ForestModel

  datatype Annex = Annex(namesNoNode: seq<nat>, namesAbsentNode: seq<nat>, noCounterpart: seq<nat>)

  /** `forests` is keyed by correlation; the key `None` is the ambient forest. */
  datatype ForestSet = ForestSet(
    forests: map<Option<string>, Forest>,
    annex: Annex,
    unusable: map<string, seq<(Id, Id)>>)

  datatype BuildError =
    | Imbalanced(eventsIn: nat, attached: nat, annexed: nat)
    | NodePartition(nodeId: Id, forests: nat)

  type Home = (Option<string>, Id)

  function AnnexedSequences(annex: Annex): seq<nat> {
    annex.namesNoNode + annex.namesAbsentNode + annex.noCounterpart
  }

  /** The event list of every node, keyed by the forest it is in and its id. */
  function NodeSlots(fs: ForestSet): map<Home, seq<nat>> {
    map c, n | c in fs.forests && n in fs.forests[c].nodes :: (c, n) := fs.forests[c].nodes[n].events
  }

  lemma SlotOf(fs: ForestSet, h: Home)
    ensures h in NodeSlots(fs) <==> h.0 in fs.forests && h.1 in fs.forests[h.0].nodes
    ensures h in NodeSlots(fs) ==> NodeSlots(fs)[h] == fs.forests[h.0].nodes[h.1].events
  {
    if h.0 in fs.forests && h.1 in fs.forests[h.0].nodes {
      assert (h.0, h.1) in NodeSlots(fs);
    }
  }

  // ----- gathering many lists into one multiset -----

  ghost function Gather<K>(slots: map<K, seq<nat>>): multiset<nat>
    decreases |slots|
  {
    if slots == map[] then multiset{} else
      assert slots.Keys != {};
      var k :| k in slots;
      assert (slots - {k}).Keys == slots.Keys - {k};
      multiset(slots[k]) + Gather(slots - {k})
  }

  lemma {:induction false} GatherHas<K>(slots: map<K, seq<nat>>, x: nat)
    ensures x in Gather(slots) <==> exists k :: k in slots && x in slots[k]
    decreases |slots|
  {
    if slots != map[] {
      assert slots.Keys != {};
      var j :| j in slots && Gather(slots) == multiset(slots[j]) + Gather(slots - {j});
      assert (slots - {j}).Keys == slots.Keys - {j};
      GatherHas(slots - {j}, x);
      if k :| k in slots && x in slots[k] {
        assert k != j ==> k in slots - {j} && (slots - {j})[k] == slots[k];
      }
      if k :| k in slots - {j} && x in (slots - {j})[k] {
        assert k in slots && slots[k] == (slots - {j})[k];
      }
    }
  }

  lemma {:induction false} GatherRemove<K>(slots: map<K, seq<nat>>, k: K)
    requires k in slots
    ensures Gather(slots) == multiset(slots[k]) + Gather(slots - {k})
    decreases |slots|
  {
    assert slots.Keys != {};
    var j :| j in slots && Gather(slots) == multiset(slots[j]) + Gather(slots - {j});
    if j != k {
      assert (slots - {j}).Keys == slots.Keys - {j} && (slots - {k}).Keys == slots.Keys - {k};
      GatherRemove(slots - {j}, k);
      GatherRemove(slots - {k}, j);
      assert slots - {j} - {k} == slots - {k} - {j};
    }
  }

  ghost function AllSequences(fs: ForestSet): multiset<nat> {
    Gather(NodeSlots(fs)) + multiset(AnnexedSequences(fs.annex))
  }

  // ----- what balance asks -----

  ghost predicate NoRepeats(m: multiset<nat>) {
    forall x :: m[x] <= 1
  }

  ghost predicate IdsAgree(fs: ForestSet) {
    forall c, n :: c in fs.forests && n in fs.forests[c].nodes ==> fs.forests[c].nodes[n].nodeId == n
  }

  ghost predicate OneForestEach(fs: ForestSet) {
    forall c, d, n :: c in fs.forests && d in fs.forests && n in fs.forests[c].nodes && n in fs.forests[d].nodes ==> c == d
  }

  ghost predicate Balanced(fs: ForestSet, eventsIn: nat) {
    IdsAgree(fs) && OneForestEach(fs) && NoRepeats(AllSequences(fs)) && |AllSequences(fs)| == eventsIn
  }

  // ----- the running tally -----

  /** What the counters of the balance loop say about the sequences met so far. */
  ghost predicate Tally(m: multiset<nat>, count: nat, met: set<nat>, unique: bool) {
    && count == |m|
    && (forall x :: x in met <==> x in m)
    && (unique <==> NoRepeats(m))
  }

  lemma TallyNext(m: multiset<nat>, count: nat, met: set<nat>, unique: bool, x: nat)
    requires Tally(m, count, met, unique)
    ensures Tally(m + multiset{x}, count + 1, met + {x}, unique && x !in met)
  {
  }

  method Meet(sequences: seq<nat>, met: set<nat>, unique: bool, ghost m: multiset<nat>, ghost count: nat)
    returns (met': set<nat>, unique': bool)
    requires Tally(m, count, met, unique)
    ensures Tally(m + multiset(sequences), count + |sequences|, met', unique')
  {
    met', unique' := met, unique;
    for i := 0 to |sequences|
      invariant Tally(m + multiset(sequences[..i]), count + i, met', unique')
    {
      var x := sequences[i];
      assert sequences[..i + 1] == sequences[..i] + [x];
      assert m + multiset(sequences[..i + 1]) == m + multiset(sequences[..i]) + multiset{x};
      TallyNext(m + multiset(sequences[..i]), count + i, met', unique', x);
      unique' := unique' && x !in met';
      met' := met' + {x};
    }
    assert sequences[..|sequences|] == sequences;
  }

  lemma {:induction false} SizeOfDistinct(m: multiset<nat>, s: set<nat>)
    requires forall x :: x in s <==> x in m
    requires NoRepeats(m)
    ensures |s| == |m|
    decreases |s|
  {
    if s != {} {
      var x :| x in s;
      SizeOfDistinct(m - multiset{x}, s - {x});
    } else {
      assert m == multiset{};
    }
  }

  function Homes(visited: set<Home>, n: Id): set<Home> {
    set h | h in visited && h.1 == n
  }

  ghost predicate PlacementsCount(placements: map<Id, nat>, visited: set<Home>) {
    && (forall h :: h in visited ==> h.1 in placements)
    && (forall n :: n in placements ==> placements[n] == |Homes(visited, n)| && placements[n] > 0)
  }

  lemma CountOneMore(placements: map<Id, nat>, visited: set<Home>, h: Home)
    requires PlacementsCount(placements, visited) && h !in visited
    ensures PlacementsCount(placements[h.1 := (if h.1 in placements then placements[h.1] else 0) + 1], visited + {h})
  {
    forall n ensures Homes(visited + {h}, n) == if n == h.1 then Homes(visited, n) + {h} else Homes(visited, n) {
    }
    if h.1 !in placements {
      assert Homes(visited, h.1) == {};
    }
  }

  lemma SingleHome(fs: ForestSet, n: Id)
    requires OneForestEach(fs) && Homes(NodeSlots(fs).Keys, n) != {}
    ensures |Homes(NodeSlots(fs).Keys, n)| == 1
  {
    var h :| h in Homes(NodeSlots(fs).Keys, n);
    assert Homes(NodeSlots(fs).Keys, n) == {h};
  }

  lemma SameHome(fs: ForestSet, placements: map<Id, nat>, c: Option<string>, d: Option<string>, n: Id)
    requires c in fs.forests && d in fs.forests && n in fs.forests[c].nodes && n in fs.forests[d].nodes
    requires PlacementsCount(placements, NodeSlots(fs).Keys) && forall n :: n in placements ==> placements[n] == 1
    ensures c == d
  {
    var homes := Homes(NodeSlots(fs).Keys, n);
    assert (c, n) in NodeSlots(fs) && (d, n) in NodeSlots(fs);
    assert {(c, n)} <= homes && (d, n) in homes;
    SubsetSize({(c, n)}, homes);
    assert homes == {(c, n)};
  }

  lemma OneHomeEach(fs: ForestSet, placements: map<Id, nat>)
    requires PlacementsCount(placements, NodeSlots(fs).Keys)
    ensures OneForestEach(fs) <==> forall n :: n in placements ==> placements[n] == 1
  {
    if OneForestEach(fs) {
      forall n | n in placements ensures placements[n] == 1 {
        SingleHome(fs, n);
      }
    }
    if forall n :: n in placements ==> placements[n] == 1 {
      forall c, d, n | c in fs.forests && d in fs.forests && n in fs.forests[c].nodes && n in fs.forests[d].nodes
        ensures c == d
      {
        SameHome(fs, placements, c, d, n);
      }
    }
  }

  ghost function Visited(slots: map<Home, seq<nat>>, visited: seq<Home>): map<Home, seq<nat>> {
    map h | h in slots && h in visited :: slots[h]
  }

  lemma VisitOneMore(slots: map<Home, seq<nat>>, visited: seq<Home>, h: Home)
    requires h in slots && h !in visited
    ensures Gather(Visited(slots, visited + [h])) == Gather(Visited(slots, visited)) + multiset(slots[h])
  {
    var more := Visited(slots, visited + [h]);
    GatherRemove(more, h);
    assert more - {h} == Visited(slots, visited);
  }

  predicate IdAgrees(fs: ForestSet, h: Home) {
    h.0 in fs.forests && h.1 in fs.forests[h.0].nodes && fs.forests[h.0].nodes[h.1].nodeId == h.1
  }

  ghost predicate MisfiledAt(fs: ForestSet, h: Home, id: Id) {
    h.0 in fs.forests && h.1 in fs.forests[h.0].nodes && fs.forests[h.0].nodes[h.1].nodeId == id != h.1
  }

  /** Some node of this id is kept under another. */
  ghost predicate Misfiled(fs: ForestSet, id: Id) {
    exists h :: MisfiledAt(fs, h, id)
  }

  ghost predicate IdsAgreeAt(fs: ForestSet, homes: seq<Home>) {
    forall i :: 0 <= i < |homes| ==> IdAgrees(fs, homes[i])
  }

  /** What the balance loop has counted once `visited` homes have been met. */
  datatype Counts = Counts(placements: map<Id, nat>, met: set<nat>, unique: bool, attached: nat)

  ghost predicate Counted(slots: map<Home, seq<nat>>, visited: seq<Home>, c: Counts) {
    && PlacementsCount(c.placements, ToSet(visited))
    && Tally(Gather(Visited(slots, visited)), c.attached, c.met, c.unique)
  }

  lemma CountedGrows(slots: map<Home, seq<nat>>, visited: seq<Home>, h: Home, placements: map<Id, nat>)
    requires PlacementsCount(placements, ToSet(visited)) && h in slots && h !in visited
    ensures PlacementsCount(placements[h.1 := (if h.1 in placements then placements[h.1] else 0) + 1], ToSet(visited + [h]))
    ensures Gather(Visited(slots, visited + [h])) == Gather(Visited(slots, visited)) + multiset(slots[h])
  {
    CountOneMore(placements, ToSet(visited), h);
    VisitOneMore(slots, visited, h);
    assert ToSet(visited + [h]) == ToSet(visited) + {h};
  }

  method CountHome(h: Home, events: seq<nat>, c: Counts, ghost slots: map<Home, seq<nat>>, ghost visited: seq<Home>)
    returns (c': Counts)
    requires Counted(slots, visited, c) && h in slots && h !in visited && slots[h] == events
    ensures Counted(slots, visited + [h], c')
  {
    CountedGrows(slots, visited, h, c.placements);
    var met, unique := Meet(events, c.met, c.unique, Gather(Visited(slots, visited)), c.attached);
    var placements := c.placements[h.1 := (if h.1 in c.placements then c.placements[h.1] else 0) + 1];
    c' := Counts(placements, met, unique, c.attached + |events|);
  }

  ghost predicate Enumerated(fs: ForestSet, homes: seq<Home>) {
    NoDup(homes) && forall i :: 0 <= i < |homes| ==> homes[i].0 in fs.forests && homes[i].1 in fs.forests[homes[i].0].nodes
  }

  lemma AllEnumerated(fs: ForestSet, homes: seq<Home>)
    requires NoDup(homes) && ToSet(homes) == NodeSlots(fs).Keys
    ensures Enumerated(fs, homes)
  {
    forall i | 0 <= i < |homes| ensures homes[i].0 in fs.forests && homes[i].1 in fs.forests[homes[i].0].nodes {
      assert homes[i] in ToSet(homes);
      SlotOf(fs, homes[i]);
    }
  }

  /** The first `i` homes agree on their ids and are counted. */
  ghost predicate CountedTo(fs: ForestSet, homes: seq<Home>, i: nat, c: Counts) {
    i <= |homes| && IdsAgreeAt(fs, homes[..i]) && Counted(NodeSlots(fs), homes[..i], c)
  }

  lemma NoneCounted(fs: ForestSet, homes: seq<Home>)
    ensures CountedTo(fs, homes, 0, Counts(map[], {}, true, 0))
  {
    assert homes[..0] == [];
    assert Visited(NodeSlots(fs), []) == map[];
  }

  lemma AllCounted(fs: ForestSet, homes: seq<Home>, c: Counts)
    requires CountedTo(fs, homes, |homes|, c)
    ensures IdsAgreeAt(fs, homes) && Counted(NodeSlots(fs), homes, c)
  {
    assert homes[..|homes|] == homes;
  }

  lemma NextHome(fs: ForestSet, homes: seq<Home>, i: nat)
    requires Enumerated(fs, homes) && i < |homes|
    ensures homes[..i + 1] == homes[..i] + [homes[i]] && homes[i] !in homes[..i]
    ensures homes[i].0 in fs.forests && homes[i].1 in fs.forests[homes[i].0].nodes
    ensures homes[i] in NodeSlots(fs) && NodeSlots(fs)[homes[i]] == fs.forests[homes[i].0].nodes[homes[i].1].events
  {
    SlotOf(fs, homes[i]);
  }

  lemma AgreeNext(fs: ForestSet, homes: seq<Home>, i: nat)
    requires i < |homes| && IdsAgreeAt(fs, homes[..i])
    ensures IdAgrees(fs, homes[i]) ==> IdsAgreeAt(fs, homes[..i + 1])
    ensures !IdAgrees(fs, homes[i]) ==> !IdsAgreeAt(fs, homes)
  {
    assert forall j :: 0 <= j < i ==> homes[..i + 1][j] == homes[..i][j];
  }

  /** One home's turn: its id is checked, then its events are met. */
  method VisitHome(fs: ForestSet, homes: seq<Home>, i: nat, c: Counts) returns (mismatch: Option<Id>, c': Counts)
    requires Enumerated(fs, homes) && i < |homes| && CountedTo(fs, homes, i, c)
    ensures mismatch.None? ==> CountedTo(fs, homes, i + 1, c')
    ensures mismatch.Some? ==> !IdsAgreeAt(fs, homes) && Misfiled(fs, mismatch.value)
  {
    NextHome(fs, homes, i);
    AgreeNext(fs, homes, i);
    var node := fs.forests[homes[i].0].nodes[homes[i].1];
    if node.nodeId != homes[i].1 {
      assert MisfiledAt(fs, homes[i], node.nodeId);
      return Some(node.nodeId), c;
    }
    mismatch := None;
    c' := CountHome(homes[i], node.events, c, NodeSlots(fs), homes[..i]);
  }

  /** The loop of `balance`: the nested loops over forests and nodes, as one loop over homes. */
  method CountHomes(fs: ForestSet, homes: seq<Home>) returns (mismatch: Option<Id>, c: Counts)
    requires Enumerated(fs, homes)
    ensures mismatch.None? <==> IdsAgreeAt(fs, homes)
    ensures mismatch.None? ==> Counted(NodeSlots(fs), homes, c)
    ensures mismatch.Some? ==> Misfiled(fs, mismatch.value)
  {
    mismatch, c := None, Counts(map[], {}, true, 0);
    NoneCounted(fs, homes);
    var i := 0;
    while i < |homes| && mismatch.None?
      invariant i <= |homes|
      invariant mismatch.None? ==> CountedTo(fs, homes, i, c)
      invariant mismatch.Some? ==> !IdsAgreeAt(fs, homes) && Misfiled(fs, mismatch.value)
    {
      mismatch, c := VisitHome(fs, homes, i, c);
      i := i + 1;
    }
    if mismatch.None? {
      AllCounted(fs, homes, c);
    }
  }

  /** The last comparison: every sequence counted, none twice, as many as went in. */
  method CheckSequences(fs: ForestSet, eventsIn: nat, c: Counts) returns (r: Result<(), BuildError>)
    requires Tally(Gather(NodeSlots(fs)), c.attached, c.met, c.unique)
    ensures r.Ok? <==> NoRepeats(AllSequences(fs)) && |AllSequences(fs)| == eventsIn
    ensures r.Err? ==> r.error == Imbalanced(eventsIn, |Gather(NodeSlots(fs))|, |AnnexedSequences(fs.annex)|)
  {
    var annexed := AnnexedSequences(fs.annex);
    var met, unique := Meet(annexed, c.met, c.unique, Gather(NodeSlots(fs)), c.attached);
    if unique {
      SizeOfDistinct(AllSequences(fs), met);
    }
    if c.attached + |annexed| != eventsIn || |met| != eventsIn || !unique {
      return Err(Imbalanced(eventsIn, c.attached, |annexed|));
    }
    return Ok(());
  }

  /** `ForestSet::balance`. */
  method Balance(fs: ForestSet, eventsIn: nat) returns (r: Result<(), BuildError>)
    ensures r.Ok? <==> Balanced(fs, eventsIn)
    ensures r.Err? ==> (r.error.NodePartition? <==> !(IdsAgree(fs) && OneForestEach(fs)))
    ensures r.Err? && r.error.NodePartition? ==>
              if r.error.forests == 0 then Misfiled(fs, r.error.nodeId)
              else IdsAgree(fs) && r.error.forests == |Homes(NodeSlots(fs).Keys, r.error.nodeId)| > 1
    ensures r.Err? && r.error.Imbalanced? ==>
              r.error == Imbalanced(eventsIn, |Gather(NodeSlots(fs))|, |AnnexedSequences(fs.annex)|)
  {
    var homes := AnyOrder(NodeSlots(fs).Keys);
    AllEnumerated(fs, homes);
    var mismatch, c := CountHomes(fs, homes);
    IdsCovered(fs, homes);
    if mismatch.Some? {
      return Err(NodePartition(mismatch.value, 0));
    }
    AllVisited(NodeSlots(fs), homes);
    OneHomeEach(fs, c.placements);
    if n :| n in c.placements && c.placements[n] != 1 {
      return Err(NodePartition(n, c.placements[n]));
    }
    r := CheckSequences(fs, eventsIn, c);
  }

  lemma AllVisited(slots: map<Home, seq<nat>>, homes: seq<Home>)
    requires ToSet(homes) == slots.Keys
    ensures Visited(slots, homes) == slots
  {
    assert forall h :: h in slots ==> h in ToSet(homes);
  }

  lemma IdsCovered(fs: ForestSet, homes: seq<Home>)
    requires ToSet(homes) == NodeSlots(fs).Keys
    ensures IdsAgreeAt(fs, homes) <==> IdsAgree(fs)
  {
    if IdsAgree(fs) {
      forall i | 0 <= i < |homes| ensures IdAgrees(fs, homes[i]) {
        assert homes[i] in ToSet(homes);
      }
    }
    if IdsAgreeAt(fs, homes) {
      forall c, n | c in fs.forests && n in fs.forests[c].nodes ensures fs.forests[c].nodes[n].nodeId == n {
        assert (c, n) in NodeSlots(fs);
        assert (c, n) in ToSet(homes);
        var i :| 0 <= i < |homes| && homes[i] == (c, n);
        assert IdAgrees(fs, homes[i]);
      }
    }
  }
}
