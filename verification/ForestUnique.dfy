/** The input alone determines what is built: no order of a hash container shows in the result. */
module ForestUnique {
  import opened Common
  import opened Sequences
  import opened ParentWalk
  import opened CycleChoice
  import opened CycleCuts
  import opened ForestModel
  import opened ForestStructure
  import opened ForestRollup
  import opened ForestSets
  import opened EventPlacement
  import opened EventAttachment
  import opened ForestFinish
  import opened ForestContents
  import opened ForestBuild

  // ----- the partition -----

  lemma SameHomes(nodes: seq<GraphNode>, a: Forests, b: Forests, c: Option<string>)
    requires Partitioned(nodes, a) && Partitioned(nodes, b) && c in a
    ensures c in b && a[c].nodes.Keys <= b[c].nodes.Keys
  {
    if c != None {
      var i :| 0 <= i < |nodes| && nodes[i].correlation == c;
      assert HoldsNode(b, nodes[i]);
    }
    forall id | id in a[c].nodes ensures id in b[c].nodes {
      assert Given(nodes, c, id);
      var i :| 0 <= i < |nodes| && nodes[i].nodeId == id && nodes[i].correlation == c;
      assert HoldsNode(b, nodes[i]);
    }
  }

  lemma SameBlank(nodes: seq<GraphNode>, a: Forests, b: Forests, c: Option<string>)
    requires Partitioned(nodes, a) && Partitioned(nodes, b) && c in a
    ensures c in b && a[c] == b[c]
  {
    SameHomes(nodes, a, b, c);
    SameHomes(nodes, b, a, c);
    forall id | id in a[c].nodes ensures a[c].nodes[id] == b[c].nodes[id] {
      assert Given(nodes, c, id);
      var i :| 0 <= i < |nodes| && nodes[i].nodeId == id && nodes[i].correlation == c;
      assert HoldsNode(a, nodes[i]) && HoldsNode(b, nodes[i]);
    }
    assert a[c].nodes == b[c].nodes;
  }

  lemma SameBlanks(nodes: seq<GraphNode>, a: Forests, b: Forests)
    requires Partitioned(nodes, a) && Partitioned(nodes, b)
    ensures a == b
  {
    forall c ensures c in a <==> c in b {
      if c in a {
        SameBlank(nodes, a, b, c);
      }
      if c in b {
        SameBlank(nodes, b, a, c);
      }
    }
    forall c | c in a ensures a[c] == b[c] {
      SameBlank(nodes, a, b, c);
    }
  }

  lemma SameIndex(nodes: seq<GraphNode>, p: Partition, p': Partition, creation: map<Id, nat>, creation': map<Id, nat>)
    requires Indexed(nodes, p, creation) && Indexed(nodes, p', creation')
    ensures p == p' && creation == creation'
  {
    forall n | n in p ensures p[n] == p'[n] && creation[n] == creation'[n] {
      assert n in ToSet(IdsOf(nodes));
      var i :| 0 <= i < |nodes| && IdsOf(nodes)[i] == n;
    }
  }

  // ----- one forest -----

  lemma SameList(a: seq<Id>, b: seq<Id>, kept: Parents, parent: Option<Id>, creation: map<Id, nat>)
    requires InCreationOrder(a, kept, parent, creation) && InCreationOrder(b, kept, parent, creation)
    ensures a == b
  {
    CreationIsPreorder(creation);
    SameElements(a, b);
    SortedUnique(a, b, CreatedBefore(creation));
  }

  /** The same edges and events. */
  ghost predicate SameButCounts(f: Forest, g: Forest) {
    && f.correlation == g.correlation && f.roots == g.roots && f.nodes.Keys == g.nodes.Keys
    && forall n {:trigger f.nodes[n]} {:trigger g.nodes[n]} :: n in f.nodes ==>
         g.nodes[n] == f.nodes[n].(subtreeEvents := g.nodes[n].subtreeEvents)
  }

  lemma SameNode(blank: Forest, f: Forest, g: Forest, kept: Parents, orphans: set<Id>, creation: map<Id, nat>,
                 events: seq<EventRef>, carried: set<Id>, n: Id)
    requires BuiltNodes(blank, f, kept, orphans, creation, events, carried)
    requires BuiltNodes(blank, g, kept, orphans, creation, events, carried) && n in f.nodes
    ensures n in g.nodes && g.nodes[n] == f.nodes[n].(subtreeEvents := g.nodes[n].subtreeEvents)
  {
    SameList(f.nodes[n].children, g.nodes[n].children, kept, Some(n), creation);
  }

  lemma SameStructure(blank: Forest, f: Forest, g: Forest, kept: Parents, orphans: set<Id>, creation: map<Id, nat>,
                      events: seq<EventRef>, carried: set<Id>)
    requires BuiltNodes(blank, f, kept, orphans, creation, events, carried)
    requires BuiltNodes(blank, g, kept, orphans, creation, events, carried)
    ensures SameButCounts(f, g)
  {
    SameList(f.roots, g.roots, kept, None, creation);
    forall n | n in f.nodes ensures g.nodes[n] == f.nodes[n].(subtreeEvents := g.nodes[n].subtreeEvents) {
      SameNode(blank, f, g, kept, orphans, creation, events, carried, n);
    }
  }

  /** Counts that are right at every node are determined from the leaves up. */
  lemma {:induction false} SameCount(f: Forest, g: Forest, rank: map<Id, nat>, n: Id)
    requires SameButCounts(f, g) && RolledUp(f) && RolledUp(g) && Ranked(f, rank) && n in f.nodes
    ensures f.nodes[n].subtreeEvents == g.nodes[n].subtreeEvents
    decreases rank[n], 1, 0
  {
    SameSum(f, g, rank, n, f.nodes[n].children);
  }

  lemma {:induction false} SameSum(f: Forest, g: Forest, rank: map<Id, nat>, n: Id, ids: seq<Id>)
    requires SameButCounts(f, g) && RolledUp(f) && RolledUp(g) && Ranked(f, rank) && n in f.nodes
    requires forall c :: c in ids ==> c in f.nodes[n].children
    ensures ChildrenSum(ids, f) == ChildrenSum(ids, g)
    decreases rank[n], 0, |ids|
  {
    if ids != [] {
      var c := ids[0];
      if c in f.nodes {
        assert c in f.nodes[n].children;
        SameCount(f, g, rank, c);
      }
      SameSum(f, g, rank, n, ids[1..]);
    }
  }

  lemma SameCounts(f: Forest, g: Forest, rank: map<Id, nat>)
    requires SameButCounts(f, g) && RolledUp(f) && RolledUp(g) && Ranked(f, rank)
    ensures f == g
  {
    forall n | n in f.nodes ensures f.nodes[n] == g.nodes[n] {
      SameCount(f, g, rank, n);
    }
    assert f.nodes == g.nodes;
  }

  lemma RankOf(f: Forest) returns (rank: map<Id, nat>)
    requires RollupCounts(f)
    ensures RolledUp(f) && Ranked(f, rank)
  {
    rank :| Ranked(f, rank);
  }

  lemma BuiltForestUnique(blank: Forest, f: Forest, g: Forest, cut: set<Id>, cut': set<Id>, creation: map<Id, nat>,
                          events: seq<EventRef>, carried: set<Id>)
    requires BuiltForest(blank, f, cut, creation, events, carried) && BuiltForest(blank, g, cut', creation, events, carried)
    ensures f == g && cut == cut'
  {
    SameStructure(blank, f, g, Kept(ParentMap(blank), cut), Orphans(ParentMap(blank), cut), creation, events, carried);
    var rank := RankOf(f);
    SameCounts(f, g, rank);
  }

  // ----- the unusable correlations -----

  lemma SameReasons(p: Parents, le: (Id, Id) -> bool, a: seq<(Id, Id)>, b: seq<(Id, Id)>, cuts: set<Id>)
    requires NamesChoices(p, le, a) && NamesChoices(p, le, b) && Reasons(a, cuts) && Reasons(b, cuts)
    ensures a == b
  {
    SameElements(a, b);
    assert TotalPreorder(PairAtMost());
    SortedUnique(a, b, PairAtMost());
  }

  lemma SameUnusable(blank: Forests, creation: map<Id, nat>, cuts: map<Option<string>, set<Id>>,
                     a: map<string, seq<(Id, Id)>>, b: map<string, seq<(Id, Id)>>)
    requires UnusableAre(cuts, a) && UnusableAre(cuts, b)
    requires ReasonsAsOrdered(blank, creation, a) && ReasonsAsOrdered(blank, creation, b)
    ensures a == b
  {
    forall name | name in a ensures a[name] == b[name] {
      SameReasons(ParentMap(blank[Some(name)]), CreatedBefore(creation), a[name], b[name], cuts[Some(name)]);
    }
  }

  // ----- the whole -----

  lemma BuiltParts(nodes: seq<GraphNode>, events: seq<EventRef>, fs: ForestSet, w: Passes)
    requires Built(nodes, events, fs, w)
    ensures Partitioned(nodes, w.blank) && Indexed(nodes, w.partition, w.creation)
    ensures fs.forests.Keys == w.blank.Keys == w.cuts.Keys
    ensures UnusableAre(w.cuts, fs.unusable) && ReasonsAsOrdered(w.blank, w.creation, fs.unusable)
  {
  }

  lemma BuiltAt(nodes: seq<GraphNode>, events: seq<EventRef>, fs: ForestSet, w: Passes, c: Option<string>)
    requires Built(nodes, events, fs, w) && c in fs.forests
    ensures c in w.blank && c in w.cuts && BuiltForest(w.blank[c], fs.forests[c], w.cuts[c], w.creation, events, w.partition.Keys)
  {
  }

  lemma SameInputs(nodes: seq<GraphNode>, events: seq<EventRef>, a: ForestSet, w: Passes, b: ForestSet, v: Passes)
    requires Built(nodes, events, a, w) && Built(nodes, events, b, v)
    ensures w.blank == v.blank && w.partition == v.partition && w.creation == v.creation
    ensures a.forests.Keys == b.forests.Keys == w.cuts.Keys == v.cuts.Keys && a.annex == b.annex
  {
    BuiltParts(nodes, events, a, w);
    BuiltParts(nodes, events, b, v);
    SameBlanks(nodes, w.blank, v.blank);
    SameIndex(nodes, w.partition, v.partition, w.creation, v.creation);
  }

  lemma SameAt(nodes: seq<GraphNode>, events: seq<EventRef>, a: ForestSet, w: Passes, b: ForestSet, v: Passes, c: Option<string>)
    requires Built(nodes, events, a, w) && Built(nodes, events, b, v)
    requires w.blank == v.blank && w.partition == v.partition && w.creation == v.creation && c in a.forests && c in b.forests
    ensures c in w.cuts && c in v.cuts && a.forests[c] == b.forests[c] && w.cuts[c] == v.cuts[c]
  {
    BuiltAt(nodes, events, a, w, c);
    BuiltAt(nodes, events, b, v, c);
    BuiltForestUnique(w.blank[c], a.forests[c], b.forests[c], w.cuts[c], v.cuts[c], w.creation, events, w.partition.Keys);
  }

  lemma SameMaps<K, V>(a: map<K, V>, b: map<K, V>)
    requires a.Keys == b.Keys && forall k :: k in a ==> a[k] == b[k]
    ensures a == b
  {
  }

  lemma SameForests(nodes: seq<GraphNode>, events: seq<EventRef>, a: ForestSet, w: Passes, b: ForestSet, v: Passes)
    requires Built(nodes, events, a, w) && Built(nodes, events, b, v)
    ensures a.forests == b.forests && w == v && a.annex == b.annex
  {
    SameInputs(nodes, events, a, w, b, v);
    var forests, others, cuts, cuts' := a.forests, b.forests, w.cuts, v.cuts;
    forall c | c in forests ensures forests[c] == others[c] && cuts[c] == cuts'[c] {
      SameAt(nodes, events, a, w, b, v, c);
    }
    SameMaps(forests, others);
    SameMaps(cuts, cuts');
  }

  /** Two builds of the same nodes and events are the same forest set. */
  lemma BuiltUnique(nodes: seq<GraphNode>, events: seq<EventRef>, a: ForestSet, w: Passes, b: ForestSet, v: Passes)
    requires Built(nodes, events, a, w) && Built(nodes, events, b, v)
    ensures a == b
  {
    SameForests(nodes, events, a, w, b, v);
    BuiltParts(nodes, events, a, w);
    BuiltParts(nodes, events, b, v);
    SameUnusable(w.blank, w.creation, w.cuts, a.unusable, b.unusable);
  }
}
