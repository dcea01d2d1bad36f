/** `build`'s last passes over one forest: sequence order within each node, then the rollup. */
module ForestFinish {
  import opened Sequences
  import opened ForestModel
  import opened ForestRollup
  import opened EventPlacement
  import opened EventAttachment

  ghost predicate SameEdges(r: Forest, f: Forest) {
    && f.roots == r.roots && f.nodes.Keys == r.nodes.Keys
    && forall n {:trigger f.nodes[n]} :: n in f.nodes ==>
         && f.nodes[n].nodeId == r.nodes[n].nodeId
         && f.nodes[n].parentId == r.nodes[n].parentId
         && f.nodes[n].children == r.nodes[n].children
  }

  lemma SameEdgesLinked(r: Forest, f: Forest)
    requires Linked(r) && SameEdges(r, f)
    ensures Linked(f)
  {
  }

  lemma SameEdgesTree(r: Forest, f: Forest)
    requires TreeShaped(r) && SameEdges(r, f)
    ensures TreeShaped(f)
  {
    SameEdgesLinked(r, f);
    var rank :| Ranked(r, rank);
    assert Ranked(f, rank);
  }

  /** `out` is `f` with each event list in order and each subtree counted. */
  ghost predicate Finished(f: Forest, out: Forest) {
    && out.correlation == f.correlation && out.roots == f.roots && out.nodes.Keys == f.nodes.Keys
    && (forall n {:trigger out.nodes[n]} :: n in out.nodes ==>
          out.nodes[n] == f.nodes[n].(events := Sort(f.nodes[n].events, AtMost()), subtreeEvents := out.nodes[n].subtreeEvents))
    && RollupCounts(out)
  }

  /** Every subtree count is right, and together the roots count every event in the forest. */
  ghost predicate RollupCounts(out: Forest) {
    && TreeShaped(out) && RolledUp(out)
    && ToSet(out.roots) <= out.nodes.Keys
    && SumOver(ToSet(out.roots), SubtreeEvents(out)) == SumOver(out.nodes.Keys, OwnEvents(out))
  }

  function SortEvents(f: Forest): Forest {
    f.(nodes := map n | n in f.nodes :: f.nodes[n].(events := Sort(f.nodes[n].events, AtMost())))
  }

  method FinishForest(f: Forest) returns (out: Forest)
    requires TreeShaped(f)
    ensures Finished(f, out)
  {
    var sorted := SortEvents(f);
    SameEdgesTree(f, sorted);
    out := Rollup(sorted);
    SameEdgesTree(sorted, out);
  }

  method FinishAll(forests: Forests) returns (out: Forests)
    requires forall c {:trigger forests[c]} :: c in forests ==> TreeShaped(forests[c])
    ensures out.Keys == forests.Keys
    ensures forall c {:trigger out[c]} :: c in out ==> Finished(forests[c], out[c])
  {
    out := map[];
    var order := AnyOrder(forests.Keys);
    for i := 0 to |order|
      invariant out.Keys == ToSet(order[..i])
      invariant forall c {:trigger out[c]} :: c in out ==> c in forests && Finished(forests[c], out[c])
    {
      var c := order[i];
      assert c in ToSet(order);
      PrefixGrows(order, i);
      var f := FinishForest(forests[c]);
      out := out[c := f];
    }
    assert order[..|order|] == order;
  }
}
