/** The activation forest of one correlation, and the shape `build` gives it. */
module ForestModel {
  import opened Common
  import opened Sequences

  /** A span as `build` is given it. */
  datatype GraphNode = GraphNode(nodeId: Id, parentId: Option<Id>, correlation: Option<string>, spanName: string, sequence: nat)

  datatype ForestNode = ForestNode(
    nodeId: Id,
    parentId: Option<Id>,
    promoted: bool,
    spanName: string,
    children: seq<Id>,
    events: seq<nat>,
    subtreeEvents: nat)

  datatype Forest = Forest(correlation: Option<string>, nodes: map<Id, ForestNode>, roots: seq<Id>)

  /** Every child is ranked below its parent, so walking down ends. */
  ghost predicate Ranked(f: Forest, rank: map<Id, nat>) {
    && f.nodes.Keys <= rank.Keys
    && forall n, c {:trigger c in f.nodes[n].children} :: n in f.nodes && c in f.nodes[n].children && c in f.nodes ==> rank[c] < rank[n]
  }

  /** Parent pointers, child lists and the root list say the same thing, once each. */
  ghost predicate Linked(f: Forest) {
    && (forall n {:trigger f.nodes[n]} :: n in f.nodes ==> f.nodes[n].nodeId == n && NoDup(f.nodes[n].children))
    && (forall n, c {:trigger c in f.nodes[n].children} :: n in f.nodes && c in f.nodes[n].children ==> c in f.nodes && f.nodes[c].parentId == Some(n))
    && (forall n {:trigger f.nodes[n]} :: n in f.nodes && f.nodes[n].parentId.Some? ==> f.nodes[n].parentId.value in f.nodes)
    && (forall n, q {:trigger f.nodes[n], f.nodes[q]} :: n in f.nodes && q in f.nodes && f.nodes[n].parentId == Some(q) ==>
          n in f.nodes[q].children)
    && NoDup(f.roots)
    && (forall n {:trigger n in f.roots} {:trigger f.nodes[n]} :: n in f.roots <==> n in f.nodes && f.nodes[n].parentId.None?)
  }

  ghost predicate TreeShaped(f: Forest) {
    Linked(f) && exists rank :: Ranked(f, rank)
  }
}
