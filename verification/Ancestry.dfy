/** Which nodes of a forest are under which, by parent pointers alone. */
module Ancestry {
  import opened Common
  import opened ForestModel

  /** `n` is `steps` up the parent chain of `x`. */
  ghost predicate Under(f: Forest, n: Id, x: Id, steps: nat)
    decreases steps
  {
    x in f.nodes && if steps == 0 then x == n else f.nodes[x].parentId.Some? && Under(f, n, f.nodes[x].parentId.value, steps - 1)
  }

  lemma {:induction false} UnderParent(f: Forest, n: Id, c: Id, x: Id, k: nat)
    requires Under(f, c, x, k) && n in f.nodes && c in f.nodes && f.nodes[c].parentId == Some(n)
    ensures Under(f, n, x, k + 1)
    decreases k
  {
    if k == 0 {
      assert Under(f, n, n, 0);
    } else {
      UnderParent(f, n, c, f.nodes[x].parentId.value, k - 1);
    }
  }

  /** Two ancestors of one node: the nearer one is under the farther one. */
  lemma {:induction false} AncestorsLine(f: Forest, a: Id, b: Id, x: Id, j: nat, k: nat)
    requires Under(f, a, x, j) && Under(f, b, x, k) && j <= k
    ensures Under(f, b, a, k - j)
    decreases j
  {
    if j > 0 {
      AncestorsLine(f, a, b, f.nodes[x].parentId.value, j - 1, k - 1);
    }
  }

  lemma {:induction false} UnderRank(f: Forest, rank: map<Id, nat>, n: Id, x: Id, k: nat)
    requires Linked(f) && Ranked(f, rank) && Under(f, n, x, k)
    ensures n in f.nodes && (if k == 0 then x == n else rank[x] < rank[n])
    decreases k
  {
    if k > 0 {
      var q := f.nodes[x].parentId.value;
      UnderRank(f, rank, n, q, k - 1);
      assert x in f.nodes[q].children;
    }
  }

  /** Distinct nodes with the same parent, or distinct roots. */
  ghost predicate Siblings(f: Forest, a: Id, b: Id) {
    a in f.nodes && b in f.nodes && a != b && f.nodes[a].parentId == f.nodes[b].parentId
  }

  lemma NotUnderSibling(f: Forest, rank: map<Id, nat>, a: Id, b: Id, k: nat)
    requires Linked(f) && Ranked(f, rank) && Siblings(f, a, b)
    ensures !Under(f, b, a, k)
  {
    if Under(f, b, a, k) {
      var q := f.nodes[a].parentId.value;
      UnderRank(f, rank, b, q, k - 1);
    }
  }

  lemma NoCommonUnder(f: Forest, rank: map<Id, nat>, a: Id, b: Id, x: Id, j: nat, k: nat)
    requires Linked(f) && Ranked(f, rank) && Siblings(f, a, b)
    ensures !(Under(f, a, x, j) && Under(f, b, x, k))
  {
    if Under(f, a, x, j) && Under(f, b, x, k) {
      if j <= k {
        AncestorsLine(f, a, b, x, j, k);
        NotUnderSibling(f, rank, a, b, k - j);
      } else {
        AncestorsLine(f, b, a, x, k, j);
        NotUnderSibling(f, rank, b, a, j - k);
      }
    }
  }
}
