/** `build`'s rollup: leaves are peeled from a queue, each adding its subtree count to its parent's. */
module ForestRollup {
  import opened Common
  import opened Sequences
  import opened ForestModel

  /** The sum of the children's subtree counts. */
  ghost function ChildrenSum(ids: seq<Id>, f: Forest): nat {
    if ids == [] then 0
    else (if ids[0] in f.nodes then f.nodes[ids[0]].subtreeEvents else 0) + ChildrenSum(ids[1..], f)
  }

  ghost predicate RolledUp(f: Forest) {
    forall n {:trigger f.nodes[n]} :: n in f.nodes ==>
      f.nodes[n].subtreeEvents == |f.nodes[n].events| + ChildrenSum(f.nodes[n].children, f)
  }

  function OwnEvents(f: Forest): map<Id, nat> {
    map n | n in f.nodes :: |f.nodes[n].events|
  }

  function SubtreeEvents(f: Forest): map<Id, nat> {
    map n | n in f.nodes :: f.nodes[n].subtreeEvents
  }

  // ----- the part of a child list already peeled -----

  ghost function Pending(ids: seq<Id>, done: set<Id>): nat {
    if ids == [] then 0 else (if ids[0] in done then 0 else 1) + Pending(ids[1..], done)
  }

  ghost function PeeledSum(ids: seq<Id>, done: set<Id>, sub: map<Id, nat>): nat
    requires done <= sub.Keys
  {
    if ids == [] then 0 else (if ids[0] in done then sub[ids[0]] else 0) + PeeledSum(ids[1..], done, sub)
  }

  lemma {:induction false} PeelOne(ids: seq<Id>, done: set<Id>, sub: map<Id, nat>, n: Id)
    requires NoDup(ids) && n !in done && n in sub && done <= sub.Keys
    ensures Pending(ids, done) == Pending(ids, done + {n}) + if n in ids then 1 else 0
    ensures PeeledSum(ids, done + {n}, sub) == PeeledSum(ids, done, sub) + if n in ids then sub[n] else 0
  {
    if ids != [] {
      PeelOne(ids[1..], done, sub, n);
    }
  }

  lemma {:induction false} PeeledSumSame(ids: seq<Id>, done: set<Id>, sub: map<Id, nat>, other: map<Id, nat>)
    requires done <= sub.Keys && done <= other.Keys
    requires forall x :: x in done ==> sub[x] == other[x]
    ensures PeeledSum(ids, done, sub) == PeeledSum(ids, done, other)
  {
    if ids != [] {
      PeeledSumSame(ids[1..], done, sub, other);
    }
  }

  lemma {:induction false} PendingNone(ids: seq<Id>, done: set<Id>)
    ensures Pending(ids, done) == 0 <==> forall x :: x in ids ==> x in done
    ensures Pending(ids, {}) == |ids|
  {
    if ids != [] {
      PendingNone(ids[1..], done);
    }
  }

  lemma {:induction false} PeeledNone(ids: seq<Id>, sub: map<Id, nat>)
    ensures PeeledSum(ids, {}, sub) == 0
  {
    if ids != [] {
      PeeledNone(ids[1..], sub);
    }
  }

  // ----- the peeling loop -----

  /** What the count, the queue and the subtree column say about one node once `done` is peeled. */
  ghost predicate PeeledSoFar(f: Forest, done: set<Id>, queue: seq<Id>, remaining: map<Id, nat>, sub: map<Id, nat>, n: Id)
    requires n in f.nodes && sub.Keys == remaining.Keys == f.nodes.Keys && done <= f.nodes.Keys
  {
    && remaining[n] == Pending(f.nodes[n].children, done)
    && (remaining[n] == 0 <==> n in queue || n in done)
    && sub[n] == |f.nodes[n].events| + PeeledSum(f.nodes[n].children, done, sub)
  }

  ghost predicate QueueApart(f: Forest, done: set<Id>, queue: seq<Id>) {
    NoDup(queue) && forall n :: n in queue ==> n in f.nodes && n !in done
  }

  ghost predicate Peeling(f: Forest, done: set<Id>, queue: seq<Id>, remaining: map<Id, nat>, sub: map<Id, nat>) {
    && sub.Keys == remaining.Keys == f.nodes.Keys && done <= f.nodes.Keys
    && QueueApart(f, done, queue)
    && forall n {:trigger PeeledSoFar(f, done, queue, remaining, sub, n)} :: n in f.nodes ==>
         PeeledSoFar(f, done, queue, remaining, sub, n)
  }

  /** Counts still to be handed up, plus those that reached a root. */
  ghost function Outstanding(f: Forest, done: set<Id>): set<Id> {
    set n | n in f.nodes && (n !in done || f.nodes[n].parentId.None?)
  }

  /** `n` is on exactly the child lists of `at`: one list, or none for a root. */
  ghost predicate ListedOnlyAt(f: Forest, n: Id, at: set<Id>) {
    forall m {:trigger f.nodes[m]} :: m in f.nodes ==> NoDup(f.nodes[m].children) && (n in f.nodes[m].children <==> m in at)
  }

  lemma LinkedListsOnce(f: Forest, n: Id)
    requires Linked(f) && n in f.nodes
    ensures ListedOnlyAt(f, n, if f.nodes[n].parentId.Some? then {f.nodes[n].parentId.value} else {})
    ensures f.nodes[n].parentId.Some? ==> f.nodes[n].parentId.value in f.nodes && n in f.nodes[f.nodes[n].parentId.value].children
  {
  }

  lemma PeelRoot(f: Forest, done: set<Id>, queue: seq<Id>, remaining: map<Id, nat>, sub: map<Id, nat>)
    requires Peeling(f, done, queue, remaining, sub)
    requires queue != [] && ListedOnlyAt(f, queue[0], {})
    ensures Peeling(f, done + {queue[0]}, queue[1..], remaining, sub)
  {
    var n := queue[0];
    forall m | m in f.nodes ensures PeeledSoFar(f, done + {n}, queue[1..], remaining, sub, m) {
      assert PeeledSoFar(f, done, queue, remaining, sub, m);
      PeelOne(f.nodes[m].children, done, sub, n);
    }
  }

  lemma PeelChild(f: Forest, done: set<Id>, queue: seq<Id>, remaining: map<Id, nat>, sub: map<Id, nat>,
                  p: Id, rest: seq<Id>, remaining': map<Id, nat>, sub': map<Id, nat>)
    requires Peeling(f, done, queue, remaining, sub)
    requires queue != [] && ListedOnlyAt(f, queue[0], {p}) && p != queue[0] && p in f.nodes && p !in done
    requires remaining[p] > 0
    requires remaining' == remaining[p := remaining[p] - 1]
    requires sub' == sub[p := sub[p] + sub[queue[0]]]
    requires rest == if remaining[p] == 1 then queue[1..] + [p] else queue[1..]
    ensures Peeling(f, done + {queue[0]}, rest, remaining', sub')
  {
    var n := queue[0];
    assert PeeledSoFar(f, done, queue, remaining, sub, p);
    assert QueueApart(f, done + {n}, rest);
    forall m | m in f.nodes ensures PeeledSoFar(f, done + {n}, rest, remaining', sub', m) {
      assert PeeledSoFar(f, done, queue, remaining, sub, m);
      PeelOne(f.nodes[m].children, done, sub, n);
      PeeledSumSame(f.nodes[m].children, done + {n}, sub, sub');
    }
  }

  lemma RootStays(f: Forest, done: set<Id>, n: Id)
    requires n in f.nodes && f.nodes[n].parentId.None?
    ensures Outstanding(f, done + {n}) == Outstanding(f, done)
  {
  }

  /** Handing a count up to an unpeeled parent keeps the outstanding total. */
  lemma HandUp(f: Forest, done: set<Id>, n: Id, p: Id, sub: map<Id, nat>)
    requires p in f.nodes && sub.Keys == f.nodes.Keys
    requires n in f.nodes && f.nodes[n].parentId == Some(p) && n !in done && p !in done && n != p
    ensures SumOver(Outstanding(f, done), sub) == SumOver(Outstanding(f, done + {n}), sub[p := sub[p] + sub[n]])
  {
    var before, after := Outstanding(f, done), Outstanding(f, done + {n});
    var sub' := sub[p := sub[p] + sub[n]];
    assert after == before - {n};
    SumOverRemove(before, sub, n);
    SumOverRemove(after, sub, p);
    SumOverRemove(after, sub', p);
    SumOverSame(after - {p}, sub, sub');
  }

  /** With an empty queue nothing is left: an unpeeled node would have an unpeeled child below it. */
  lemma {:induction false} NothingLeft(f: Forest, done: set<Id>, remaining: map<Id, nat>, sub: map<Id, nat>,
                                       rank: map<Id, nat>, n: Id)
    requires Linked(f) && Ranked(f, rank) && Peeling(f, done, [], remaining, sub) && n in f.nodes
    ensures n in done
    decreases rank[n]
  {
    if n !in done {
      PendingNone(f.nodes[n].children, done);
      assert PeeledSoFar(f, done, [], remaining, sub, n);
      var c :| c in f.nodes[n].children && c !in done;
      NothingLeft(f, done, remaining, sub, rank, c);
    }
  }

  /** The head's parent, if it has one, is unpeeled and lists it; no other node does. */
  ghost predicate HeadReady(f: Forest, done: set<Id>, queue: seq<Id>, remaining: map<Id, nat>)
    requires queue != [] && queue[0] in f.nodes && remaining.Keys == f.nodes.Keys
  {
    match f.nodes[queue[0]].parentId
    case None => ListedOnlyAt(f, queue[0], {})
    case Some(p) => p in f.nodes && ListedOnlyAt(f, queue[0], {p}) && p != queue[0] && p !in done && remaining[p] > 0
  }

  /** One turn of the loop: the head of the queue is taken and its count handed to its parent. */
  method PeelHead(f: Forest, queue: seq<Id>, remaining: map<Id, nat>, sub: map<Id, nat>,
                  ghost done: set<Id>)
    returns (rest: seq<Id>, remaining': map<Id, nat>, sub': map<Id, nat>)
    requires Peeling(f, done, queue, remaining, sub) && queue != [] && HeadReady(f, done, queue, remaining)
    ensures Peeling(f, done + {queue[0]}, rest, remaining', sub')
    ensures SumOver(Outstanding(f, done + {queue[0]}), sub') == SumOver(Outstanding(f, done), sub)
  {
    var n := queue[0];
    rest, remaining', sub' := queue[1..], remaining, sub;
    match f.nodes[n].parentId
    case None =>
      RootStays(f, done, n);
      PeelRoot(f, done, queue, remaining, sub);
    case Some(p) =>
      HandUp(f, done, n, p, sub);
      sub' := sub'[p := sub'[p] + sub'[n]];
      remaining' := remaining'[p := remaining'[p] - 1];
      if remaining'[p] == 0 {
        rest := rest + [p];
      }
      PeelChild(f, done, queue, remaining, sub, p, rest, remaining', sub');
  }

  method PeelLeaves(f: Forest) returns (sub: map<Id, nat>)
    requires TreeShaped(f)
    ensures sub.Keys == f.nodes.Keys
    ensures forall n {:trigger sub[n]} :: n in f.nodes ==>
              sub[n] == |f.nodes[n].events| + PeeledSum(f.nodes[n].children, f.nodes.Keys, sub)
    ensures SumOver(ToSet(f.roots), sub) == SumOver(f.nodes.Keys, OwnEvents(f))
  {
    ghost var rank :| Ranked(f, rank);
    sub := OwnEvents(f);
    var remaining: map<Id, nat> := map n | n in f.nodes :: |f.nodes[n].children|;
    var queue := AnyOrder(set n | n in remaining && remaining[n] == 0);
    ghost var done: set<Id> := {};
    StartsPeeling(f, queue, remaining, sub);
    while queue != []
      invariant Peeling(f, done, queue, remaining, sub)
      invariant SumOver(Outstanding(f, done), sub) == SumOver(f.nodes.Keys, OwnEvents(f))
      decreases f.nodes.Keys - done
    {
      ghost var n := queue[0];
      assert n in f.nodes && n !in done;
      LinkedListsOnce(f, n);
      if f.nodes[n].parentId.Some? {
        ParentStillWaits(f, done, queue, remaining, sub, rank, f.nodes[n].parentId.value);
      }
      queue, remaining, sub := PeelHead(f, queue, remaining, sub, done);
      done := done + {n};
    }
    PeeledOut(f, done, remaining, sub, rank);
  }

  lemma PeeledOut(f: Forest, done: set<Id>, remaining: map<Id, nat>, sub: map<Id, nat>, rank: map<Id, nat>)
    requires Linked(f) && Ranked(f, rank) && Peeling(f, done, [], remaining, sub)
    ensures done == f.nodes.Keys && Outstanding(f, done) == ToSet(f.roots)
    ensures forall n {:trigger sub[n]} :: n in f.nodes ==>
              sub[n] == |f.nodes[n].events| + PeeledSum(f.nodes[n].children, f.nodes.Keys, sub)
  {
    forall n | n in f.nodes ensures n in done {
      NothingLeft(f, done, remaining, sub, rank, n);
    }
    assert done == f.nodes.Keys;
    forall n | n in f.nodes ensures sub[n] == |f.nodes[n].events| + PeeledSum(f.nodes[n].children, f.nodes.Keys, sub) {
      assert PeeledSoFar(f, done, [], remaining, sub, n);
    }
  }

  lemma StartsPeeling(f: Forest, queue: seq<Id>, remaining: map<Id, nat>, sub: map<Id, nat>)
    requires remaining == map n | n in f.nodes :: |f.nodes[n].children|
    requires sub == OwnEvents(f)
    requires NoDup(queue) && ToSet(queue) == set n | n in remaining && remaining[n] == 0
    ensures Peeling(f, {}, queue, remaining, sub)
    ensures SumOver(Outstanding(f, {}), sub) == SumOver(f.nodes.Keys, OwnEvents(f))
  {
    assert Outstanding(f, {}) == f.nodes.Keys;
    forall n | n in f.nodes ensures PeeledSoFar(f, {}, queue, remaining, sub, n) {
      PendingNone(f.nodes[n].children, {});
      PeeledNone(f.nodes[n].children, sub);
      assert n in ToSet(queue) <==> remaining[n] == 0;
    }
    forall n | n in queue ensures n in f.nodes {
      assert n in ToSet(queue);
    }
  }

  lemma ParentStillWaits(f: Forest, done: set<Id>, queue: seq<Id>, remaining: map<Id, nat>, sub: map<Id, nat>,
                         rank: map<Id, nat>, p: Id)
    requires Ranked(f, rank) && Peeling(f, done, queue, remaining, sub)
    requires queue != [] && p in f.nodes && queue[0] in f.nodes[p].children
    ensures remaining[p] > 0 && p !in done && p != queue[0]
  {
    PendingNone(f.nodes[p].children, done);
    assert PeeledSoFar(f, done, queue, remaining, sub, p);
  }

  method Rollup(f: Forest) returns (out: Forest)
    requires TreeShaped(f)
    ensures out.correlation == f.correlation && out.roots == f.roots && out.nodes.Keys == f.nodes.Keys
    ensures forall n {:trigger out.nodes[n]} :: n in out.nodes ==>
              out.nodes[n] == f.nodes[n].(subtreeEvents := out.nodes[n].subtreeEvents)
    ensures RolledUp(out)
    ensures SumOver(ToSet(out.roots), SubtreeEvents(out)) == SumOver(out.nodes.Keys, OwnEvents(out))
  {
    var sub := PeelLeaves(f);
    out := WriteBack(f, sub);
    ColumnsAgree(f, out, sub);
    SumsRollUp(f, out, sub);
  }

  function WriteBack(f: Forest, sub: map<Id, nat>): Forest
    requires sub.Keys == f.nodes.Keys
  {
    f.(nodes := map n | n in f.nodes :: f.nodes[n].(subtreeEvents := sub[n]))
  }

  lemma ColumnsAgree(f: Forest, out: Forest, sub: map<Id, nat>)
    requires sub.Keys == f.nodes.Keys && out == WriteBack(f, sub)
    ensures SubtreeEvents(out) == sub && OwnEvents(out) == OwnEvents(f)
  {
  }

  lemma NodeRollsUp(f: Forest, out: Forest, sub: map<Id, nat>, n: Id)
    requires sub.Keys == f.nodes.Keys && out == WriteBack(f, sub) && SubtreeEvents(out) == sub && n in f.nodes
    requires sub[n] == |f.nodes[n].events| + PeeledSum(f.nodes[n].children, f.nodes.Keys, sub)
    ensures out.nodes[n].subtreeEvents == |out.nodes[n].events| + ChildrenSum(out.nodes[n].children, out)
  {
    SumsAgree(f.nodes[n].children, out, sub);
    assert out.nodes.Keys == f.nodes.Keys;
  }

  lemma SumsRollUp(f: Forest, out: Forest, sub: map<Id, nat>)
    requires sub.Keys == f.nodes.Keys && out == WriteBack(f, sub) && SubtreeEvents(out) == sub
    requires forall n {:trigger sub[n]} :: n in f.nodes ==>
               sub[n] == |f.nodes[n].events| + PeeledSum(f.nodes[n].children, f.nodes.Keys, sub)
    ensures RolledUp(out)
  {
    forall n | n in out.nodes
      ensures out.nodes[n].subtreeEvents == |out.nodes[n].events| + ChildrenSum(out.nodes[n].children, out)
    {
      NodeRollsUp(f, out, sub, n);
    }
  }

  lemma {:induction false} SumsAgree(ids: seq<Id>, out: Forest, sub: map<Id, nat>)
    requires SubtreeEvents(out) == sub
    ensures ChildrenSum(ids, out) == PeeledSum(ids, out.nodes.Keys, sub)
  {
    if ids != [] {
      SumsAgree(ids[1..], out, sub);
      assert ids[0] in out.nodes ==> SubtreeEvents(out)[ids[0]] == out.nodes[ids[0]].subtreeEvents;
    }
  }
}
