/** Which edge of a parent cycle is the one to cut: the walk from the earliest node leading to the cycle
    decides, at the first cycle node it meets. */
module CycleChoice {
  import opened Common
  import opened Sequences
  import opened ParentWalk

  /** Of all the nodes leading to the cycle of `b`, `r` comes first, and its walk enters the cycle at `b`. */
  ghost predicate EarliestInto(p: Parents, le: (Id, Id) -> bool, r: Id, b: Id) {
    && r in p && b in p && EntersAt(p, r, b)
    && forall m :: m in p && Reaches(p, m, b) ==> le(r, m)
  }

  ghost predicate ChosenCut(p: Parents, le: (Id, Id) -> bool, b: Id) {
    exists r :: EarliestInto(p, le, r, b)
  }

  /** The nodes to cut, one for each cycle. */
  ghost function TheCuts(p: Parents, le: (Id, Id) -> bool): set<Id> {
    set b | b in p && ChosenCut(p, le, b)
  }

  /** The reasons given are the choices: for each cycle, the node whose walk found it and the node cut. */
  ghost predicate NamesChoices(p: Parents, le: (Id, Id) -> bool, reasons: seq<(Id, Id)>) {
    forall c {:trigger c in reasons} :: c in reasons <==> EarliestInto(p, le, c.0, c.1)
  }

  /** On one cycle there is one choice. */
  lemma ChoiceUnique(p: Parents, le: (Id, Id) -> bool, r: Id, b: Id, s: Id, c: Id)
    requires EarliestInto(p, le, r, b) && EarliestInto(p, le, s, c) && Reaches(p, b, c)
    requires NoTies(le)
    ensures r == s && b == c
  {
    CycleReachesBack(p, b, c);
    EntersReaches(p, r, b);
    EntersReaches(p, s, c);
    ReachesTransitive(p, r, b, c);
    ReachesTransitive(p, s, c, b);
    EntersOnce(p, r, b, c);
  }
}
