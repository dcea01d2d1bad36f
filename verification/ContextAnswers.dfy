/** What the gate answers after a decision is published, cleared or entered with, whatever the other threads do. */
module ContextAnswers {
  import opened Common
  import opened ContextCells
  import opened ContextMachine
  import opened ContextBrackets

  // ----- the thread that publishes -----

  /** The machine once thread `t` has published `d` for `c`, the other threads' `others` coming in between. */
  ghost function Publishing(m: Machine, t: nat, c: string, d: Decision, others: seq<Event>): Machine
    requires Enabled(m, (t, Publish(c, d)))
  {
    Next(After(Step(m, (t, Publish(c, d))), others), (t, Continue))
  }

  lemma PublishLands(m: Machine, t: nat, c: string, d: Decision, others: seq<Event>)
    requires Enabled(m, (t, Publish(c, d))) && Without(others, t)
    ensures
      var done := Publishing(m, t, c, d, others);
      && |done.threads| == |m.threads| && done.threads[t].pending.Idle?
      && done.shared.engaged && Registered(done.shared, c) == Some(d)
      && done.threads[t].cells.context == m.threads[t].cells.context
      && (m.threads[t].cells.context == Some(c) ==> OwnDecision(done.threads[t].cells, c) == Some(d))
  {
    var begun := Step(m, (t, Publish(c, d)));
    OthersLeaveAlone(begun, others, t);
    StaysEngaged(begun, others);
  }

  /** A thread that publishes for the correlation it is serving is answered that decision from then on, clears by
      other threads included, until it acts itself. */
  lemma PublishedAnswers(m: Machine, t: nat, c: string, d: Decision, others: seq<Event>, later: seq<Event>)
    requires Enabled(m, (t, Publish(c, d))) && m.threads[t].cells.context == Some(c)
    requires Without(others, t) && Without(later, t)
    ensures
      var at := After(Publishing(m, t, c, d, others), later);
      && |at.threads| == |m.threads| && Gate(at.shared, at.threads[t].cells) == Some(d)
      && Enabled(at, (t, AskGate)) && Step(at, (t, AskGate)).threads[t].answer == Some((c, d))
  {
    PublishLands(m, t, c, d, others);
    OthersLeaveAlone(Publishing(m, t, c, d, others), later, t);
  }

  // ----- every other thread, through the registry -----

  /** The event writes or removes the registry's entry for `c`. */
  ghost predicate Rewrites(m: Machine, e: Event, c: string) {
    && Enabled(m, e) && e.1.Continue?
    && (m.threads[e.0].pending == Remove(c) || (m.threads[e.0].pending.Insert? && m.threads[e.0].pending.c == c))
  }

  ghost predicate Undisturbed(m: Machine, run: seq<Event>, c: string) {
    forall k: nat {:trigger After(m, run[..k])} :: k < |run| ==> !Rewrites(After(m, run[..k]), run[k], c)
  }

  lemma RegistryStep(m: Machine, e: Event, c: string)
    requires !Rewrites(m, e, c)
    ensures Registered(Next(m, e).shared, c) == Registered(m.shared, c)
  {
  }

  lemma {:induction false} RegistryStays(m: Machine, run: seq<Event>, c: string)
    requires Undisturbed(m, run, c)
    ensures Registered(After(m, run).shared, c) == Registered(m.shared, c)
    decreases |run|
  {
    if run != [] {
      var before := run[..|run| - 1];
      forall k: nat | k < |before| ensures !Rewrites(After(m, before[..k]), before[k], c) {
        assert before[..k] == run[..k];
      }
      RegistryStays(m, before, c);
      assert run[..|run| - 1] == before;
      RegistryStep(After(m, before), run[|run| - 1], c);
    }
  }

  /** Until the entry is rewritten, any thread serving `c` with no decision of its own is answered what was published. */
  lemma PublishedReachesAll(m: Machine, t: nat, c: string, d: Decision, others: seq<Event>, later: seq<Event>, u: nat)
    requires Enabled(m, (t, Publish(c, d))) && Without(others, t)
    requires Undisturbed(Publishing(m, t, c, d, others), later, c)
    requires
      var at := After(Publishing(m, t, c, d, others), later);
      u < |at.threads| && at.threads[u].cells.context == Some(c) && OwnDecision(at.threads[u].cells, c).None?
    ensures
      var at := After(Publishing(m, t, c, d, others), later);
      Gate(at.shared, at.threads[u].cells) == Some(d)
  {
    PublishLands(m, t, c, d, others);
    RegistryStays(Publishing(m, t, c, d, others), later, c);
    StaysEngaged(Publishing(m, t, c, d, others), later);
  }

  /** The machine once thread `u` has begun to serve `c`, the other threads' `others` coming in between. */
  ghost function Serving(m: Machine, u: nat, c: string, others: seq<Event>): Machine
    requires Enabled(m, (u, SetCorrelation(Some(c))))
  {
    var begun := Step(m, (u, SetCorrelation(Some(c))));
    if begun.threads[u].pending.Read? then Next(After(begun, others), (u, Continue)) else begun
  }

  lemma ServesRegistered(m: Machine, u: nat, c: string, d: Option<Decision>, others: seq<Event>)
    requires Enabled(m, (u, SetCorrelation(Some(c)))) && OwnDecision(m.threads[u].cells, c).None? && m.shared.engaged
    requires Without(others, u) && Undisturbed(Step(m, (u, SetCorrelation(Some(c)))), others, c) && Registered(m.shared, c) == d
    ensures
      var now := Serving(m, u, c, others);
      |now.threads| == |m.threads| && now.threads[u].cells.context == Some(c) && Gate(now.shared, now.threads[u].cells) == d
  {
    var begun := Step(m, (u, SetCorrelation(Some(c))));
    OthersLeaveAlone(begun, others, u);
    RegistryStays(begun, others, c);
    StaysEngaged(begun, others);
  }

  /** A thread that begins to serve `c` after the publication, before the entry is rewritten, is answered it too. */
  lemma PublishedIsServed(m: Machine, t: nat, c: string, d: Decision, others: seq<Event>, later: seq<Event>, u: nat, between: seq<Event>)
    requires Enabled(m, (t, Publish(c, d))) && Without(others, t)
    requires Undisturbed(Publishing(m, t, c, d, others), later, c)
    requires
      var at := After(Publishing(m, t, c, d, others), later);
      && Enabled(at, (u, SetCorrelation(Some(c)))) && OwnDecision(at.threads[u].cells, c).None?
      && Without(between, u) && Undisturbed(Step(at, (u, SetCorrelation(Some(c)))), between, c)
    ensures
      var now := Serving(After(Publishing(m, t, c, d, others), later), u, c, between);
      u < |now.threads| && now.threads[u].cells.context == Some(c) && Gate(now.shared, now.threads[u].cells) == Some(d)
  {
    PublishLands(m, t, c, d, others);
    RegistryStays(Publishing(m, t, c, d, others), later, c);
    StaysEngaged(Publishing(m, t, c, d, others), later);
    ServesRegistered(After(Publishing(m, t, c, d, others), later), u, c, Some(d), between);
  }

  // ----- clearing -----

  /** The machine once thread `t` has cleared `c`, the other threads' `others` coming in between. */
  ghost function Clearing(m: Machine, t: nat, c: string, others: seq<Event>): Machine
    requires Enabled(m, (t, Clear(c)))
  {
    var begun := Step(m, (t, Clear(c)));
    if m.shared.engaged then Next(After(begun, others), (t, Continue)) else begun
  }

  lemma ClearLands(m: Machine, t: nat, c: string, others: seq<Event>)
    requires Enabled(m, (t, Clear(c))) && Without(others, t) && (m.shared.engaged || Registered(m.shared, c) == None)
    ensures Registered(Clearing(m, t, c, others).shared, c) == None
  {
    OthersLeaveAlone(Step(m, (t, Clear(c))), others, t);
  }

  /** Once a clear has gone through and until the next publication, nothing is answered for `c` on any thread
      that has no decision of its own for it. */
  lemma ClearedIsForgotten(m: Machine, t: nat, c: string, others: seq<Event>, later: seq<Event>, u: nat)
    requires Enabled(m, (t, Clear(c))) && Without(others, t) && (m.shared.engaged || Registered(m.shared, c) == None)
    requires Undisturbed(Clearing(m, t, c, others), later, c)
    requires
      var at := After(Clearing(m, t, c, others), later);
      u < |at.threads| && at.threads[u].cells.context == Some(c) && OwnDecision(at.threads[u].cells, c).None?
    ensures
      var at := After(Clearing(m, t, c, others), later);
      Gate(at.shared, at.threads[u].cells) == None
  {
    ClearLands(m, t, c, others);
    RegistryStays(Clearing(m, t, c, others), later, c);
  }

  // ----- entering and leaving -----

  /** Inside an entered snapshot the thread serves its correlation, and is answered its decision; a decision that
      names no correlation is answered to nobody. */
  lemma EnteredAnswers(m: Machine, t: nat, s: Snapshot, others: seq<Event>, inside: seq<Event>)
    requires Enabled(m, (t, EnterContext(s))) && Without(others, t) && Without(inside, t)
    ensures
      var at := After(Opened(m, (t, EnterContext(s)), others), inside);
      && |at.threads| == |m.threads| && at.threads[t].cells.context == s.correlation
      && (s.correlation.Some? && s.decision.Some? ==> Gate(at.shared, at.threads[t].cells) == s.decision)
      && (s.correlation.None? ==> Gate(at.shared, at.threads[t].cells) == None)
  {
    CaptureOpens(m, (t, EnterContext(s)), others);
    OthersLeaveAlone(Opened(m, (t, EnterContext(s)), others), inside, t);
  }

  lemma {:induction false} HeldStays(m: Machine, run: seq<Event>)
    ensures m.held <= After(m, run).held
  {
    if run != [] {
      HeldStays(m, run[..|run| - 1]);
    }
  }

  /** A snapshot given a decision is held from then on, by any thread, and whoever enters it is answered that decision. */
  lemma AttachedAnswers(m: Machine, t: nat, s: Snapshot, d: Decision, later: seq<Event>, u: nat, others: seq<Event>)
    requires Enabled(m, (t, Attach(s, d))) && s.correlation.Some?
    requires
      var at := After(Step(m, (t, Attach(s, d))), later);
      u < |at.threads| && at.threads[u].pending.Idle? && Without(others, u)
    ensures
      var at, attached := After(Step(m, (t, Attach(s, d))), later), Snapshot(s.correlation, Some(d));
      && Enabled(at, (u, EnterContext(attached)))
      && var inside := Opened(at, (u, EnterContext(attached)), others);
         u < |inside.threads| && inside.threads[u].cells.context == s.correlation && Gate(inside.shared, inside.threads[u].cells) == Some(d)
  {
    var at, attached := After(Step(m, (t, Attach(s, d))), later), Snapshot(s.correlation, Some(d));
    HeldStays(Step(m, (t, Attach(s, d))), later);
    EnteredAnswers(at, u, attached, others, []);
  }

  /** A context set together with its decision is served and answered until the thread acts again; a decision set
      for no correlation is answered to nobody. */
  lemma SetAnswers(m: Machine, t: nat, c: Option<string>, d: Option<Decision>, later: seq<Event>)
    requires Enabled(m, (t, SetWithDecision(c, d))) && Without(later, t)
    ensures
      var at := After(Step(m, (t, SetWithDecision(c, d))), later);
      && |at.threads| == |m.threads| && at.threads[t].cells.context == c
      && (c.Some? && d.Some? ==> Gate(at.shared, at.threads[t].cells) == d)
      && (c.None? ==> Gate(at.shared, at.threads[t].cells) == None)
  {
    OthersLeaveAlone(Step(m, (t, SetWithDecision(c, d))), later, t);
  }

  /** A correlation set with no decision is answered what the registry holds for it: the gate is closed exactly when
      that is nothing. */
  lemma SetWithoutDecision(m: Machine, t: nat, c: string, later: seq<Event>)
    requires Enabled(m, (t, SetWithDecision(Some(c), None))) && Without(later, t)
    ensures
      var at := After(Step(m, (t, SetWithDecision(Some(c), None))), later);
      && |at.threads| == |m.threads| && at.threads[t].cells.context == Some(c)
      && Gate(at.shared, at.threads[t].cells) == Lookup(at.shared, c)
  {
    OthersLeaveAlone(Step(m, (t, SetWithDecision(Some(c), None))), later, t);
  }

  /** One thread publishes for a correlation and then sets it with no decision: the gate still answers. */
  lemma NoDecisionStillAnswered()
    ensures
      var m := After(Initial(1), [(0, Publish("c", Record)), (0, Continue), (0, SetWithDecision(Some("c"), None))]);
      |m.threads| == 1 && Gate(m.shared, m.threads[0].cells) == Some(Record)
  {
    var run: seq<Event> := [(0, Publish("c", Record)), (0, Continue), (0, SetWithDecision(Some("c"), None))];
    assert run[..2][..1] == run[..1] && run[..1][..0] == [];
    var published := After(Initial(1), run[..2]);
    PublishLands(Initial(1), 0, "c", Record, []);
    assert After(Initial(1), run[..1]) == Step(Initial(1), (0, Publish("c", Record)));
    assert published == Publishing(Initial(1), 0, "c", Record, []);
    SetWithoutDecision(published, 0, "c", []);
  }

  /** A capture taken with nobody in between is held: the correlation served, with what the gate answers for it. */
  lemma CapturedIsHeld(m: Machine, t: nat)
    requires Enabled(m, (t, CaptureNow))
    ensures
      var done, cells := Settled(Step(m, (t, CaptureNow)), t), m.threads[t].cells;
      done.held == m.held + {Snapshot(cells.context, Gate(m.shared, cells))}
  {
  }

  /** A snapshot made for a correlation with nobody in between is held, with what a thread serving it would be answered. */
  lemma NewIsHeld(m: Machine, t: nat, c: string)
    requires Enabled(m, (t, NewSnapshot(c)))
    ensures
      var done, cells := Settled(Step(m, (t, NewSnapshot(c))), t), m.threads[t].cells;
      done.held == m.held + {Snapshot(Some(c), Gate(m.shared, cells.(context := Some(c))))}
  {
  }

  /** A stop with no poll to match leaves the thread serving nothing, with its gate closed. */
  lemma StrayStopCloses(m: Machine, t: nat)
    requires Enabled(m, (t, PollStop)) && m.threads[t].cells.stack == []
    ensures
      var after := Step(m, (t, PollStop));
      && |after.threads| == |m.threads| && after.threads[t].cells == Cells(None, None, None, [])
      && Gate(after.shared, after.threads[t].cells) == None
  {
  }

  /** A terminated task begins any later poll serving nothing, unless it is spawned again. */
  lemma TerminatedTaskIsClosed(m: Machine, t: nat, task: string, later: seq<Event>, u: nat)
    requires Enabled(m, (t, Terminate(task))) && Untouched(Step(m, (t, Terminate(task))), later, task)
    requires
      var at := After(Step(m, (t, Terminate(task))), later);
      Enabled(at, (u, Continue)) && at.threads[u].pending == Load(task)
    ensures
      var polling := Step(After(Step(m, (t, Terminate(task))), later), (u, Continue));
      polling.threads[u].cells.context == None && Gate(polling.shared, polling.threads[u].cells) == None
  {
    StoredStays(Step(m, (t, Terminate(task))), later, task);
  }
}
