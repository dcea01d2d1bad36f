/** Brackets and spawned tasks: what a thread gets back when it leaves a context, and what a task begins
    each poll with, whatever the other threads do meanwhile. */
module ContextBrackets {
  import opened Common
  import opened ContextCells
  import opened ContextMachine

  /** No event of thread `t` is performed. */
  ghost predicate Without(run: seq<Event>, t: nat) {
    forall i :: 0 <= i < |run| ==> run[i].0 != t
  }

  lemma OtherThread(m: Machine, e: Event, t: nat)
    requires t < |m.threads| && e.0 != t
    ensures |Next(m, e).threads| == |m.threads| && Next(m, e).threads[t] == m.threads[t]
  {
  }

  lemma {:induction false} OthersLeaveAlone(m: Machine, run: seq<Event>, t: nat)
    requires t < |m.threads| && Without(run, t)
    ensures |After(m, run).threads| == |m.threads| && After(m, run).threads[t] == m.threads[t]
  {
    if run != [] {
      OthersLeaveAlone(m, run[..|run| - 1], t);
      OtherThread(After(m, run[..|run| - 1]), run[|run| - 1], t);
    }
  }

  lemma {:induction false} StaysEngaged(m: Machine, run: seq<Event>)
    ensures m.shared.engaged ==> After(m, run).shared.engaged
  {
    if run != [] {
      StaysEngaged(m, run[..|run| - 1]);
    }
  }

  // ----- a capture, from its first touch of shared state to its last -----

  predicate Captures(a: Action) {
    a.EnterContext? || a.Spawn? || a.PollStart?
  }

  /** The machine once the capture that `e` begins is complete. When it has to read the registry, the
      other threads' events `others` come in between. */
  ghost function Opened(m: Machine, e: Event, others: seq<Event>): Machine
    requires Enabled(m, e)
  {
    var begun := Step(m, e);
    if begun.threads[e.0].pending.Read? then Next(After(begun, others), (e.0, Continue)) else begun
  }

  /** The registries as the capture saw them. */
  ghost function Seen(m: Machine, e: Event, others: seq<Event>): Shared
    requires Enabled(m, e)
  {
    var begun := Step(m, e);
    if begun.threads[e.0].pending.Read? then After(begun, others).shared else m.shared
  }

  /** A capture that need not read the registry hands over what the thread's cells and the registries answer now. */
  lemma CapturesAtOnce(m: Machine, t: nat, andThen: Then)
    requires t < |m.threads| && m.threads[t].pending.Idle? && !BeginCapture(m, t, andThen).threads[t].pending.Read?
    ensures BeginCapture(m, t, andThen) == Finish(m, t, Capture(m.shared, m.threads[t].cells), andThen)
  {
  }

  /** A capture that has to read waits with nothing else changed. */
  lemma WaitsToRead(m: Machine, t: nat, andThen: Then)
    requires t < |m.threads| && m.threads[t].pending.Idle? && BeginCapture(m, t, andThen).threads[t].pending.Read?
    ensures
      var cells := m.threads[t].cells;
      && m.shared.engaged && cells.context.Some? && OwnDecision(cells, cells.context.value).None?
      && BeginCapture(m, t, andThen) == WithThread(m, t, m.threads[t].(pending := Read(cells.context.value, andThen)))
  {
  }

  /** One that reads hands over what they answer when it does: only the thread itself can change its cells meanwhile. */
  lemma CapturesLater(m: Machine, t: nat, others: seq<Event>, andThen: Then)
    requires t < |m.threads| && m.threads[t].pending.Idle? && BeginCapture(m, t, andThen).threads[t].pending.Read? && Without(others, t)
    ensures
      var at := After(BeginCapture(m, t, andThen), others);
      && |at.threads| == |m.threads| && Enabled(at, (t, Continue))
      && at.threads[t] == m.threads[t].(pending := Read(m.threads[t].cells.context.value, andThen))
      && Next(at, (t, Continue)) == Finish(at, t, Capture(at.shared, m.threads[t].cells), andThen)
  {
    var begun := BeginCapture(m, t, andThen);
    WaitsToRead(m, t, andThen);
    OthersLeaveAlone(begun, others, t);
    StaysEngaged(begun, others);
    ReadFinishes(After(begun, others), t, m.threads[t].cells, andThen);
  }

  lemma ReadFinishes(at: Machine, t: nat, cells: Cells, andThen: Then)
    requires t < |at.threads| && at.shared.engaged && cells.context.Some? && OwnDecision(cells, cells.context.value).None?
    requires at.threads[t].pending == Read(cells.context.value, andThen)
    ensures Enabled(at, (t, Continue)) && Next(at, (t, Continue)) == Finish(at, t, Capture(at.shared, cells), andThen)
  {
  }

  /** Either way, the thread is left as finishing the capture leaves it. */
  lemma CaptureFinishes(m: Machine, t: nat, others: seq<Event>, andThen: Then)
    requires t < |m.threads| && m.threads[t].pending.Idle? && Without(others, t)
    ensures
      var begun := BeginCapture(m, t, andThen);
      var waits := begun.threads[t].pending.Read?;
      var at := if waits then After(begun, others) else m;
      var end := if waits then Next(at, (t, Continue)) else begun;
      && |at.threads| == |m.threads| == |end.threads|
      && end.threads[t] == Finish(m, t, Capture(at.shared, m.threads[t].cells), andThen).threads[t]
  {
    if BeginCapture(m, t, andThen).threads[t].pending.Read? {
      CapturesLater(m, t, others, andThen);
    } else {
      CapturesAtOnce(m, t, andThen);
    }
  }

  /** What a completed capture leaves on its thread. */
  lemma CaptureOpens(m: Machine, e: Event, others: seq<Event>)
    requires Enabled(m, e) && Captures(e.1) && Without(others, e.0)
    ensures
      var th, seen := m.threads[e.0], Seen(m, e, others);
      var s := Capture(seen, th.cells);
      && |Opened(m, e, others).threads| == |m.threads|
      && Opened(m, e, others).threads[e.0] ==
         match e.1
         case EnterContext(next) => th.(guards := th.guards + [s], cells := Install(th.cells, next))
         case Spawn(task) => th.(pending := Store(task, s))
         case PollStart(task) =>
           th.(cells := th.cells.(task := Some(task), stack := th.cells.stack + [Frame(th.cells.task, s)]), pending := Load(task))
         case _ => th
  {
    var (t, a) := e;
    var th := m.threads[t];
    match a
    case EnterContext(next) => CaptureFinishes(m, t, others, ToEnter(next));
    case Spawn(task) => CaptureFinishes(m, t, others, ToSpawn(task));
    case PollStart(task) =>
      var named := WithThread(m, t, th.(cells := th.cells.(task := Some(task))));
      CaptureFinishes(named, t, others, ToPoll(task, th.cells.task));
    case _ =>
  }

  // ----- the poll bracket -----

  function Stack(m: Machine, t: nat): seq<Frame>
    requires t < |m.threads|
  {
    m.threads[t].cells.stack
  }

  lemma StackStep(m: Machine, e: Event, t: nat, n: nat)
    requires t < |m.threads| && n <= |Stack(m, t)|
    ensures |Next(m, e).threads| == |m.threads|
    ensures n <= |Stack(Next(m, e), t)| ==> Stack(Next(m, e), t)[..n] == Stack(m, t)[..n]
  {
    if e.0 != t {
      OtherThread(m, e, t);
    }
  }

  /** The thread never pops below its first `n` frames. */
  ghost predicate HoldsFrames(m: Machine, run: seq<Event>, t: nat, n: nat) {
    forall k: nat {:trigger After(m, run[..k])} :: k <= |run| ==>
      t < |After(m, run[..k]).threads| && n <= |Stack(After(m, run[..k]), t)|
  }

  lemma {:induction false} FramesStay(m: Machine, run: seq<Event>, t: nat, n: nat)
    requires t < |m.threads| && HoldsFrames(m, run, t, n)
    ensures |After(m, run).threads| == |m.threads|
    ensures n <= |Stack(m, t)| && n <= |Stack(After(m, run), t)| && Stack(After(m, run), t)[..n] == Stack(m, t)[..n]
    decreases |run|
  {
    assert run[..0] == [] && After(m, run[..0]) == m;
    assert run[..|run|] == run;
    if run != [] {
      var before := run[..|run| - 1];
      forall k: nat | k <= |before|
        ensures t < |After(m, before[..k]).threads| && n <= |Stack(After(m, before[..k]), t)|
      {
        assert before[..k] == run[..k];
      }
      FramesStay(m, before, t, n);
      StackStep(After(m, before), run[|run| - 1], t, n);
    }
  }

  /** Around a poll the thread ends with the correlation and task it began with. If the gate had an answer
      when the poll's capture was made, it gives that answer again, whatever became of the registry entry. */
  lemma PollBracket(m: Machine, t: nat, task: string, others: seq<Event>, inside: seq<Event>)
    requires Enabled(m, (t, PollStart(task))) && Without(others, t)
    requires
      var entered := Opened(m, (t, PollStart(task)), others);
      && HoldsFrames(entered, inside, t, |Stack(m, t)| + 1)
      && Enabled(After(entered, inside), (t, PollStop)) && |Stack(After(entered, inside), t)| == |Stack(m, t)| + 1
    ensures
      var entered, seen := Opened(m, (t, PollStart(task)), others), Seen(m, (t, PollStart(task)), others);
      var closed := Step(After(entered, inside), (t, PollStop));
      var was, now := m.threads[t].cells, closed.threads[t].cells;
      && now.context == was.context && now.task == was.task && now.stack == was.stack
      && (Gate(seen, was).Some? ==> Gate(closed.shared, now) == Gate(seen, was))
  {
    var e := (t, PollStart(task));
    var entered := Opened(m, e, others);
    CaptureOpens(m, e, others);
    FramesStay(entered, inside, t, |Stack(m, t)| + 1);
    var last := Stack(After(entered, inside), t);
    assert last == last[..|Stack(m, t)| + 1] == Stack(entered, t);
  }

  // ----- the guard bracket -----

  /** Guards are a stack: a step leaves them, pushes one, or drops the last. */
  ghost predicate PushedOrDropped<T(!new)>(was: seq<T>, now: seq<T>) {
    now == was || (|now| == |was| + 1 && now[..|was|] == was) || (|was| == |now| + 1 && was[..|now|] == now)
  }

  lemma BeginGuards(m: Machine, t: nat, c: string, andThen: Then)
    requires t < |m.threads|
    ensures |Begin(m, t, c, andThen).threads| == |m.threads|
    ensures PushedOrDropped(m.threads[t].guards, Begin(m, t, c, andThen).threads[t].guards)
  {
  }

  lemma CaptureGuards(m: Machine, t: nat, andThen: Then)
    requires t < |m.threads|
    ensures |BeginCapture(m, t, andThen).threads| == |m.threads|
    ensures PushedOrDropped(m.threads[t].guards, BeginCapture(m, t, andThen).threads[t].guards)
  {
    if m.threads[t].cells.context.Some? {
      BeginGuards(m, t, m.threads[t].cells.context.value, andThen);
    }
  }

  lemma PerformGuards(m: Machine, t: nat)
    requires t < |m.threads|
    ensures |Perform(m, t).threads| == |m.threads| && PushedOrDropped(m.threads[t].guards, Perform(m, t).threads[t].guards)
  {
  }

  lemma StepGuards(m: Machine, e: Event)
    requires Enabled(m, e)
    ensures |Step(m, e).threads| == |m.threads| && PushedOrDropped(m.threads[e.0].guards, Step(m, e).threads[e.0].guards)
  {
    var (t, a) := e;
    match a
    case AskGate => CaptureGuards(m, t, ToAnswer);
    case CaptureNow => CaptureGuards(m, t, ToHold);
    case NewSnapshot(c) => BeginGuards(m, t, c, ToHold);
    case EnterContext(s) => CaptureGuards(m, t, ToEnter(s));
    case SetCorrelation(correlation) =>
      if correlation.Some? {
        BeginGuards(m, t, correlation.value, ToSet);
      }
    case Spawn(task) => CaptureGuards(m, t, ToSpawn(task));
    case PollStart(task) =>
      var th := m.threads[t];
      CaptureGuards(WithThread(m, t, th.(cells := th.cells.(task := Some(task)))), t, ToPoll(task, th.cells.task));
    case Continue => PerformGuards(m, t);
    case _ =>
  }

  lemma GuardStep(m: Machine, e: Event, t: nat, n: nat)
    requires t < |m.threads| && n <= |m.threads[t].guards|
    ensures |Next(m, e).threads| == |m.threads|
    ensures n <= |Next(m, e).threads[t].guards| ==> Next(m, e).threads[t].guards[..n] == m.threads[t].guards[..n]
  {
    if e.0 != t {
      OtherThread(m, e, t);
    } else if Enabled(m, e) {
      StepGuards(m, e);
      var was, now := m.threads[t].guards, Step(m, e).threads[t].guards;
      if n <= |now| {
        SamePrefix(was, now, n);
      }
    }
  }

  lemma SamePrefix<T(!new)>(was: seq<T>, now: seq<T>, n: nat)
    requires PushedOrDropped(was, now) && n <= |was| && n <= |now|
    ensures now[..n] == was[..n]
  {
    if |now| == |was| + 1 {
      assert now[..n] == now[..|was|][..n];
    } else if |was| == |now| + 1 {
      assert was[..n] == was[..|now|][..n];
    }
  }

  ghost predicate HoldsGuards(m: Machine, run: seq<Event>, t: nat, n: nat) {
    forall k: nat {:trigger After(m, run[..k])} :: k <= |run| ==>
      t < |After(m, run[..k]).threads| && n <= |After(m, run[..k]).threads[t].guards|
  }

  lemma {:induction false} GuardsStay(m: Machine, run: seq<Event>, t: nat, n: nat)
    requires t < |m.threads| && HoldsGuards(m, run, t, n)
    ensures |After(m, run).threads| == |m.threads|
    ensures n <= |m.threads[t].guards| && n <= |After(m, run).threads[t].guards|
    ensures After(m, run).threads[t].guards[..n] == m.threads[t].guards[..n]
    decreases |run|
  {
    assert run[..0] == [] && After(m, run[..0]) == m;
    assert run[..|run|] == run;
    if run != [] {
      var before := run[..|run| - 1];
      forall k: nat | k <= |before|
        ensures t < |After(m, before[..k]).threads| && n <= |After(m, before[..k]).threads[t].guards|
      {
        assert before[..k] == run[..k];
      }
      GuardsStay(m, before, t, n);
      GuardStep(After(m, before), run[|run| - 1], t, n);
    }
  }

  /** Dropping a guard gives back the correlation its thread entered from, and any answer the gate had then. */
  lemma GuardBracket(m: Machine, t: nat, s: Snapshot, others: seq<Event>, inside: seq<Event>)
    requires Enabled(m, (t, EnterContext(s))) && Without(others, t)
    requires
      var entered := Opened(m, (t, EnterContext(s)), others);
      && HoldsGuards(entered, inside, t, |m.threads[t].guards| + 1)
      && Enabled(After(entered, inside), (t, DropLast))
      && |After(entered, inside).threads[t].guards| == |m.threads[t].guards| + 1
    ensures
      var entered, seen := Opened(m, (t, EnterContext(s)), others), Seen(m, (t, EnterContext(s)), others);
      var closed := Step(After(entered, inside), (t, DropLast));
      var was, now := m.threads[t].cells, closed.threads[t].cells;
      && now.context == was.context && closed.threads[t].guards == m.threads[t].guards
      && (Gate(seen, was).Some? ==> Gate(closed.shared, now) == Gate(seen, was))
  {
    var e := (t, EnterContext(s));
    var entered := Opened(m, e, others);
    CaptureOpens(m, e, others);
    GuardsStay(entered, inside, t, |m.threads[t].guards| + 1);
    var last := After(entered, inside).threads[t].guards;
    assert last == last[..|m.threads[t].guards| + 1] == entered.threads[t].guards;
  }

  // ----- spawned tasks -----

  /** The event stores a context for `task`, or removes it. */
  ghost predicate Touches(m: Machine, e: Event, task: string) {
    && Enabled(m, e)
    && (e.1 == Terminate(task) || (e.1.Continue? && m.threads[e.0].pending.Store? && m.threads[e.0].pending.task == task))
  }

  ghost predicate Untouched(m: Machine, run: seq<Event>, task: string) {
    forall k: nat {:trigger After(m, run[..k])} :: k < |run| ==> !Touches(After(m, run[..k]), run[k], task)
  }

  lemma TaskStep(m: Machine, e: Event, task: string)
    requires !Touches(m, e, task)
    ensures StoredFor(Next(m, e).shared, task) == StoredFor(m.shared, task)
  {
  }

  lemma {:induction false} StoredStays(m: Machine, run: seq<Event>, task: string)
    requires Untouched(m, run, task)
    ensures StoredFor(After(m, run).shared, task) == StoredFor(m.shared, task)
    decreases |run|
  {
    if run != [] {
      var before := run[..|run| - 1];
      forall k: nat | k < |before| ensures !Touches(After(m, before[..k]), before[k], task) {
        assert before[..k] == run[..k];
      }
      StoredStays(m, before, task);
      assert !Touches(After(m, run[..|run| - 1]), run[|run| - 1], task);
      TaskStep(After(m, before), run[|run| - 1], task);
    }
  }

  /** A task spawned while the gate answered for a correlation begins every later poll serving that
      correlation with that answer: on any thread, over any leftover state, after any registry change, until
      its stored context is removed or replaced. */
  lemma SpawnedTaskKeepsDecision(m: Machine, t: nat, task: string, others: seq<Event>, waiting: seq<Event>, later: seq<Event>, u: nat)
    requires Enabled(m, (t, Spawn(task))) && Without(others, t) && Without(waiting, t)
    requires Gate(Seen(m, (t, Spawn(task)), others), m.threads[t].cells).Some?
    requires
      var stored := Next(After(Opened(m, (t, Spawn(task)), others), waiting), (t, Continue));
      && Untouched(stored, later, task)
      && Enabled(After(stored, later), (u, Continue)) && After(stored, later).threads[u].pending == Load(task)
    ensures
      var stored := Next(After(Opened(m, (t, Spawn(task)), others), waiting), (t, Continue));
      var polling := Step(After(stored, later), (u, Continue));
      && polling.threads[u].cells.context == m.threads[t].cells.context
      && Gate(polling.shared, polling.threads[u].cells) == Gate(Seen(m, (t, Spawn(task)), others), m.threads[t].cells)
  {
    var entered := Opened(m, (t, Spawn(task)), others);
    CaptureOpens(m, (t, Spawn(task)), others);
    OthersLeaveAlone(entered, waiting, t);
    var stored := Next(After(entered, waiting), (t, Continue));
    assert StoredFor(stored.shared, task) == Capture(Seen(m, (t, Spawn(task)), others), m.threads[t].cells);
    StoredStays(stored, later, task);
  }

  /** A task with no stored context begins its poll with no correlation and a closed gate. */
  lemma UnknownTaskIsClosed(m: Machine, u: nat, task: string)
    requires Enabled(m, (u, Continue)) && m.threads[u].pending == Load(task) && task !in m.shared.tasks
    ensures
      var polling := Step(m, (u, Continue));
      polling.threads[u].cells.context.None? && Gate(polling.shared, polling.threads[u].cells).None?
  {
  }

  // ----- an operation no other thread interrupts is the whole operation -----

  /** Run the thread's pending accesses, with nobody in between. */
  ghost function Settled(m: Machine, t: nat): Machine
    requires t < |m.threads|
  {
    var once := Next(m, (t, Continue));
    Next(once, (t, Continue))
  }

  lemma AlonePublish(m: Machine, t: nat, c: string, d: Decision)
    requires Enabled(m, (t, Publish(c, d)))
    ensures
      var done := Settled(Step(m, (t, Publish(c, d))), t);
      && |done.threads| == |m.threads| && done.threads[t].pending.Idle? && done.shared == Published(m.shared, c, d)
      && done.threads[t].cells == NotedLocally(m.threads[t].cells, c, d)
  {
  }

  /** A poll start nobody interrupts is the carrier's own `TaskPollStart`. */
  lemma AlonePollStart(m: Machine, t: nat, task: string)
    requires Enabled(m, (t, PollStart(task)))
    ensures
      var done := Settled(Step(m, (t, PollStart(task))), t);
      && |done.threads| == |m.threads| && done.threads[t].pending.Idle? && done.shared == m.shared
      && done.threads[t].cells == PollStarted(m.shared, m.threads[t].cells, task)
  {
    CaptureOpens(m, (t, PollStart(task)), []);
  }

  lemma AloneSpawn(m: Machine, t: nat, task: string)
    requires Enabled(m, (t, Spawn(task)))
    ensures
      var done := Settled(Step(m, (t, Spawn(task))), t);
      && |done.threads| == |m.threads| && done.threads[t].pending.Idle? && done.threads[t].cells == m.threads[t].cells
      && done.shared == Spawned(m.shared, task, Capture(m.shared, m.threads[t].cells))
  {
    CaptureOpens(m, (t, Spawn(task)), []);
  }

  lemma AloneEnter(m: Machine, t: nat, s: Snapshot)
    requires Enabled(m, (t, EnterContext(s)))
    ensures
      var done := Settled(Step(m, (t, EnterContext(s))), t);
      && |done.threads| == |m.threads| && done.threads[t].pending.Idle? && done.shared == m.shared
      && done.threads[t].cells == Install(m.threads[t].cells, s)
      && done.threads[t].guards == m.threads[t].guards + [Capture(m.shared, m.threads[t].cells)]
  {
    CaptureOpens(m, (t, EnterContext(s)), []);
  }

  /** A gate asked with nobody in between answers what `Gate` says. */
  lemma AloneAsk(m: Machine, t: nat)
    requires Enabled(m, (t, AskGate))
    ensures
      var done := Settled(Step(m, (t, AskGate)), t);
      && |done.threads| == |m.threads| && done.threads[t].pending.Idle?
      && done.threads[t].answer == OwnedBy(Snapshot(m.threads[t].cells.context, Gate(m.shared, m.threads[t].cells)))
  {
  }

  /** Beginning to serve a correlation with nobody in between is the carrier's own `SetCurrentCorrelation`. */
  lemma AloneSetCorrelation(m: Machine, t: nat, c: Option<string>)
    requires Enabled(m, (t, SetCorrelation(c)))
    ensures
      var done := Settled(Step(m, (t, SetCorrelation(c))), t);
      && |done.threads| == |m.threads| && done.threads[t].pending.Idle? && done.shared == m.shared
      && done.threads[t].cells == Install(m.threads[t].cells, if c.None? then EMPTY else Snapshot(c, Resolve(m.shared, m.threads[t].cells, c.value)))
  {
  }
}
