/** Every interleaving of threads over the context carrier. An operation that touches shared state more
    than once is split at each touch; other threads may run in between. */
module ContextMachine {
  import opened Common
  import opened ContextCells

  /** What a resolved snapshot is wanted for. */
  datatype Then =
    | ToHold
    | ToAnswer
    | ToEnter(snapshot: Snapshot)
    | ToSet
    | ToSpawn(task: string)
    | ToPoll(task: string, previousTask: Option<string>)

  /** The shared access a thread is about to make. */
  datatype Pending =
    | Idle
    | Insert(c: string, d: Decision)
    | Remove(c: string)
    | Read(c: string, andThen: Then)
    | Store(task: string, snapshot: Snapshot)
    | Load(task: string)

  /** A thread: its cells, the guards alive on it, its next shared access, and the gate's last answer. */
  datatype Thread = Thread(cells: Cells, guards: seq<Snapshot>, pending: Pending, answer: Option<(string, Decision)>)

  /** `held` are the snapshots in the program's hands: futures, fields, variables of any thread. */
  datatype Machine = Machine(shared: Shared, threads: seq<Thread>, held: set<Snapshot>)

  datatype Action =
    | Publish(c: string, d: Decision)
    | Clear(c: string)
    | AskGate
    | CaptureNow
    | NewSnapshot(c: string)
    | Attach(snapshot: Snapshot, d: Decision)
    | EnterContext(snapshot: Snapshot)
    | DropLast
    | SetCorrelation(correlation: Option<string>)
    | SetWithDecision(correlation: Option<string>, decision: Option<Decision>)
    | Spawn(task: string)
    | PollStart(task: string)
    | PollStop
    | Terminate(task: string)
    | Continue

  type Event = (nat, Action)

  /** The public operations start on an idle thread; a started one goes on with `Continue`. A program can
      only enter, or attach a decision to, a snapshot it holds. */
  predicate Enabled(m: Machine, e: Event) {
    && e.0 < |m.threads|
    && (if e.1.Continue? then !m.threads[e.0].pending.Idle? else m.threads[e.0].pending.Idle?)
    && (e.1.EnterContext? || e.1.Attach? ==> e.1.snapshot in m.held)
    && (e.1.DropLast? ==> m.threads[e.0].guards != [])
  }

  function WithThread(m: Machine, t: nat, th: Thread): Machine
    requires t < |m.threads|
  {
    m.(threads := m.threads[t := th])
  }

  function Answer(s: Snapshot): Option<(string, Decision)> {
    OwnedBy(s)
  }

  /** A resolved snapshot goes where it was wanted. */
  function Finish(m: Machine, t: nat, s: Snapshot, andThen: Then): Machine
    requires t < |m.threads|
  {
    var th := m.threads[t].(pending := Idle);
    match andThen
    case ToHold => WithThread(m, t, th).(held := m.held + {s})
    case ToAnswer => WithThread(m, t, th.(answer := Answer(s)))
    case ToEnter(next) => WithThread(m, t, th.(guards := th.guards + [s], cells := Install(th.cells, next)))
    case ToSet => WithThread(m, t, th.(cells := Install(th.cells, s)))
    case ToSpawn(task) => WithThread(m, t, th.(pending := Store(task, s)))
    case ToPoll(task, previousTask) =>
      WithThread(m, t, th.(cells := th.cells.(stack := th.cells.stack + [Frame(previousTask, s)]), pending := Load(task)))
  }

  /** Resolving starts with the thread's own cell, then the flag; only an engaged registry is read. */
  function Begin(m: Machine, t: nat, c: string, andThen: Then): Machine
    requires t < |m.threads|
  {
    var own := OwnDecision(m.threads[t].cells, c);
    if own.Some? || !m.shared.engaged then Finish(m, t, Snapshot(Some(c), own), andThen)
    else WithThread(m, t, m.threads[t].(pending := Read(c, andThen)))
  }

  function BeginCapture(m: Machine, t: nat, andThen: Then): Machine
    requires t < |m.threads|
  {
    var context := m.threads[t].cells.context;
    if context.None? then Finish(m, t, EMPTY, andThen) else Begin(m, t, context.value, andThen)
  }

  /** The pending shared access happens. */
  function Perform(m: Machine, t: nat): Machine
    requires t < |m.threads|
  {
    var th := m.threads[t].(pending := Idle);
    match m.threads[t].pending
    case Idle => m
    case Insert(c, d) =>
      WithThread(m, t, th.(cells := NotedLocally(th.cells, c, d))).(shared := m.shared.(decisions := m.shared.decisions[c := d]))
    case Remove(c) => WithThread(m, t, th).(shared := m.shared.(decisions := m.shared.decisions - {c}))
    case Read(c, andThen) => Finish(m, t, Snapshot(Some(c), Registered(m.shared, c)), andThen)
    case Store(task, s) => WithThread(m, t, th).(shared := Spawned(m.shared, task, s))
    case Load(task) => WithThread(m, t, th.(cells := Install(th.cells, StoredFor(m.shared, task))))
  }

  function Step(m: Machine, e: Event): Machine
    requires Enabled(m, e)
  {
    var (t, a) := e;
    var th := m.threads[t];
    match a
    case Publish(c, d) => WithThread(m, t, th.(pending := Insert(c, d))).(shared := m.shared.(engaged := true))
    case Clear(c) => if m.shared.engaged then WithThread(m, t, th.(pending := Remove(c))) else m
    case AskGate => BeginCapture(m, t, ToAnswer)
    case CaptureNow => BeginCapture(m, t, ToHold)
    case NewSnapshot(c) => Begin(m, t, c, ToHold)
    case Attach(s, d) => m.(held := m.held + {s.(decision := Some(d))})
    case EnterContext(s) => BeginCapture(m, t, ToEnter(s))
    case DropLast =>
      var n := |th.guards| - 1;
      WithThread(m, t, th.(guards := th.guards[..n], cells := Install(th.cells, th.guards[n])))
    case SetCorrelation(correlation) =>
      if correlation.None? then WithThread(m, t, th.(cells := Install(th.cells, EMPTY))) else Begin(m, t, correlation.value, ToSet)
    case SetWithDecision(correlation, decision) =>
      WithThread(m, t, th.(cells := Install(th.cells, if correlation.None? then EMPTY else Snapshot(correlation, decision))))
    case Spawn(task) => BeginCapture(m, t, ToSpawn(task))
    case PollStart(task) =>
      BeginCapture(WithThread(m, t, th.(cells := th.cells.(task := Some(task)))), t, ToPoll(task, th.cells.task))
    case PollStop => WithThread(m, t, th.(cells := PollStopped(th.cells)))
    case Terminate(task) => m.(shared := m.shared.(tasks := m.shared.tasks - {task}))
    case Continue => Perform(m, t)
  }

  function Initial(threads: nat): Machine {
    Machine(Shared(false, map[], map[]), seq(threads, i => Thread(NO_CELLS, [], Idle, None)), {EMPTY})
  }

  function Next(m: Machine, e: Event): Machine {
    if Enabled(m, e) then Step(m, e) else m
  }

  /** The machine after a run: any events, by any threads, in any order. */
  function After(m: Machine, run: seq<Event>): Machine {
    if run == [] then m else Next(After(m, run[..|run| - 1]), run[|run| - 1])
  }

  // ----- provenance -----

  type Pairs = set<(string, Decision)>

  /** The decision an action supplies, and for which correlation. */
  function Supplies(a: Action): Pairs {
    match a
    case Publish(c, d) => {(c, d)}
    case Attach(s, d) => if s.correlation.Some? then {(s.correlation.value, d)} else {}
    case SetWithDecision(correlation, decision) =>
      if correlation.Some? && decision.Some? then {(correlation.value, decision.value)} else {}
    case _ => {}
  }

  /** All the decisions the performed actions of a run supplied. */
  function Supplied(m: Machine, run: seq<Event>): Pairs {
    if run == [] then {}
    else
      var before, e := run[..|run| - 1], run[|run| - 1];
      Supplied(m, before) + if Enabled(After(m, before), e) then Supplies(e.1) else {}
  }

  ghost predicate From(s: Snapshot, pairs: Pairs) {
    OwnedBy(s).Some? ==> OwnedBy(s).value in pairs
  }

  /** A full decision cell is owned by the thread's current correlation, and was supplied. */
  ghost predicate CellsSound(cells: Cells, pairs: Pairs) {
    && (cells.decision.Some? ==> cells.context == Some(cells.decision.value.0) && cells.decision.value in pairs)
    && (forall i :: 0 <= i < |cells.stack| ==> From(cells.stack[i].previousContext, pairs))
  }

  ghost predicate ThenSound(andThen: Then, pairs: Pairs) {
    andThen.ToEnter? ==> From(andThen.snapshot, pairs)
  }

  ghost predicate PendingSound(p: Pending, engaged: bool, pairs: Pairs) {
    match p
    case Idle => true
    case Insert(c, d) => engaged && (c, d) in pairs
    case Remove(c) => engaged
    case Read(c, andThen) => engaged && ThenSound(andThen, pairs)
    case Store(task, s) => From(s, pairs)
    case Load(task) => true
  }

  ghost predicate ThreadSound(th: Thread, engaged: bool, pairs: Pairs) {
    && CellsSound(th.cells, pairs) && PendingSound(th.pending, engaged, pairs)
    && (forall i :: 0 <= i < |th.guards| ==> From(th.guards[i], pairs))
    && (th.answer.Some? ==> th.answer.value in pairs)
  }

  ghost predicate SharedSound(shared: Shared, pairs: Pairs) {
    && (!shared.engaged ==> shared.decisions == map[])
    && (forall c :: c in shared.decisions ==> (c, shared.decisions[c]) in pairs)
    && (forall task :: task in shared.tasks ==> From(shared.tasks[task], pairs))
  }

  ghost predicate Sound(m: Machine, pairs: Pairs) {
    && SharedSound(m.shared, pairs)
    && (forall t {:trigger m.threads[t]} :: 0 <= t < |m.threads| ==> ThreadSound(m.threads[t], m.shared.engaged, pairs))
    && (forall s :: s in m.held ==> From(s, pairs))
  }

  lemma SoundMore(m: Machine, pairs: Pairs, more: Pairs)
    requires Sound(m, pairs) && pairs <= more
    ensures Sound(m, more)
  {
    forall t | 0 <= t < |m.threads| ensures ThreadSound(m.threads[t], m.shared.engaged, more) {
      assert ThreadSound(m.threads[t], m.shared.engaged, pairs);
    }
  }

  /** Changing one thread, the registries, or the held snapshots soundly keeps the machine sound. */
  lemma SoundParts(m: Machine, m': Machine, t: nat, pairs: Pairs)
    requires Sound(m, pairs) && t < |m.threads|
    requires |m'.threads| == |m.threads| && m'.threads == m.threads[t := m'.threads[t]]
    requires m.shared.engaged ==> m'.shared.engaged
    requires SharedSound(m'.shared, pairs) && ThreadSound(m'.threads[t], m'.shared.engaged, pairs)
    requires forall s :: s in m'.held ==> s in m.held || From(s, pairs)
    ensures Sound(m', pairs)
  {
    forall u | 0 <= u < |m'.threads| ensures ThreadSound(m'.threads[u], m'.shared.engaged, pairs) {
      if u != t {
        assert ThreadSound(m.threads[u], m.shared.engaged, pairs);
        assert m'.threads[u] == m.threads[u];
      }
    }
  }

  lemma InstallSound(cells: Cells, s: Snapshot, pairs: Pairs)
    requires CellsSound(cells, pairs) && From(s, pairs)
    ensures CellsSound(Install(cells, s), pairs)
  {
  }

  lemma FinishSound(m: Machine, t: nat, s: Snapshot, andThen: Then, pairs: Pairs)
    requires Sound(m, pairs) && t < |m.threads| && From(s, pairs) && ThenSound(andThen, pairs)
    ensures Sound(Finish(m, t, s, andThen), pairs)
  {
    assert ThreadSound(m.threads[t], m.shared.engaged, pairs);
    SoundParts(m, Finish(m, t, s, andThen), t, pairs);
  }

  lemma BeginSound(m: Machine, t: nat, c: string, andThen: Then, pairs: Pairs)
    requires Sound(m, pairs) && t < |m.threads| && ThenSound(andThen, pairs)
    ensures Sound(Begin(m, t, c, andThen), pairs)
  {
    assert ThreadSound(m.threads[t], m.shared.engaged, pairs);
    var own := OwnDecision(m.threads[t].cells, c);
    if own.Some? || !m.shared.engaged {
      FinishSound(m, t, Snapshot(Some(c), own), andThen, pairs);
    } else {
      SoundParts(m, Begin(m, t, c, andThen), t, pairs);
    }
  }

  lemma CaptureSound(m: Machine, t: nat, andThen: Then, pairs: Pairs)
    requires Sound(m, pairs) && t < |m.threads| && ThenSound(andThen, pairs)
    ensures Sound(BeginCapture(m, t, andThen), pairs)
  {
    var context := m.threads[t].cells.context;
    if context.None? {
      FinishSound(m, t, EMPTY, andThen, pairs);
    } else {
      BeginSound(m, t, context.value, andThen, pairs);
    }
  }

  lemma PerformSound(m: Machine, t: nat, pairs: Pairs)
    requires Sound(m, pairs) && t < |m.threads|
    ensures Sound(Perform(m, t), pairs)
  {
    var th := m.threads[t];
    assert ThreadSound(th, m.shared.engaged, pairs);
    match th.pending
    case Idle =>
    case Read(c, andThen) =>
      FinishSound(m, t, Snapshot(Some(c), Registered(m.shared, c)), andThen, pairs);
    case Load(task) =>
      InstallSound(th.cells, StoredFor(m.shared, task), pairs);
      SoundParts(m, Perform(m, t), t, pairs);
    case _ =>
      SoundParts(m, Perform(m, t), t, pairs);
  }

  lemma StepSound(m: Machine, e: Event, pairs: Pairs)
    requires Sound(m, pairs) && Enabled(m, e) && Supplies(e.1) <= pairs
    ensures Sound(Step(m, e), pairs)
  {
    var (t, a) := e;
    var th := m.threads[t];
    assert ThreadSound(th, m.shared.engaged, pairs);
    match a
    case AskGate => CaptureSound(m, t, ToAnswer, pairs);
    case CaptureNow => CaptureSound(m, t, ToHold, pairs);
    case NewSnapshot(c) => BeginSound(m, t, c, ToHold, pairs);
    case EnterContext(s) => CaptureSound(m, t, ToEnter(s), pairs);
    case SetCorrelation(correlation) =>
      if correlation.Some? {
        BeginSound(m, t, correlation.value, ToSet, pairs);
      } else {
        SoundParts(m, Step(m, e), t, pairs);
      }
    case Spawn(task) => CaptureSound(m, t, ToSpawn(task), pairs);
    case PollStart(task) =>
      var started := WithThread(m, t, th.(cells := th.cells.(task := Some(task))));
      SoundParts(m, started, t, pairs);
      CaptureSound(started, t, ToPoll(task, th.cells.task), pairs);
    case Continue => PerformSound(m, t, pairs);
    case Terminate(task) => SoundParts(m, Step(m, e), t, pairs);
    case Clear(c) => SoundParts(m, Step(m, e), t, pairs);
    case Publish(c, d) => SoundParts(m, Step(m, e), t, pairs);
    case Attach(s, d) => SoundParts(m, Step(m, e), t, pairs);
    case DropLast => SoundParts(m, Step(m, e), t, pairs);
    case SetWithDecision(correlation, decision) => SoundParts(m, Step(m, e), t, pairs);
    case PollStop => SoundParts(m, Step(m, e), t, pairs);
  }

  lemma {:induction false} RunSound(threads: nat, run: seq<Event>)
    ensures Sound(After(Initial(threads), run), Supplied(Initial(threads), run))
  {
    if run != [] {
      var before, e := run[..|run| - 1], run[|run| - 1];
      var m, pairs := After(Initial(threads), before), Supplied(Initial(threads), run);
      RunSound(threads, before);
      SoundMore(m, Supplied(Initial(threads), before), pairs);
      if Enabled(m, e) {
        StepSound(m, e, pairs);
      }
    }
  }

  /** In every reachable state, whatever the gate answers or has answered for a correlation was explicitly
      supplied for that correlation by some earlier action. */
  lemma DecisionsAreSupplied(threads: nat, run: seq<Event>, t: nat)
    requires t < threads
    ensures
      var m := After(Initial(threads), run);
      && |m.threads| == threads
      && (Gate(m.shared, m.threads[t].cells).Some? ==>
            (m.threads[t].cells.context.value, Gate(m.shared, m.threads[t].cells).value) in Supplied(Initial(threads), run))
      && (m.threads[t].answer.Some? ==> m.threads[t].answer.value in Supplied(Initial(threads), run))
  {
    RunSound(threads, run);
    SameThreads(Initial(threads), run);
    var m := After(Initial(threads), run);
    assert ThreadSound(m.threads[t], m.shared.engaged, Supplied(Initial(threads), run));
  }

  lemma {:induction false} SameThreads(m: Machine, run: seq<Event>)
    ensures |After(m, run).threads| == |m.threads|
  {
    if run != [] {
      SameThreads(m, run[..|run| - 1]);
    }
  }

  /** In every reachable state the fast path answers as the registry would, on lookup and on removal; and a
      full decision cell is owned by the correlation its thread is serving. */
  lemma FastPathAgrees(threads: nat, run: seq<Event>, c: string, t: nat)
    requires t < threads
    ensures
      var m := After(Initial(threads), run);
      && Lookup(m.shared, c) == Registered(m.shared, c)
      && (!m.shared.engaged ==> m.shared.decisions - {c} == m.shared.decisions)
      && |m.threads| == threads
      && (m.threads[t].cells.decision.Some? ==> m.threads[t].cells.context == Some(m.threads[t].cells.decision.value.0))
  {
    RunSound(threads, run);
    SameThreads(Initial(threads), run);
    var m := After(Initial(threads), run);
    assert ThreadSound(m.threads[t], m.shared.engaged, Supplied(Initial(threads), run));
  }
}
