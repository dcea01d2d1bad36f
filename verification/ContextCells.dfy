/** The context carrier: one thread's cells, the shared registries, and the operations on them. */
module ContextCells {
  import opened Common

  datatype Decision = Skip | Record

  datatype Snapshot = Snapshot(correlation: Option<string>, decision: Option<Decision>)

  datatype Frame = Frame(previousTask: Option<string>, previousContext: Snapshot)

  /** One thread's cells. A decision is stored with the correlation it speaks for. */
  datatype Cells = Cells(
    context: Option<string>,
    decision: Option<(string, Decision)>,
    task: Option<string>,
    stack: seq<Frame>)

  /** What the threads share: the fast-path flag, the decision registry, the stored task contexts. */
  datatype Shared = Shared(engaged: bool, decisions: map<string, Decision>, tasks: map<string, Snapshot>)

  const EMPTY := Snapshot(None, None)
  const NO_CELLS := Cells(None, None, None, [])

  /** The decision a snapshot installs: only together with a correlation to own it. */
  function OwnedBy(s: Snapshot): Option<(string, Decision)> {
    if s.correlation.Some? && s.decision.Some? then Some((s.correlation.value, s.decision.value)) else None
  }

  function Install(cells: Cells, s: Snapshot): Cells {
    cells.(context := s.correlation, decision := OwnedBy(s))
  }

  /** The thread's own decision, if it belongs to `c`. */
  function OwnDecision(cells: Cells, c: string): Option<Decision> {
    if cells.decision.Some? && cells.decision.value.0 == c then Some(cells.decision.value.1) else None
  }

  /** A plain registry lookup. */
  function Registered(shared: Shared, c: string): Option<Decision> {
    if c in shared.decisions then Some(shared.decisions[c]) else None
  }

  /** The lookup behind the fast path. */
  function Lookup(shared: Shared, c: string): Option<Decision> {
    if !shared.engaged then None else Registered(shared, c)
  }

  /** The one ownership rule: the thread's own decision for `c`, or else the registry's. */
  function Resolve(shared: Shared, cells: Cells, c: string): Option<Decision> {
    if OwnDecision(cells, c).Some? then OwnDecision(cells, c) else Lookup(shared, c)
  }

  function Capture(shared: Shared, cells: Cells): Snapshot {
    if cells.context.None? then EMPTY else Snapshot(cells.context, Resolve(shared, cells, cells.context.value))
  }

  /** What the capture gate answers on this thread now. */
  function Gate(shared: Shared, cells: Cells): Option<Decision> {
    if cells.context.None? then None else Resolve(shared, cells, cells.context.value)
  }

  function StoredFor(shared: Shared, task: string): Snapshot {
    if task in shared.tasks then shared.tasks[task] else EMPTY
  }

  predicate IsEmpty(s: Snapshot) {
    s.correlation.None? && s.decision.None?
  }

  // ----- the operations, whole -----

  function Published(shared: Shared, c: string, d: Decision): Shared {
    shared.(engaged := true, decisions := shared.decisions[c := d])
  }

  function NotedLocally(cells: Cells, c: string, d: Decision): Cells {
    if cells.context == Some(c) then cells.(decision := Some((c, d))) else cells
  }

  function Spawned(shared: Shared, task: string, s: Snapshot): Shared {
    shared.(tasks := if IsEmpty(s) then shared.tasks - {task} else shared.tasks[task := s])
  }

  function PollStarted(shared: Shared, cells: Cells, task: string): Cells {
    var frame := Frame(cells.task, Capture(shared, cells));
    Install(cells.(task := Some(task), stack := cells.stack + [frame]), StoredFor(shared, task))
  }

  function PollStopped(cells: Cells): Cells {
    if cells.stack == [] then Install(cells.(task := None), EMPTY)
    else
      var frame := cells.stack[|cells.stack| - 1];
      Install(cells.(task := frame.previousTask, stack := cells.stack[..|cells.stack| - 1]), frame.previousContext)
  }

  class Registry {
    var engaged: bool
    var decisions: map<string, Decision>
    var tasks: map<string, Snapshot>

    constructor ()
      ensures Now() == Shared(false, map[], map[])
    {
      engaged, decisions, tasks := false, map[], map[];
    }

    function Now(): Shared
      reads this
    {
      Shared(engaged, decisions, tasks)
    }

    method RecordingDecision(c: string) returns (d: Option<Decision>)
      ensures d == Lookup(Now(), c)
    {
      if !engaged {
        return None;
      }
      d := if c in decisions then Some(decisions[c]) else None;
    }

    method ClearRecordingDecision(c: string)
      modifies this
      ensures Now() == if old(engaged) then old(Now()).(decisions := old(decisions) - {c}) else old(Now())
    {
      if engaged {
        decisions := decisions - {c};
      }
    }

    method TaskTerminate(task: string)
      modifies this
      ensures Now() == old(Now()).(tasks := old(tasks) - {task})
    {
      tasks := tasks - {task};
    }
  }

  class ThreadCells {
    var context: Option<string>
    var decision: Option<(string, Decision)>
    var task: Option<string>
    var stack: seq<Frame>

    constructor ()
      ensures Now() == NO_CELLS
    {
      context, decision, task, stack := None, None, None, [];
    }

    function Now(): Cells
      reads this
    {
      Cells(context, decision, task, stack)
    }

    method SetCurrentContext(s: Snapshot)
      modifies this
      ensures Now() == Install(old(Now()), s)
    {
      context := s.correlation;
      decision := OwnedBy(s);
    }

    method SnapshotDecisionFor(registry: Registry, c: string) returns (d: Option<Decision>)
      ensures d == Resolve(registry.Now(), Now(), c)
    {
      if decision.Some? && decision.value.0 == c {
        return Some(decision.value.1);
      }
      d := registry.RecordingDecision(c);
    }

    method CaptureCurrent(registry: Registry) returns (s: Snapshot)
      ensures s == Capture(registry.Now(), Now())
    {
      if context.None? {
        return Snapshot(None, None);
      }
      var d := SnapshotDecisionFor(registry, context.value);
      s := Snapshot(context, d);
    }

    method RecordingDecisionForCurrent(registry: Registry) returns (d: Option<Decision>)
      ensures d == Gate(registry.Now(), Now())
    {
      if context.None? {
        return None;
      }
      d := SnapshotDecisionFor(registry, context.value);
    }

    method SetRecordingDecision(registry: Registry, c: string, d: Decision)
      modifies this, registry
      ensures registry.Now() == Published(old(registry.Now()), c, d)
      ensures Now() == NotedLocally(old(Now()), c, d)
      ensures registry.engaged && c in registry.decisions && registry.decisions[c] == d
      ensures context == Some(c) ==> Gate(registry.Now(), Now()) == Some(d)
    {
      registry.engaged := true;
      registry.decisions := registry.decisions[c := d];
      if context == Some(c) {
        decision := Some((c, d));
      }
    }

    /** Enters a snapshot; the guard returned is what dropping it restores. */
    method Enter(registry: Registry, s: Snapshot) returns (guard: Snapshot)
      modifies this
      ensures guard == Capture(registry.Now(), old(Now())) && Now() == Install(old(Now()), s)
    {
      guard := CaptureCurrent(registry);
      SetCurrentContext(s);
    }

    method DropGuard(guard: Snapshot)
      modifies this
      ensures Now() == Install(old(Now()), guard)
    {
      SetCurrentContext(guard);
    }

    method SetCurrentCorrelation(registry: Registry, c: Option<string>)
      modifies this
      ensures Now() == Install(old(Now()), if c.None? then EMPTY else Snapshot(c, Resolve(registry.Now(), old(Now()), c.value)))
    {
      match c
      case None => SetCurrentContext(Snapshot(None, None));
      case Some(id) =>
        var d := SnapshotDecisionFor(registry, id);
        SetCurrentContext(Snapshot(Some(id), d));
    }

    method TaskSpawn(registry: Registry, task: string)
      modifies registry
      ensures registry.Now() == Spawned(old(registry.Now()), task, Capture(old(registry.Now()), Now()))
    {
      var s := CaptureCurrent(registry);
      if IsEmpty(s) {
        registry.tasks := registry.tasks - {task};
      } else {
        registry.tasks := registry.tasks[task := s];
      }
    }

    method TaskPollStart(registry: Registry, id: string)
      modifies this
      ensures Now() == PollStarted(registry.Now(), old(Now()), id)
    {
      var previousTask := task;
      task := Some(id);
      var previousContext := CaptureCurrent(registry);
      stack := stack + [Frame(previousTask, previousContext)];
      SetCurrentContext(StoredFor(registry.Now(), id));
    }

    method TaskPollStop()
      modifies this
      ensures Now() == PollStopped(old(Now()))
    {
      if stack == [] {
        task := None;
        SetCurrentContext(Snapshot(None, None));
      } else {
        var frame := stack[|stack| - 1];
        stack := stack[..|stack| - 1];
        task := frame.previousTask;
        SetCurrentContext(frame.previousContext);
      }
    }
  }
}
