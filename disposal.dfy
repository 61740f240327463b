/** The two-phase disposal gate: TrackingDisposer keeps the tasks in flight and the
    IsDisposed flag, refuses new work once disposed, and runs its target's finaliser when
    the last tracked task ends after disposal (or at once, if none was pending).
    TrackingDisposable wraps it for a derived class. Each `lock` section is one atomic step. */
module Disposal {
  import opened Wrappers

  /** The disposer's state: pending tasks (most recent first), IsDisposed, the next task
      identity to hand out, and how many times the finaliser has been called. */
  datatype Gate = Gate(tasks: seq<nat>, disposed: bool, nextId: nat, finalised: nat)

  /** A new disposer. */
  const Fresh: Gate := Gate([], false, 0, 0)

  /** What Track reports: refused (false, with a null task), or the wrapper task `Ending`
      around the tracked function's own task, whose outcome is `value`. What the wrapper
      finally ends with is `Ending(value, ...)`. */
  datatype Tracking<T> = Refused | Tracked(task: nat, value: T)

  /** The gate's invariant: the finaliser has run once exactly when the disposer is
      disposed with nothing pending, and never otherwise; pending tasks have identities
      already handed out. */
  predicate Inv(g: Gate) {
    && g.finalised == (if g.disposed && g.tasks == [] then 1 else 0)
    && forall t | t in g.tasks :: t < g.nextId
  }

  lemma FreshInv()
    ensures Inv(Fresh)
  {
  }

  /** Track: a null function throws ArgumentNull; a disposed gate logs and refuses without
      calling the function, the log line on a null logger throwing ArgumentNull instead;
      otherwise the function's task is put at the front of the list. `logged` says whether
      the disposer's Logger is set. */
  function GateTrack<T>(g: Gate, func: Option<T>, logged: bool): (Result<Tracking<T>>, Gate) {
    if func.None? then (Err(ArgumentNull), g)
    else if g.disposed then (if logged then Ok(Refused) else Err(ArgumentNull), g)
    else (Ok(Tracked(g.nextId, func.value)), g.(tasks := [g.nextId] + g.tasks, nextId := g.nextId + 1))
  }

  /** LinkedList.Remove(node): the task's entry leaves the list. */
  function RemoveFirst(s: seq<nat>, x: nat): (r: seq<nat>)
    ensures x in s ==> |r| == |s| - 1
    ensures x !in s ==> r == s
    ensures forall y | y in r :: y in s
    ensures forall y | y in s && y != x :: y in r
  {
    if s == [] then []
    else if s[0] == x then s[1..]
    else [s[0]] + RemoveFirst(s[1..], x)
  }

  /** The `finally` block of `Ending`, up to the finaliser: when a tracked task finishes
      (normally or not) its entry is removed, and when that left a disposed gate with
      nothing pending, the block logs and calls the finaliser; on a null logger the log
      line throws ArgumentNull and the finaliser is not called. Reports whether the
      finaliser was called. */
  function GateComplete(g: Gate, task: nat, logged: bool): (Result<bool>, Gate)
    requires task in g.tasks
  {
    var rest := RemoveFirst(g.tasks, task);
    var last := g.disposed && rest == [];
    if last && !logged then (Err(ArgumentNull), g.(tasks := rest))
    else (Ok(last), g.(tasks := rest, finalised := g.finalised + (if last then 1 else 0)))
  }

  /** What the wrapper task `Ending` completes with: the outcome of the function's own
      task, unless its `finally` block throws, which replaces that outcome; the block
      throws when its log line meets a null logger, or when the awaited finaliser fails. */
  function Ending<T>(own: Result<T>, step: Result<bool>, finaliser: Outcome): Result<T> {
    if step.Err? then Err(step.error)
    else if step.value && finaliser.Fail? then Err(finaliser.error)
    else own
  }

  /** Dispose: the log line before the lock throws ArgumentNull on a null logger and
      nothing changes; otherwise a second call does nothing, and the first marks the gate
      disposed and calls the finaliser at once when nothing is pending. Reports whether the
      finaliser was called. */
  function GateDispose(g: Gate, logged: bool): (Result<bool>, Gate) {
    if !logged then (Err(ArgumentNull), g)
    else if g.disposed then (Ok(false), g)
    else (Ok(g.tasks == []), g.(disposed := true, finalised := g.finalised + (if g.tasks == [] then 1 else 0)))
  }

  /** Track refuses a disposed gate and calls nothing (throwing ArgumentNull instead of
      refusing when the logger is null); on a live gate it tracks a fresh task at the front
      and carries the function's task. */
  lemma TrackLaws<T>(g: Gate, func: Option<T>, logged: bool)
    requires Inv(g)
    ensures func.Some? && g.disposed ==>
      GateTrack(g, func, logged) == (if logged then Ok(Refused) else Err(ArgumentNull), g)
    ensures func.Some? && !g.disposed ==>
      var (r, g') := GateTrack(g, func, logged);
      && r.Ok? && r.value.Tracked? && r.value.value == func.value
      && r.value.task !in g.tasks && g'.tasks == [r.value.task] + g.tasks
      && g'.disposed == g.disposed && g'.finalised == g.finalised
      && Inv(g')
    ensures func.None? ==> GateTrack(g, func, logged) == (Err(ArgumentNull), g)
  {
  }

  /** Completion removes exactly the finished task. With a logger it calls the finaliser
      exactly when the gate is disposed and that removal emptied the list; without one the
      finaliser is never called and that last completion throws ArgumentNull. The wrapper
      task ends with the function's own outcome except on that last completion, where a
      failing finaliser's exception, or the ArgumentNull, replaces it. */
  lemma CompleteLaws<T>(g: Gate, task: nat, logged: bool, own: Result<T>, finaliser: Outcome)
    requires Inv(g) && task in g.tasks
    ensures var (step, g') := GateComplete(g, task, logged);
      var last := g.disposed && g'.tasks == [];
      && |g'.tasks| == |g.tasks| - 1
      && (forall t | t in g.tasks && t != task :: t in g'.tasks)
      && g'.disposed == g.disposed
      && (step.Err? <==> last && !logged)
      && (step.Err? ==> step.error == ArgumentNull && g'.finalised == g.finalised)
      && (step.Ok? ==> (step.value <==> last) && (g'.finalised == g.finalised + 1 <==> last))
      && g'.finalised <= g.finalised + 1
      && (logged ==> Inv(g'))
      && (!last ==> Ending(own, step, finaliser) == own)
      && (last && !logged ==> Ending(own, step, finaliser) == Err(ArgumentNull))
      && (last && logged && finaliser.Fail? ==> Ending(own, step, finaliser) == Err(finaliser.error))
      && (last && logged && finaliser.Pass? ==> Ending(own, step, finaliser) == own)
  {
  }

  /** Without a logger Dispose throws ArgumentNull and changes nothing. With one it is
      idempotent; the first call calls the finaliser exactly when no task is pending, and
      keeps the invariant. */
  lemma DisposeLaws(g: Gate)
    requires Inv(g)
    ensures GateDispose(g, false) == (Err(ArgumentNull), g)
    ensures var (step, g') := GateDispose(g, true);
      && step.Ok? && g'.disposed && Inv(g')
      && GateDispose(g', true) == (Ok(false), g')
      && (g.disposed ==> (step, g') == (Ok(false), g))
      && (!g.disposed ==> (step.value <==> g.tasks == []) && (g'.finalised == g.finalised + 1 <==> g.tasks == []))
  {
  }

  /** One step of any interleaving of tracked calls, completions and disposal. */
  datatype Event = TrackEvent | CompleteEvent(task: nat) | DisposeEvent

  /** The gate after some events, or None when a completion names a task that is not
      pending (each Ending removes only its own node, once). The logger is fixed for the
      whole run: a derived class sets it, if at all, in its constructor. */
  function Run(g: Gate, events: seq<Event>, logged: bool): Option<Gate>
    decreases |events|
  {
    if events == [] then Some(g)
    else
      match Run(g, events[..|events| - 1], logged)
      case None => None
      case Some(h) =>
        match events[|events| - 1]
        case TrackEvent => Some(GateTrack(h, Some(()), logged).1)
        case CompleteEvent(t) => if t in h.tasks then Some(GateComplete(h, t, logged).1) else None
        case DisposeEvent => Some(GateDispose(h, logged).1)
  }

  /** Over any order of tracking, completion and disposal, the finaliser runs at most once,
      only once disposed, and with a logger exactly when nothing is pending; without a
      logger the disposer is never disposed and the finaliser never runs. */
  lemma {:induction false} FinaliserAtMostOnce(events: seq<Event>, logged: bool)
    ensures Run(Fresh, events, logged).Some? ==>
      var g := Run(Fresh, events, logged).value;
      && g.finalised <= 1
      && (g.finalised == 1 ==> g.disposed)
      && (logged ==> (g.finalised == 1 <==> g.disposed && g.tasks == []))
      && (!logged ==> !g.disposed && g.finalised == 0)
      && Inv(g)
    decreases |events|
  {
    if events != [] {
      FinaliserAtMostOnce(events[..|events| - 1], logged);
    }
  }

  /** Once the finaliser has run, every Track is refused: so a finaliser that itself calls
      a tracked operation, as NvdaDriver's FinishDisposeAsync does through DisconnectAsync,
      finds that call refused. */
  lemma FinaliserTrackRefused<T>(g: Gate, func: T)
    requires Inv(g) && g.finalised == 1
    ensures GateTrack(g, Some(func), true) == (Ok(Refused), g)
  {
  }

  /** TrackingDisposer. */
  class TrackingDisposer {
    var tasks: seq<nat>
    var disposed: bool
    var nextId: nat
    var finalised: nat
    var logger: Option<string>

    function Model(): Gate
      reads this
    {
      Gate(tasks, disposed, nextId, finalised)
    }

    constructor ()
      ensures Model() == Fresh && logger == None
    {
      tasks := [];
      disposed := false;
      nextId := 0;
      finalised := 0;
      logger := None;
    }

    /** Track, either overload: the `lock` section checks the flag, runs the function and
        records its task at the front of the list. */
    method Track<T>(func: Option<T>) returns (r: Result<Tracking<T>>)
      modifies this
      ensures (r, Model()) == GateTrack(old(Model()), func, logger.Some?)
      ensures logger == old(logger)
    {
      if func.None? {
        return Err(ArgumentNull);
      }
      if disposed {
        if logger.None? {
          return Err(ArgumentNull);
        }
        return Ok(Refused);
      }
      var task := nextId;
      nextId := nextId + 1;
      tasks := [task] + tasks;
      r := Ok(Tracked(task, func.value));
    }

    /** A tracked task's Ending handler, up to the finaliser call. */
    method Complete(task: nat) returns (step: Result<bool>)
      requires task in tasks
      modifies this
      ensures (step, Model()) == GateComplete(old(Model()), task, logger.Some?)
      ensures logger == old(logger)
    {
      tasks := RemoveFirst(tasks, task);
      var last := disposed && tasks == [];
      if last && logger.None? {
        return Err(ArgumentNull);
      }
      if last {
        finalised := finalised + 1;
      }
      step := Ok(last);
    }

    /** Dispose. */
    method Dispose() returns (step: Result<bool>)
      modifies this
      ensures (step, Model()) == GateDispose(old(Model()), logger.Some?)
      ensures logger == old(logger)
    {
      if logger.None? {
        return Err(ArgumentNull);
      }
      if disposed {
        return Ok(false);
      }
      disposed := true;
      var last := tasks == [];
      if last {
        finalised := finalised + 1;
      }
      step := Ok(last);
    }
  }

  /** The calls the finalisation hook makes, in order. */
  datatype Hook = FinishDispose | FinishDisposeAsync

  /** TrackingDisposable: a disposer targeting this object, and the logger both share. */
  class TrackingDisposable {
    const disposer: TrackingDisposer
    var logger: Option<string>
    var hooks: seq<Hook>

    constructor ()
      ensures fresh(disposer) && disposer.Model() == Fresh
      ensures logger == None && disposer.logger == None && hooks == []
    {
      disposer := new TrackingDisposer();
      logger := None;
      hooks := [];
    }

    /** The Logger setter: stored here and handed to the disposer. */
    method SetLogger(l: Option<string>)
      modifies this, disposer
      ensures logger == l && disposer.logger == l
      ensures disposer.Model() == old(disposer.Model()) && hooks == old(hooks)
    {
      logger := l;
      disposer.logger := l;
    }

    /** ITrackingDisposable.FinishDisposeAsync: FinishDispose, then FinishDisposeAsync. */
    method Finalise()
      modifies this
      ensures hooks == old(hooks) + [FinishDispose, FinishDisposeAsync]
      ensures logger == old(logger)
    {
      hooks := hooks + [FinishDispose];
      hooks := hooks + [FinishDisposeAsync];
    }

    /** Dispose delegates to the disposer, which calls back the finaliser when it says so;
        that call is not awaited, so the finaliser's own failure goes unobserved. */
    method Dispose() returns (r: Outcome)
      modifies this, disposer
      ensures var (step, g) := GateDispose(old(disposer.Model()), old(disposer.logger).Some?);
        && disposer.Model() == g
        && r == (if step.Err? then Fail(step.error) else Pass)
        && hooks == old(hooks) + (if step == Ok(true) then [FinishDispose, FinishDisposeAsync] else [])
      ensures logger == old(logger) && disposer.logger == old(disposer.logger)
    {
      var step := disposer.Dispose();
      if step.Err? {
        return Fail(step.error);
      }
      if step.value {
        Finalise();
      }
      r := Pass;
    }

    /** A tracked task's completion, as the disposer's Ending handler runs it: `own` is the
        outcome of the function's task and `finaliser` that of FinishDisposeAsync, should
        it be awaited; the result is what the wrapper task completes with. */
    method Complete<T>(task: nat, own: Result<T>, finaliser: Outcome) returns (r: Result<T>)
      requires task in disposer.tasks
      modifies this, disposer
      ensures var (step, g) := GateComplete(old(disposer.Model()), task, old(disposer.logger).Some?);
        && disposer.Model() == g
        && r == Ending(own, step, finaliser)
        && hooks == old(hooks) + (if step == Ok(true) then [FinishDispose, FinishDisposeAsync] else [])
      ensures logger == old(logger) && disposer.logger == old(disposer.logger)
    {
      var step := disposer.Complete(task);
      if step == Ok(true) {
        Finalise();
      }
      r := Ending(own, step, finaliser);
    }

    /** Track, either overload: the wrapped task when tracked, ObjectDisposed when refused. */
    method Track<T>(func: Option<T>) returns (r: Result<Tracking<T>>)
      modifies disposer
      ensures var (t, g) := GateTrack(old(disposer.Model()), func, old(disposer.logger).Some?);
        && disposer.Model() == g
        && r == (if t == Ok(Refused) then Err(ObjectDisposed) else t)
      ensures disposer.logger == old(disposer.logger)
    {
      r := disposer.Track(func);
      if r == Ok(Refused) {
        r := Err(ObjectDisposed);
      }
    }
  }
}
