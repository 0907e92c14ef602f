/**
  Program order. Whatever the interleaving, each thread of a path tracer takes its steps in
  the order in which its code has them, from its first step on.
 */
module SchedulerProgramOrder {
  import opened Prelude
  import opened RenderScheduler
  import opened SchedulerInvariant
  import opened SchedulerSafety
  import opened SchedulerBuffers

  // ---------------------------------------------------------------- what a thread did last

  datatype Thread = Dispatcher | HandlerThread(t: nat)

  /** The steps of a thread's own code; a renderer's are not its handler's. */
  predicate OwnAction(thread: Thread, a: TracerEvent) {
    match thread
    case Dispatcher => DispatcherEvent(a)
    case HandlerThread(t) => !DispatcherEvent(a) && !a.Publish? && !a.PublishDone? && a.thread == t
  }

  /** The last step of a thread of the process that now has this id. */
  function LastStep(es: seq<Event>, pid: int, thread: Thread): Option<TracerEvent> {
    if es == [] then None
    else
      var e := es[|es| - 1];
      if e == Exit(pid) then None
      else if e.InTracer? && e.pid == pid && OwnAction(thread, e.action) then Some(e.action)
      else LastStep(es[..|es| - 1], pid, thread)
  }

  lemma {:induction false} LastStepNext(es: seq<Event>, e: Event, pid: int, thread: Thread)
    ensures LastStep(es + [e], pid, thread)
         == if e == Exit(pid) then None
            else if e.InTracer? && e.pid == pid && OwnAction(thread, e.action) then Some(e.action)
            else LastStep(es, pid, thread)
  {
    assert (es + [e])[..|es|] == es;
  }

  // ---------------------------------------------------------------- the dispatcher

  /** The order of the dispatcher's code: list what is in progress, move it all back; then
      for ever open the directory, visit its entries, close it; and if there was a request,
      test slots until one is free, move the file and spawn its handler. */
  predicate DispatcherOrder(last: Option<TracerEvent>, a: TracerEvent) {
    match last
    case None => a.ListInProgress?
    case Some(l) =>
      match l
      case ListInProgress => a.MoveBack? || a.RecoveryDone?
      case MoveBack(_) => a.MoveBack? || a.RecoveryDone?
      case RecoveryDone => a.OpenListing?
      case OpenListing => a.Visit? || a.CloseListing?
      case Visit(_) => a.Visit? || a.CloseListing?
      case CloseListing => a.OpenListing? || a.TestSlot?
      case TestSlot => a.TestSlot? || a.MoveFile? || a.OpenListing?
      case MoveFile => a.SpawnHandler?
      case SpawnHandler => a.OpenListing?
      case _ => false
  }

  predicate DispatcherStands(last: Option<TracerEvent>, pc: DispatcherPc) {
    match pc
    case Booting => last.None?
    case Recovering(_) => last.Some? && (last.value.ListInProgress? || last.value.MoveBack?)
    case LoopTop =>
      last.Some? && (last.value.RecoveryDone? || last.value.CloseListing? || last.value.TestSlot? || last.value.SpawnHandler?)
    case Scanning(_, _, _) => last.Some? && (last.value.OpenListing? || last.value.Visit?)
    case Claiming(_, _, _) => last.Some? && (last.value.CloseListing? || last.value.TestSlot?)
    case Moving(_, _, _) => last.Some? && last.value.TestSlot?
    case Spawning(_, _) => last.Some? && last.value.MoveFile?
  }

  // ---------------------------------------------------------------- a handler

  /** The order of a handler's code: open the file; load the counter, and unless it says -1
      load it again, and take a buffer or not; at -1 remove the file, free the scene and
      clear the lock. */
  predicate HandlerOrder(last: Option<TracerEvent>, a: TracerEvent) {
    match last
    case None => a.OpenFile?
    case Some(l) =>
      match l
      case OpenFile(_) => a.LoadDone?
      case LoadDone(_) => a.LoadCount? || a.RemoveFile?
      case LoadCount(_) => a.LoadDone? || a.Consume?
      case Consume(_) => a.LoadDone?
      case RemoveFile(_) => a.FreeScene?
      case FreeScene(_) => a.Release?
      case _ => false
  }

  predicate HandlerStands(last: Option<TracerEvent>, pc: HandlerPc) {
    match pc
    case Opening => last.None?
    case TestingDone => last.Some? && (last.value.OpenFile? || last.value.LoadCount? || last.value.Consume?)
    case TestingCount => last.Some? && last.value.LoadDone?
    case Consuming => last.Some? && last.value.LoadCount?
    case Removing => last.Some? && last.value.LoadDone?
    case Freeing => last.Some? && last.value.RemoveFile?
    case Releasing => last.Some? && last.value.FreeScene?
  }

  // ---------------------------------------------------------------- every run

  /** What the thread did last is where its process now has it. */
  predicate Stands(last: Option<TracerEvent>, thread: Thread, q: Option<PathTracer>) {
    match q
    case None => last.None?
    case Some(p) =>
      match thread
      case Dispatcher => DispatcherStands(last, p.pc)
      case HandlerThread(t) =>
        (t in p.handlers ==> HandlerStands(last, p.handlers[t].pc)) && (t >= p.nextThread ==> last.None?)
  }

  function TracerOf(s: System, pid: int): Option<PathTracer> {
    if pid in s.procs && s.procs[pid].Tracer? then Some(s.procs[pid].tracer) else None
  }

  lemma {:induction false} InsideStands(p: PathTracer, fs: Files, a: TracerEvent, thread: Thread, last: Option<TracerEvent>)
    requires TracerEnabled(p, a) && Stands(last, thread, Some(p))
    requires forall t :: t in p.handlers ==> t < p.nextThread
    ensures Stands(if OwnAction(thread, a) then Some(a) else last, thread, Some(TracerApply(p, fs, a)))
  {
  }

  lemma {:induction false} OutsideStands(n: nat, s: System, e: Event, pid: int, thread: Thread, last: Option<TracerEvent>)
    requires Enabled(s, e) && !(e.InTracer? && e.pid == pid) && Stands(last, thread, TracerOf(s, pid))
    ensures Stands(if e == Exit(pid) then None else last, thread, TracerOf(Apply(n, s, e), pid))
  {
  }

  lemma {:induction false} RunStands(n: nat, es: seq<Event>, pid: int, thread: Thread)
    requires Runs(n, Init(), es)
    ensures Stands(LastStep(es, pid, thread), thread, TracerOf(After(n, Init(), es), pid))
    decreases |es|
  {
    if es != [] {
      RunsLast(n, Init(), es);
      var front, e := es[..|es| - 1], es[|es| - 1];
      assert es == front + [e];
      var s := After(n, Init(), front);
      RunStands(n, front, pid, thread);
      LastStepNext(front, e, pid, thread);
      if e.InTracer? && e.pid == pid {
        ThreadsBelowNext(n, front, pid);
        InsideStands(s.procs[pid].tracer, s.files, e.action, thread, LastStep(front, pid, thread));
      } else {
        OutsideStands(n, s, e, pid, thread, LastStep(front, pid, thread));
      }
    }
  }

  lemma {:induction false} ThreadsBelowNext(n: nat, es: seq<Event>, pid: int)
    requires Runs(n, Init(), es) && TracerOf(After(n, Init(), es), pid).Some?
    ensures var p := After(n, Init(), es).procs[pid].tracer; forall t :: t in p.handlers ==> t < p.nextThread
  {
    var p := After(n, Init(), es).procs[pid].tracer;
    forall t | t in p.handlers ensures t < p.nextThread {
      ThreadBelowNext(n, es, pid, t);
    }
  }

  /** In every run each thread's next step is one that its code has after the last. */
  lemma {:induction false} ProgramOrder(n: nat, es: seq<Event>, pid: int, thread: Thread, a: TracerEvent)
    requires Runs(n, Init(), es) && Enabled(After(n, Init(), es), InTracer(pid, a)) && OwnAction(thread, a)
    ensures var last := LastStep(es, pid, thread);
      if thread.Dispatcher? then DispatcherOrder(last, a) else HandlerOrder(last, a)
  {
    RunStands(n, es, pid, thread);
  }
}
