/**
  The crash-recovering render scheduler as a labelled transition system.

  Three kinds of process take part. The HTTP server drops request files into
  `requests/`. The path tracer's dispatcher thread picks the smallest id, claims one
  of `n` multi-buffers, moves the file to `in_progress/` and detaches a handler
  thread. The supervisor forks both programs and forks a program again only after
  reaping its exit. Every event below is one atomic action of one thread; a run is
  any interleaving of them.
 */
module RenderScheduler {
  import opened Prelude

  /** The request directory, plus three history variables:
      every id ever submitted, every id whose file a handler removed, and every id
      whose renderer has published -1. */
  datatype Files = Files(
    submitted: set<nat>,
    pending: set<nat>,
    inProgress: set<nat>,
    finished: set<nat>,
    rendered: set<nat>)

  /** Where a `handle_request` thread is. */
  datatype HandlerPc = Opening | TestingDone | TestingCount | Consuming | Removing | Freeing | Releasing

  /** A handler thread with the counter it shares with its renderer.
      `peak` is history: the largest count the renderer has published. */
  datatype Handler = Handler(
    id: nat,
    slot: nat,
    pc: HandlerPc,
    written: int,
    peak: nat,
    taken: nat,
    freed: bool)
  {
    predicate HoldsFile() { pc in {Opening, TestingDone, TestingCount, Consuming, Removing} }
    predicate SawDone() { pc in {Removing, Freeing, Releasing} }
  }

  /** Where the dispatcher thread is. While it reads the directory, `todo` holds the
      entries the listing will still report, `missed` those created meanwhile that
      it will not report. From then on until its pick is moved, `missed` is history. */
  datatype DispatcherPc =
    | Booting
    | Recovering(back: set<nat>)
    | LoopTop
    | Scanning(todo: set<nat>, best: Option<nat>, missed: set<nat>)
    | Claiming(id: nat, next: nat, missed: set<nat>)
    | Moving(id: nat, slot: nat, missed: set<nat>)
    | Spawning(id: nat, slot: nat)

  /** A path-tracer process. `starts` is history: the ids it moved to `in_progress/`. */
  datatype PathTracer = PathTracer(
    pc: DispatcherPc,
    locks: seq<bool>,
    handlers: map<nat, Handler>,
    nextThread: nat,
    starts: seq<nat>)

  datatype Process = HttpServer | Tracer(tracer: PathTracer) | HttpZombie | TracerZombie
  {
    predicate Zombie() { HttpZombie? || TracerZombie? }
    predicate IsHttp() { HttpServer? || HttpZombie? }
  }

  datatype SupervisorPc = StartHttp | StartTracer | CheckHttp | CheckTracer | Reaping

  /** Everything. `procs` is the supervisor's unreaped children by process id. */
  datatype System = System(
    files: Files,
    procs: map<int, Process>,
    httpPid: int,
    tracerPid: int,
    supervisor: SupervisorPc)

  /** What one thread inside a path-tracer process can do. */
  datatype TracerEvent =
    | ListInProgress
    | MoveBack(id: nat)
    | RecoveryDone
    | OpenListing
    | Visit(id: nat)
    | CloseListing
    | TestSlot
    | MoveFile
    | SpawnHandler
    | OpenFile(thread: nat)
    | Publish(thread: nat, count: nat)
    | PublishDone(thread: nat)
    | LoadDone(thread: nat)
    | LoadCount(thread: nat)
    | Consume(thread: nat)
    | RemoveFile(thread: nat)
    | FreeScene(thread: nat)
    | Release(thread: nat)

  /** `Submit` says whether a directory listing in progress will report the new entry;
      `Supervise` carries what `fork` returns if this step forks. */
  datatype Event =
    | Submit(id: nat, listed: bool)
    | InTracer(pid: int, action: TracerEvent)
    | Exit(pid: int)
    | Supervise(forked: int)
    | Reap(pid: int)
    | NothingToReap

  function FreshTracer(n: nat): PathTracer {
    PathTracer(Booting, seq(n, _ => false), map[], 0, [])
  }

  function Init(): System {
    System(Files({}, {}, {}, {}, {}), map[], -1, -1, StartHttp)
  }

  // ---------------------------------------------------------------- tracer steps

  predicate AtThread(p: PathTracer, t: nat, pc: HandlerPc) {
    t in p.handlers && p.handlers[t].pc == pc
  }

  /** The renderer runs from the moment the file has been read until it stores -1. */
  predicate Rendering(p: PathTracer, t: nat) {
    t in p.handlers && p.handlers[t].pc != Opening && p.handlers[t].written >= 0
  }

  predicate TracerEnabled(p: PathTracer, e: TracerEvent) {
    match e
    case ListInProgress => p.pc.Booting?
    case MoveBack(id) => p.pc.Recovering? && id in p.pc.back
    case RecoveryDone => p.pc.Recovering? && p.pc.back == {}
    case OpenListing => p.pc.LoopTop?
    case Visit(id) => p.pc.Scanning? && id in p.pc.todo
    case CloseListing => p.pc.Scanning? && p.pc.todo == {}
    case TestSlot => p.pc.Claiming?
    case MoveFile => p.pc.Moving?
    case SpawnHandler => p.pc.Spawning?
    case OpenFile(t) => AtThread(p, t, Opening)
    case Publish(t, count) => Rendering(p, t) && p.handlers[t].written <= count
    case PublishDone(t) => Rendering(p, t)
    case LoadDone(t) => AtThread(p, t, TestingDone)
    case LoadCount(t) => AtThread(p, t, TestingCount)
    case Consume(t) => AtThread(p, t, Consuming)
    case RemoveFile(t) => AtThread(p, t, Removing)
    case FreeScene(t) => AtThread(p, t, Freeing)
    case Release(t) => AtThread(p, t, Releasing)
  }

  /** `mv` within the request directory: nothing happens when the file is not there. */
  function MvToInProgress(fs: Files, id: nat): Files {
    if id in fs.pending then fs.(pending := fs.pending - {id}, inProgress := fs.inProgress + {id}) else fs
  }

  function MvToPending(fs: Files, id: nat): Files {
    if id in fs.inProgress then fs.(pending := fs.pending + {id}, inProgress := fs.inProgress - {id}) else fs
  }

  function Rm(fs: Files, id: nat): Files {
    if id in fs.inProgress then fs.(inProgress := fs.inProgress - {id}, finished := fs.finished + {id}) else fs
  }

  function ScanOne(best: Option<nat>, id: nat): Option<nat> {
    if best.None? || best.value > id then Some(id) else best
  }

  /** One test of the slot loop; past the last slot the dispatcher sleeps and rescans. */
  function TryClaim(p: PathTracer): PathTracer
    requires p.pc.Claiming?
  {
    var i := p.pc.next;
    if i >= |p.locks| then p.(pc := LoopTop)
    else if p.locks[i] then p.(pc := p.pc.(next := i + 1))
    else p.(pc := Moving(p.pc.id, i, p.pc.missed), locks := p.locks[i := true])
  }

  function SetHandler(p: PathTracer, t: nat, h: Handler): PathTracer {
    p.(handlers := p.handlers[t := h])
  }

  function Detach(p: PathTracer, id: nat, slot: nat): PathTracer {
    p.(pc := LoopTop,
       handlers := p.handlers[p.nextThread := Handler(id, slot, Opening, 0, 0, 0, false)],
       nextThread := p.nextThread + 1)
  }

  function Unlock(p: PathTracer, t: nat): PathTracer
    requires t in p.handlers
  {
    var slot := p.handlers[t].slot;
    p.(locks := if slot < |p.locks| then p.locks[slot := false] else p.locks,
       handlers := p.handlers - {t})
  }

  /** The effect of a handler's or its renderer's step on the handler's own record. */
  function HandlerStep(h: Handler, e: TracerEvent): Handler {
    match e
    case OpenFile(_) => h.(pc := TestingDone)
    case Publish(_, count) => h.(written := count, peak := Max(h.peak, count))
    case PublishDone(_) => h.(written := -1)
    case LoadDone(_) => h.(pc := if h.written == -1 then Removing else TestingCount)
    case LoadCount(_) => h.(pc := if h.written <= h.taken then TestingDone else Consuming)
    case Consume(_) => h.(pc := TestingDone, taken := h.taken + 1)
    case RemoveFile(_) => h.(pc := Freeing)
    case FreeScene(_) => h.(pc := Releasing, freed := true)
    case _ => h
  }

  predicate DispatcherEvent(e: TracerEvent) {
    e.ListInProgress? || e.MoveBack? || e.RecoveryDone? || e.OpenListing? || e.Visit?
    || e.CloseListing? || e.TestSlot? || e.MoveFile? || e.SpawnHandler?
  }

  function DispatcherApply(p: PathTracer, fs: Files, e: TracerEvent): PathTracer
    requires DispatcherEvent(e) && TracerEnabled(p, e)
  {
    match e
    case ListInProgress => p.(pc := Recovering(fs.inProgress))
    case MoveBack(id) => p.(pc := Recovering(p.pc.back - {id}))
    case RecoveryDone => p.(pc := LoopTop)
    case OpenListing => p.(pc := Scanning(fs.pending, None, {}))
    case Visit(id) => p.(pc := p.pc.(todo := p.pc.todo - {id}, best := ScanOne(p.pc.best, id)))
    case CloseListing => p.(pc := if p.pc.best.None? then LoopTop else Claiming(p.pc.best.value, 0, p.pc.missed))
    case TestSlot => TryClaim(p)
    case MoveFile => p.(pc := Spawning(p.pc.id, p.pc.slot), starts := p.starts + [p.pc.id])
    case SpawnHandler => Detach(p, p.pc.id, p.pc.slot)
  }

  function TracerApply(p: PathTracer, fs: Files, e: TracerEvent): PathTracer
    requires TracerEnabled(p, e)
  {
    if DispatcherEvent(e) then DispatcherApply(p, fs, e)
    else if e.Release? then Unlock(p, e.thread)
    else SetHandler(p, e.thread, HandlerStep(p.handlers[e.thread], e))
  }

  function FilesApply(p: PathTracer, fs: Files, e: TracerEvent): Files
    requires TracerEnabled(p, e)
  {
    match e
    case MoveBack(id) => MvToPending(fs, id)
    case MoveFile => MvToInProgress(fs, p.pc.id)
    case RemoveFile(t) => Rm(fs, p.handlers[t].id)
    case PublishDone(t) => fs.(rendered := fs.rendered + {p.handlers[t].id})
    case _ => fs
  }

  // ---------------------------------------------------------------- system steps

  predicate Enabled(s: System, e: Event) {
    match e
    case Submit(id, _) => id !in s.files.submitted
    case InTracer(pid, a) => pid in s.procs && s.procs[pid].Tracer? && TracerEnabled(s.procs[pid].tracer, a)
    case Exit(pid) => pid in s.procs && !s.procs[pid].Zombie()
    case Supervise(forked) =>
      !s.supervisor.Reaping? && (forked == -1 || (forked > 0 && forked !in s.procs))
    case Reap(pid) => s.supervisor.Reaping? && pid in s.procs && s.procs[pid].Zombie()
    case NothingToReap =>
      s.supervisor.Reaping? && forall pid :: pid in s.procs ==> !s.procs[pid].Zombie()
  }

  /** A new directory entry, seen from a process that may be listing the directory. */
  function NoticeEntry(q: Process, id: nat, listed: bool): Process {
    if q.Tracer? && q.tracer.pc.Scanning? then
      var pc := q.tracer.pc;
      Tracer(q.tracer.(pc :=
        if listed then Scanning(pc.todo + {id}, pc.best, pc.missed) else Scanning(pc.todo, pc.best, pc.missed + {id})))
    else q
  }

  /** The request directory with a new request file. */
  function WithEntry(fs: Files, id: nat): Files {
    fs.(submitted := fs.submitted + {id}, pending := fs.pending + {id})
  }

  function SubmitApply(s: System, id: nat, listed: bool): System {
    s.(files := WithEntry(s.files, id),
       procs := map pid | pid in s.procs :: NoticeEntry(s.procs[pid], id, listed))
  }

  function InTracerApply(s: System, pid: int, a: TracerEvent): System
    requires Enabled(s, InTracer(pid, a))
  {
    var p := s.procs[pid].tracer;
    s.(files := FilesApply(p, s.files, a), procs := s.procs[pid := Tracer(TracerApply(p, s.files, a))])
  }

  function ForkHttp(s: System, forked: int, next: SupervisorPc): System {
    s.(httpPid := forked, supervisor := next,
       procs := if forked > 0 then s.procs[forked := HttpServer] else s.procs)
  }

  function ForkTracer(n: nat, s: System, forked: int, next: SupervisorPc): System {
    s.(tracerPid := forked, supervisor := next,
       procs := if forked > 0 then s.procs[forked := Tracer(FreshTracer(n))] else s.procs)
  }

  function SuperviseApply(n: nat, s: System, forked: int): System
    requires Enabled(s, Supervise(forked))
  {
    match s.supervisor
    case StartHttp => ForkHttp(s, forked, StartTracer)
    case StartTracer => ForkTracer(n, s, forked, CheckHttp)
    case CheckHttp => if s.httpPid <= 0 then ForkHttp(s, forked, CheckTracer) else s.(supervisor := CheckTracer)
    case CheckTracer => if s.tracerPid <= 0 then ForkTracer(n, s, forked, Reaping) else s.(supervisor := Reaping)
  }

  function ReapApply(s: System, pid: int): System {
    var t := s.(procs := s.procs - {pid});
    if pid == s.httpPid then t.(httpPid := -1)
    else if pid == s.tracerPid then t.(tracerPid := -1)
    else t
  }

  function Apply(n: nat, s: System, e: Event): System
    requires Enabled(s, e)
  {
    match e
    case Submit(id, listed) => SubmitApply(s, id, listed)
    case InTracer(pid, a) => InTracerApply(s, pid, a)
    case Exit(pid) => s.(procs := s.procs[pid := if s.procs[pid].HttpServer? then HttpZombie else TracerZombie])
    case Supervise(forked) => SuperviseApply(n, s, forked)
    case Reap(pid) => ReapApply(s, pid)
    case NothingToReap => s.(supervisor := CheckHttp)
  }

  // ---------------------------------------------------------------- runs

  /** `es` is a run from `s`: each event is possible where it happens. */
  predicate Runs(n: nat, s: System, es: seq<Event>)
    decreases |es|
  {
    es == [] || (Enabled(s, es[0]) && Runs(n, Apply(n, s, es[0]), es[1..]))
  }

  function After(n: nat, s: System, es: seq<Event>): System
    requires Runs(n, s, es)
    decreases |es|
  {
    if es == [] then s else After(n, Apply(n, s, es[0]), es[1..])
  }

  lemma {:induction false} RunsCons(n: nat, s: System, e: Event, es: seq<Event>)
    requires Enabled(s, e) && Runs(n, Apply(n, s, e), es)
    ensures Runs(n, s, [e] + es) && After(n, s, [e] + es) == After(n, Apply(n, s, e), es)
  {
  }

  lemma {:induction false} RunsConcat(n: nat, s: System, a: seq<Event>, b: seq<Event>)
    requires Runs(n, s, a) && Runs(n, After(n, s, a), b)
    ensures Runs(n, s, a + b) && After(n, s, a + b) == After(n, After(n, s, a), b)
    decreases |a|
  {
    if a == [] {
      assert a + b == b;
    } else {
      RunsConcat(n, Apply(n, s, a[0]), a[1..], b);
      assert (a + b)[1..] == a[1..] + b;
    }
  }
  lemma {:induction false} RunsSplit(n: nat, s: System, a: seq<Event>, b: seq<Event>)
    requires Runs(n, s, a + b)
    ensures Runs(n, s, a) && Runs(n, After(n, s, a), b) && After(n, s, a + b) == After(n, After(n, s, a), b)
    decreases |a|
  {
    if a == [] {
      assert a + b == b;
    } else {
      assert (a + b)[1..] == a[1..] + b;
      RunsSplit(n, Apply(n, s, a[0]), a[1..], b);
    }
  }

  /** A run but for its last event, and that event. */
  lemma {:induction false} RunsLast(n: nat, s: System, es: seq<Event>)
    requires es != [] && Runs(n, s, es)
    ensures var m := |es| - 1;
      && Runs(n, s, es[..m]) && Enabled(After(n, s, es[..m]), es[m])
      && After(n, s, es) == Apply(n, After(n, s, es[..m]), es[m])
  {
    var m := |es| - 1;
    assert es == es[..m] + [es[m]];
    RunsSplit(n, s, es[..m], [es[m]]);
  }
}
