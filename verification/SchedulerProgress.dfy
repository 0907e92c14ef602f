/**
  No reachable state of the scheduler is a dead end. While a path tracer runs, its own
  threads can finish every submitted request: the dispatcher gets back to the top of its
  loop from wherever it is, each handler runs to its end, and what is pending is then
  served. With no path tracer running, the supervisor alone can reap, fork and recover.
 */
module SchedulerProgress {
  import opened Prelude
  import opened RenderScheduler
  import opened SchedulerInvariant
  import opened SchedulerSafety

  // ---------------------------------------------------------------- runs inside one process

  /** `steps` is a run of one path tracer's threads, no other process taking a step. */
  predicate TracerRuns(p: PathTracer, fs: Files, steps: seq<TracerEvent>)
    decreases |steps|
  {
    steps == []
    || (TracerEnabled(p, steps[0])
        && TracerRuns(TracerApply(p, fs, steps[0]), FilesApply(p, fs, steps[0]), steps[1..]))
  }

  function TracerAfter(p: PathTracer, fs: Files, steps: seq<TracerEvent>): (PathTracer, Files)
    requires TracerRuns(p, fs, steps)
    decreases |steps|
  {
    if steps == [] then (p, fs)
    else TracerAfter(TracerApply(p, fs, steps[0]), FilesApply(p, fs, steps[0]), steps[1..])
  }

  lemma {:induction false} StepsCons(p: PathTracer, fs: Files, a: TracerEvent, steps: seq<TracerEvent>)
    requires TracerEnabled(p, a) && TracerRuns(TracerApply(p, fs, a), FilesApply(p, fs, a), steps)
    ensures TracerRuns(p, fs, [a] + steps)
    ensures TracerAfter(p, fs, [a] + steps) == TracerAfter(TracerApply(p, fs, a), FilesApply(p, fs, a), steps)
  {
    assert ([a] + steps)[1..] == steps;
  }

  lemma {:induction false} StepsConcat(p: PathTracer, fs: Files, a: seq<TracerEvent>, b: seq<TracerEvent>)
    requires TracerRuns(p, fs, a) && TracerRuns(TracerAfter(p, fs, a).0, TracerAfter(p, fs, a).1, b)
    ensures TracerRuns(p, fs, a + b)
    ensures TracerAfter(p, fs, a + b) == TracerAfter(TracerAfter(p, fs, a).0, TracerAfter(p, fs, a).1, b)
    decreases |a|
  {
    if a == [] {
      assert a + b == b;
    } else {
      StepsConcat(TracerApply(p, fs, a[0]), FilesApply(p, fs, a[0]), a[1..], b);
      assert (a + b)[1..] == a[1..] + b;
    }
  }

  /** The process's steps as events of the system. */
  function Inside(pid: int, steps: seq<TracerEvent>): seq<Event> {
    if steps == [] then [] else [InTracer(pid, steps[0])] + Inside(pid, steps[1..])
  }

  ghost predicate OnlyInside(pid: int, es: seq<Event>) {
    forall e :: e in es ==> e.InTracer? && e.pid == pid
  }

  lemma {:induction false} InsideRuns(n: nat, s: System, pid: int, steps: seq<TracerEvent>)
    requires pid in s.procs && s.procs[pid].Tracer? && TracerRuns(s.procs[pid].tracer, s.files, steps)
    ensures Runs(n, s, Inside(pid, steps)) && OnlyInside(pid, Inside(pid, steps))
    ensures var t, after := After(n, s, Inside(pid, steps)), TracerAfter(s.procs[pid].tracer, s.files, steps);
      pid in t.procs && t.procs[pid] == Tracer(after.0) && t.files == after.1
    decreases |steps|
  {
    if steps != [] {
      var e := InTracer(pid, steps[0]);
      InsideRuns(n, Apply(n, s, e), pid, steps[1..]);
      RunsCons(n, s, e, Inside(pid, steps[1..]));
    }
  }

  ghost predicate Sound(n: nat, p: PathTracer, fs: Files) {
    TracerInv(n, p, fs) && Conserved(fs)
  }

  /** What the steps of a process keep: the invariant and the ids submitted. */
  lemma {:induction false} SoundKept(n: nat, p: PathTracer, fs: Files, a: TracerEvent)
    requires Sound(n, p, fs) && TracerEnabled(p, a)
    ensures Sound(n, TracerApply(p, fs, a), FilesApply(p, fs, a))
    ensures FilesApply(p, fs, a).submitted == fs.submitted
  {
    TracerKept(n, p, fs, a);
    FilesKept(n, p, fs, a);
  }

  // ---------------------------------------------------------------- the dispatcher returns to its loop

  function Stage(pc: DispatcherPc): nat {
    match pc
    case Booting => 6
    case Recovering(_) => 5
    case Scanning(_, _, _) => 4
    case Claiming(_, _, _) => 3
    case Moving(_, _, _) => 2
    case Spawning(_, _) => 1
    case LoopTop => 0
  }

  /** How many more steps of the same stage there can be. */
  function Left(p: PathTracer): nat {
    match p.pc
    case Recovering(back) => |back|
    case Scanning(todo, _, _) => |todo|
    case Claiming(_, next, _) => if next < |p.locks| then |p.locks| - next else 0
    case _ => 0
  }

  ghost function DispatcherNext(pc: DispatcherPc): TracerEvent {
    match pc
    case Booting => ListInProgress
    case Recovering(back) => if id :| id in back then MoveBack(id) else RecoveryDone
    case LoopTop => OpenListing
    case Scanning(todo, _, _) => if id :| id in todo then Visit(id) else CloseListing
    case Claiming(_, _, _) => TestSlot
    case Moving(_, _, _) => MoveFile
    case Spawning(_, _) => SpawnHandler
  }

  lemma {:induction false} DispatcherAdvances(p: PathTracer, fs: Files)
    requires !p.pc.LoopTop?
    ensures TracerEnabled(p, DispatcherNext(p.pc))
    ensures var q := TracerApply(p, fs, DispatcherNext(p.pc));
      Stage(q.pc) < Stage(p.pc) || (Stage(q.pc) == Stage(p.pc) && Left(q) < Left(p))
  {
  }

  /** From wherever it is, the dispatcher alone gets back to the top of its loop. */
  lemma {:induction false} Settle(n: nat, p: PathTracer, fs: Files) returns (steps: seq<TracerEvent>)
    requires Sound(n, p, fs)
    ensures TracerRuns(p, fs, steps)
    ensures var (q, gs) := TracerAfter(p, fs, steps); Sound(n, q, gs) && q.pc == LoopTop && gs.submitted == fs.submitted
    decreases Stage(p.pc), Left(p)
  {
    if p.pc == LoopTop {
      steps := [];
    } else {
      var a := DispatcherNext(p.pc);
      DispatcherAdvances(p, fs);
      SoundKept(n, p, fs, a);
      var rest := Settle(n, TracerApply(p, fs, a), FilesApply(p, fs, a));
      StepsCons(p, fs, a, rest);
      steps := [a] + rest;
    }
  }

  // ---------------------------------------------------------------- every handler ends

  /** How far a handler is from its end, its renderer's -1 included. */
  function Rank(h: Handler): nat {
    (if h.written >= 0 then 10 else 0) +
    match h.pc
    case Opening => 6
    case TestingCount => 5
    case Consuming => 5
    case TestingDone => 4
    case Removing => 3
    case Freeing => 2
    case Releasing => 1
  }

  /** The renderer stores -1 as soon as it runs; the handler takes its own next step. */
  function HandlerNext(h: Handler, t: nat): TracerEvent {
    if h.pc == Opening then OpenFile(t)
    else if h.written >= 0 then PublishDone(t)
    else match h.pc
      case TestingDone => LoadDone(t)
      case TestingCount => LoadCount(t)
      case Consuming => Consume(t)
      case Removing => RemoveFile(t)
      case Freeing => FreeScene(t)
      case _ => Release(t)
  }

  lemma {:induction false} RankFalls(h: Handler, t: nat)
    requires CountersInv(h)
    ensures var a := HandlerNext(h, t);
      && !DispatcherEvent(a) && a.thread == t
      && (!a.Release? ==> Rank(HandlerStep(h, a)) < Rank(h))
  {
  }

  lemma {:induction false} HandlerAdvances(p: PathTracer, fs: Files, t: nat)
    requires t in p.handlers && CountersInv(p.handlers[t])
    ensures var a := HandlerNext(p.handlers[t], t);
      && TracerEnabled(p, a)
      && var (q, gs) := (TracerApply(p, fs, a), FilesApply(p, fs, a));
      && q.pc == p.pc && gs.pending == fs.pending
      && q.handlers == if a.Release? then p.handlers - {t}
                       else p.handlers[t := HandlerStep(p.handlers[t], a)]
  {
    RankFalls(p.handlers[t], t);
  }

  lemma {:induction false} DrainStep(n: nat, p: PathTracer, fs: Files, t: nat)
    requires Sound(n, p, fs) && t in p.handlers
    ensures var a := HandlerNext(p.handlers[t], t);
      && TracerEnabled(p, a)
      && var (q, gs) := (TracerApply(p, fs, a), FilesApply(p, fs, a));
      && Sound(n, q, gs) && q.pc == p.pc && gs.pending == fs.pending && gs.submitted == fs.submitted
      && (if a.Release? then q.handlers == p.handlers - {t}
          else t in q.handlers && Rank(q.handlers[t]) < Rank(p.handlers[t]) && q.handlers - {t} == p.handlers - {t})
  {
    assert HandlerInv(p, fs, t);
    RankFalls(p.handlers[t], t);
    HandlerAdvances(p, fs, t);
    SoundKept(n, p, fs, HandlerNext(p.handlers[t], t));
  }

  /** A handler, whatever it is doing, runs to its end without touching anything else. */
  lemma {:induction false} DrainOne(n: nat, p: PathTracer, fs: Files, t: nat) returns (steps: seq<TracerEvent>)
    requires Sound(n, p, fs) && t in p.handlers
    ensures TracerRuns(p, fs, steps)
    ensures var (q, gs) := TracerAfter(p, fs, steps);
      && Sound(n, q, gs) && q.pc == p.pc && q.handlers == p.handlers - {t}
      && gs.pending == fs.pending && gs.submitted == fs.submitted
    decreases Rank(p.handlers[t])
  {
    var a := HandlerNext(p.handlers[t], t);
    DrainStep(n, p, fs, t);
    var rest := [];
    if !a.Release? {
      rest := DrainOne(n, TracerApply(p, fs, a), FilesApply(p, fs, a), t);
    }
    StepsCons(p, fs, a, rest);
    steps := [a] + rest;
  }

  lemma {:induction false} Drain(n: nat, p: PathTracer, fs: Files) returns (steps: seq<TracerEvent>)
    requires Sound(n, p, fs)
    ensures TracerRuns(p, fs, steps)
    ensures var (q, gs) := TracerAfter(p, fs, steps);
      && Sound(n, q, gs) && q.pc == p.pc && q.handlers == map[]
      && gs.pending == fs.pending && gs.submitted == fs.submitted
    decreases |p.handlers.Keys|
  {
    if t :| t in p.handlers {
      var one := DrainOne(n, p, fs, t);
      var (q, gs) := TracerAfter(p, fs, one);
      assert q.handlers.Keys == p.handlers.Keys - {t};
      var rest := Drain(n, q, gs);
      StepsConcat(p, fs, one, rest);
      steps := one + rest;
    } else {
      steps := [];
    }
  }

  /** With no handler left, a dispatcher at the top of its loop has every slot free and
      nothing is in progress. */
  lemma {:induction false} QuietIsIdle(n: nat, p: PathTracer, fs: Files)
    requires TracerInv(n, p, fs) && p.pc == LoopTop && p.handlers == map[]
    ensures fs.inProgress == {} && |p.locks| == n && forall i :: 0 <= i < n ==> !p.locks[i]
  {
  }

  // ---------------------------------------------------------------- serving what is pending

  lemma {:induction false} VisitEverything(n: nat, p: PathTracer, fs: Files) returns (steps: seq<TracerEvent>)
    requires Sound(n, p, fs) && p.pc.Scanning? && (p.pc.todo != {} || p.pc.best.Some?)
    ensures TracerRuns(p, fs, steps)
    ensures var (q, gs) := TracerAfter(p, fs, steps);
      && Sound(n, q, gs) && gs == fs && q == p.(pc := q.pc)
      && q.pc.Scanning? && q.pc.todo == {} && q.pc.best.Some?
    decreases |p.pc.todo|
  {
    if id :| id in p.pc.todo {
      SoundKept(n, p, fs, Visit(id));
      var rest := VisitEverything(n, TracerApply(p, fs, Visit(id)), fs);
      StepsCons(p, fs, Visit(id), rest);
      steps := [Visit(id)] + rest;
    } else {
      steps := [];
    }
  }

  /** A claimed file is moved and handed over. */
  lemma {:induction false} HandOver(n: nat, p: PathTracer, fs: Files) returns (steps: seq<TracerEvent>)
    requires Sound(n, p, fs) && p.pc.Moving?
    ensures TracerRuns(p, fs, steps)
    ensures var (q, gs) := TracerAfter(p, fs, steps);
      && Sound(n, q, gs) && q.pc == LoopTop
      && p.pc.id in fs.pending && gs.pending == fs.pending - {p.pc.id} && gs.submitted == fs.submitted
  {
    assert PcInv(p, fs);
    SoundKept(n, p, fs, MoveFile);
    var q, gs := TracerApply(p, fs, MoveFile), FilesApply(p, fs, MoveFile);
    SoundKept(n, q, gs, SpawnHandler);
    StepsCons(q, gs, SpawnHandler, []);
    StepsCons(p, fs, MoveFile, [SpawnHandler] + []);
    steps := [MoveFile] + ([SpawnHandler] + []);
  }

  /** With every slot free, a scan that has found something starts it. */
  lemma {:induction false} StartPick(n: nat, p: PathTracer, fs: Files) returns (steps: seq<TracerEvent>)
    requires n > 0 && Sound(n, p, fs) && p.pc.Scanning? && p.pc.todo == {} && p.pc.best.Some? && !p.locks[0]
    ensures TracerRuns(p, fs, steps)
    ensures var (q, gs) := TracerAfter(p, fs, steps);
      && Sound(n, q, gs) && q.pc == LoopTop && gs.submitted == fs.submitted
      && p.pc.best.value in fs.pending && gs.pending == fs.pending - {p.pc.best.value}
  {
    SoundKept(n, p, fs, CloseListing);
    var q := TracerApply(p, fs, CloseListing);
    SoundKept(n, q, fs, TestSlot);
    var r := TracerApply(q, fs, TestSlot);
    var hand := HandOver(n, r, fs);
    StepsCons(q, fs, TestSlot, hand);
    StepsCons(p, fs, CloseListing, [TestSlot] + hand);
    steps := [CloseListing] + ([TestSlot] + hand);
  }

  lemma {:induction false} StartOne(n: nat, p: PathTracer, fs: Files) returns (steps: seq<TracerEvent>, id: nat)
    requires n > 0 && Sound(n, p, fs) && p.pc == LoopTop && p.handlers == map[] && fs.pending != {}
    ensures TracerRuns(p, fs, steps)
    ensures var (q, gs) := TracerAfter(p, fs, steps);
      && Sound(n, q, gs) && q.pc == LoopTop && gs.submitted == fs.submitted
      && id in fs.pending && gs.pending == fs.pending - {id}
  {
    QuietIsIdle(n, p, fs);
    SoundKept(n, p, fs, OpenListing);
    var q := TracerApply(p, fs, OpenListing);
    var visits := VisitEverything(n, q, fs);
    var r := TracerAfter(q, fs, visits).0;
    id := r.pc.best.value;
    var start := StartPick(n, r, fs);
    StepsConcat(q, fs, visits, start);
    StepsCons(p, fs, OpenListing, visits + start);
    steps := [OpenListing] + (visits + start);
  }

  lemma {:induction false} ServeAll(n: nat, p: PathTracer, fs: Files) returns (steps: seq<TracerEvent>)
    requires n > 0 && Sound(n, p, fs) && p.pc == LoopTop
    ensures TracerRuns(p, fs, steps)
    ensures var (q, gs) := TracerAfter(p, fs, steps);
      gs.submitted == fs.submitted && gs.pending == {} && gs.inProgress == {} && gs.finished == gs.submitted
    decreases |fs.pending|
  {
    var drain := Drain(n, p, fs);
    var (q, gs) := TracerAfter(p, fs, drain);
    if gs.pending == {} {
      steps := drain;
      QuietIsIdle(n, q, gs);
    } else {
      var start, id := StartOne(n, q, gs);
      var (r, hs) := TracerAfter(q, gs, start);
      var rest := ServeAll(n, r, hs);
      StepsConcat(q, gs, start, rest);
      StepsConcat(p, fs, drain, start + rest);
      steps := drain + (start + rest);
    }
  }

  // ---------------------------------------------------------------- no dead end while a path tracer runs

  /** Whatever a run has done, if a path tracer is alive after it then steps of that
      process alone - nothing exits, nothing is reaped, nothing new is submitted -
      finish every request ever submitted. */
  lemma {:induction false} EverythingCanFinish(n: nat, run: seq<Event>, pid: int) returns (es: seq<Event>)
    requires n > 0 && Runs(n, Init(), run)
    requires var s := After(n, Init(), run); pid in s.procs && s.procs[pid].Tracer?
    ensures Runs(n, Init(), run + es) && OnlyInside(pid, es)
    ensures var fs := After(n, Init(), run + es).files;
      fs.finished == Submissions(run) && fs.pending == {} && fs.inProgress == {}
  {
    ReachableFiles(n, run);
    Reachable(n, run);
    var s := After(n, Init(), run);
    var p := s.procs[pid].tracer;
    var settle := Settle(n, p, s.files);
    var (q, gs) := TracerAfter(p, s.files, settle);
    var serve := ServeAll(n, q, gs);
    StepsConcat(p, s.files, settle, serve);
    InsideRuns(n, s, pid, settle + serve);
    es := Inside(pid, settle + serve);
    RunsConcat(n, Init(), run, es);
  }

  // ---------------------------------------------------------------- recovery from a crash

  ghost predicate NoTracerRuns(s: System) {
    forall pid :: pid in s.procs ==> !s.procs[pid].Tracer?
  }

  /** Nothing is submitted and nothing exits. */
  ghost predicate Unaided(es: seq<Event>) {
    forall e :: e in es ==> !e.Submit? && !e.Exit?
  }

  function Distance(pc: SupervisorPc): nat {
    match pc
    case StartHttp => 4
    case StartTracer => 3
    case CheckHttp => 2
    case CheckTracer => 1
    case Reaping => 0
  }

  /** Failing forks bring the supervisor to its reaping loop. */
  lemma {:induction false} ReachReaping(n: nat, s: System) returns (es: seq<Event>)
    ensures Runs(n, s, es) && Unaided(es)
    ensures var t := After(n, s, es); t.files == s.files && t.procs == s.procs && t.supervisor == Reaping
    decreases Distance(s.supervisor)
  {
    if s.supervisor.Reaping? {
      es := [];
    } else {
      var rest := ReachReaping(n, Apply(n, s, Supervise(-1)));
      RunsCons(n, s, Supervise(-1), rest);
      es := [Supervise(-1)] + rest;
    }
  }

  /** The reaping loop ends with no zombie left. */
  lemma {:induction false} ReapAll(n: nat, s: System) returns (es: seq<Event>)
    requires s.supervisor == Reaping
    ensures Runs(n, s, es) && Unaided(es)
    ensures var t := After(n, s, es);
      && t.files == s.files && t.supervisor == CheckHttp
      && forall pid :: pid in t.procs <==> pid in s.procs && !s.procs[pid].Zombie()
    ensures forall pid :: pid in After(n, s, es).procs ==> After(n, s, es).procs[pid] == s.procs[pid]
    decreases |s.procs.Keys|
  {
    if pid :| pid in s.procs && s.procs[pid].Zombie() {
      assert (s.procs - {pid}).Keys == s.procs.Keys - {pid};
      var rest := ReapAll(n, Apply(n, s, Reap(pid)));
      RunsCons(n, s, Reap(pid), rest);
      es := [Reap(pid)] + rest;
    } else {
      RunsCons(n, s, NothingToReap, []);
      es := [NothingToReap] + [];
    }
  }

  /** With no path tracer left to reap, the next round of the loop forks one. */
  lemma {:induction false} ForkAgain(n: nat, s: System) returns (es: seq<Event>, pid: int)
    requires SupervisorInv(s) && s.supervisor == CheckHttp
    requires forall q :: q in s.procs ==> s.procs[q].HttpServer?
    ensures Runs(n, s, es) && Unaided(es)
    ensures var t := After(n, s, es);
      t.files == s.files && pid in t.procs && t.procs[pid] == Tracer(FreshTracer(n))
  {
    pid := if s.httpPid > 0 then s.httpPid + 1 else 1;
    var s1 := Apply(n, s, Supervise(-1));
    RunsCons(n, s1, Supervise(pid), []);
    RunsCons(n, s, Supervise(-1), [Supervise(pid)] + []);
    es := [Supervise(-1)] + ([Supervise(pid)] + []);
  }

  /** Start-up moves the files back one by one. */
  lemma {:induction false} MoveAllBack(p: PathTracer, fs: Files) returns (steps: seq<TracerEvent>)
    requires p.pc == Recovering(fs.inProgress)
    ensures TracerRuns(p, fs, steps)
    ensures var (q, gs) := TracerAfter(p, fs, steps);
      q == p.(pc := LoopTop) && gs == fs.(pending := fs.pending + fs.inProgress, inProgress := {})
    decreases |fs.inProgress|
  {
    if id :| id in fs.inProgress {
      var q, gs := TracerApply(p, fs, MoveBack(id)), FilesApply(p, fs, MoveBack(id));
      assert gs.inProgress == fs.inProgress - {id};
      assert gs.pending + gs.inProgress == fs.pending + fs.inProgress;
      var rest := MoveAllBack(q, gs);
      StepsCons(p, fs, MoveBack(id), rest);
      steps := [MoveBack(id)] + rest;
    } else {
      StepsCons(p, fs, RecoveryDone, []);
      steps := [RecoveryDone] + [];
      assert fs.pending + fs.inProgress == fs.pending;
    }
  }

  lemma {:induction false} Recover(n: nat, s: System, pid: int) returns (es: seq<Event>)
    requires pid in s.procs && s.procs[pid] == Tracer(FreshTracer(n))
    ensures Runs(n, s, es) && Unaided(es)
    ensures var t := After(n, s, es);
      && t.files == s.files.(pending := s.files.pending + s.files.inProgress, inProgress := {})
      && pid in t.procs && t.procs[pid] == Tracer(FreshTracer(n).(pc := LoopTop))
  {
    var p := FreshTracer(n);
    var back := MoveAllBack(TracerApply(p, s.files, ListInProgress), s.files);
    StepsCons(p, s.files, ListInProgress, back);
    InsideRuns(n, s, pid, [ListInProgress] + back);
    es := Inside(pid, [ListInProgress] + back);
  }

  /** Whatever run led to the crash, some continuation puts every orphaned request back
      among the pending ones, finishes nothing and leaves a dispatcher ready to scan. */
  lemma {:induction false} CrashIsRecoverable(n: nat, run: seq<Event>) returns (es: seq<Event>, pid: int)
    requires Runs(n, Init(), run) && NoTracerRuns(After(n, Init(), run))
    ensures Runs(n, Init(), run + es) && Unaided(es)
    ensures var fs, t := After(n, Init(), run).files, After(n, Init(), run + es);
      && t.files == fs.(pending := fs.pending + fs.inProgress, inProgress := {})
      && pid in t.procs && t.procs[pid] == Tracer(FreshTracer(n).(pc := LoopTop))
  {
    var s := After(n, Init(), run);
    Reachable(n, run);
    var a := ReachReaping(n, s);
    var s1 := After(n, s, a);
    RunKeepsInv(n, s, a);
    var b := ReapAll(n, s1);
    var s2 := After(n, s1, b);
    RunKeepsInv(n, s1, b);
    var c;
    c, pid := ForkAgain(n, s2);
    var d := Recover(n, After(n, s2, c), pid);
    RunsConcat(n, s2, c, d);
    RunsConcat(n, s1, b, c + d);
    RunsConcat(n, s, a, b + (c + d));
    es := a + (b + (c + d));
    RunsConcat(n, Init(), run, es);
  }

  /** The same for every reachable state, with or without a path tracer: no submission
      and no exit is needed to finish everything. */
  lemma {:induction false} NoDeadEnd(n: nat, run: seq<Event>) returns (es: seq<Event>)
    requires n > 0 && Runs(n, Init(), run)
    ensures Runs(n, Init(), run + es) && Unaided(es)
    ensures var fs := After(n, Init(), run + es).files;
      fs.finished == Submissions(run) && fs.pending == {} && fs.inProgress == {}
  {
    var s := After(n, Init(), run);
    if pid :| pid in s.procs && s.procs[pid].Tracer? {
      es := EverythingCanFinish(n, run, pid);
    } else {
      var reboot, pid := CrashIsRecoverable(n, run);
      var serve := EverythingCanFinish(n, run + reboot, pid);
      es := reboot + serve;
      assert run + es == run + reboot + serve;
      ReachableFiles(n, run);
      ReachableFiles(n, run + reboot);
    }
  }
  /** A path tracer may crash at any moment, and nothing is lost by it: some continuation
      without a submission or another exit has all that was in progress pending again. */
  lemma {:induction false} CrashAnytime(n: nat, run: seq<Event>, crashed: int) returns (es: seq<Event>, pid: int)
    requires Runs(n, Init(), run)
    requires var s := After(n, Init(), run); crashed in s.procs && s.procs[crashed].Tracer?
    ensures Runs(n, Init(), run + [Exit(crashed)] + es) && Unaided(es)
    ensures var fs, t := After(n, Init(), run).files, After(n, Init(), run + [Exit(crashed)] + es);
      && t.files == fs.(pending := fs.pending + fs.inProgress, inProgress := {})
      && pid in t.procs && t.procs[pid] == Tracer(FreshTracer(n).(pc := LoopTop))
  {
    var s := After(n, Init(), run);
    Reachable(n, run);
    RunsCons(n, s, Exit(crashed), []);
    assert [Exit(crashed)] + [] == [Exit(crashed)];
    RunsConcat(n, Init(), run, [Exit(crashed)]);
    OnlyTracer(s, crashed);
    es, pid := CrashIsRecoverable(n, run + [Exit(crashed)]);
  }

  /** In every reachable state any new request can be submitted, and can be finished. */
  lemma {:induction false} NewRequestCanFinish(n: nat, run: seq<Event>, id: nat, listed: bool) returns (es: seq<Event>)
    requires n > 0 && Runs(n, Init(), run) && id !in Submissions(run)
    ensures Runs(n, Init(), run + [Submit(id, listed)] + es) && Unaided(es)
    ensures After(n, Init(), run + [Submit(id, listed)] + es).files.finished == Submissions(run) + {id}
  {
    var s := After(n, Init(), run);
    ReachableFiles(n, run);
    RunsCons(n, s, Submit(id, listed), []);
    assert [Submit(id, listed)] + [] == [Submit(id, listed)];
    RunsConcat(n, Init(), run, [Submit(id, listed)]);
    es := NoDeadEnd(n, run + [Submit(id, listed)]);
    ReachableFiles(n, run + [Submit(id, listed)]);
  }

  // ---------------------------------------------------------------- both programs come back

  ghost predicate BothRun(s: System) {
    (exists p :: p in s.procs && s.procs[p].HttpServer?) && (exists q :: q in s.procs && s.procs[q].Tracer?)
  }

  lemma {:induction false} ForkMissing(n: nat, s: System) returns (es: seq<Event>)
    requires SupervisorInv(s) && s.supervisor == CheckHttp && forall q :: q in s.procs ==> !s.procs[q].Zombie()
    ensures Runs(n, s, es) && Unaided(es) && BothRun(After(n, s, es))
  {
    var p := Max(Max(s.httpPid, s.tracerPid), 0) + 1;
    var s1 := Apply(n, s, Supervise(p));
    ForkKeepsSupervision(n, s, p);
    var s2 := Apply(n, s1, Supervise(p + 1));
    ForkKeepsSupervision(n, s1, p + 1);
    assert s2.procs[s2.httpPid].HttpServer? && s2.procs[s2.tracerPid].Tracer?;
    RunsCons(n, s1, Supervise(p + 1), []);
    RunsCons(n, s, Supervise(p), [Supervise(p + 1)] + []);
    es := [Supervise(p)] + ([Supervise(p + 1)] + []);
  }

  /** From every reachable state, with no submission and no exit, the supervisor gets both
      programs running. */
  lemma {:induction false} BothReturn(n: nat, run: seq<Event>) returns (es: seq<Event>)
    requires Runs(n, Init(), run)
    ensures Runs(n, Init(), run + es) && Unaided(es) && BothRun(After(n, Init(), run + es))
  {
    var s := After(n, Init(), run);
    Reachable(n, run);
    var a := ReachReaping(n, s);
    var s1 := After(n, s, a);
    RunKeepsInv(n, s, a);
    var b := ReapAll(n, s1);
    var s2 := After(n, s1, b);
    RunKeepsInv(n, s1, b);
    var c := ForkMissing(n, s2);
    RunsConcat(n, s1, b, c);
    RunsConcat(n, s, a, b + c);
    es := a + (b + c);
    RunsConcat(n, Init(), run, es);
  }

  /** In its loop the supervisor has checked on a program when it moves on. */
  ghost predicate Checked(s: System) {
    && !s.supervisor.StartHttp? && !s.supervisor.StartTracer?
    && (s.supervisor.CheckTracer? || s.supervisor.Reaping? ==> s.httpPid > 0)
    && (s.supervisor.Reaping? ==> s.tracerPid > 0)
  }

  ghost predicate ForksSucceed(es: seq<Event>) {
    forall e :: e in es ==> !e.Reap? && (e.Supervise? ==> e.forked > 0)
  }

  lemma {:induction false} RoundChecks(n: nat, s: System, es: seq<Event>)
    requires Runs(n, s, es) && Checked(s) && ForksSucceed(es)
    ensures Checked(After(n, s, es))
    decreases |es|
  {
    if es != [] {
      assert es[0] in es;
      RoundChecks(n, Apply(n, s, es[0]), es[1..]);
    }
  }

  /** One round of the loop in which `fork` succeeds leaves a child of either kind, if it
      was not there already. */
  lemma {:induction false} RoundSpawnsBoth(n: nat, run: seq<Event>, round: seq<Event>)
    requires Runs(n, Init(), run) && Runs(n, Init(), run + round) && ForksSucceed(round)
    requires After(n, Init(), run).supervisor == CheckHttp && After(n, Init(), run + round).supervisor == Reaping
    ensures var t := After(n, Init(), run + round);
      && t.httpPid in t.procs && t.procs[t.httpPid].IsHttp()
      && t.tracerPid in t.procs && !t.procs[t.tracerPid].IsHttp()
  {
    RunsSplit(n, Init(), run, round);
    RoundChecks(n, After(n, Init(), run), round);
    Reachable(n, run + round);
  }

  ghost predicate NoZombies(s: System) { forall pid :: pid in s.procs ==> !s.procs[pid].Zombie() }

  lemma {:induction false} NoExitNoZombies(n: nat, s: System, es: seq<Event>)
    requires Runs(n, s, es) && NoZombies(s) && forall e :: e in es ==> !e.Exit?
    ensures NoZombies(After(n, s, es))
    decreases |es|
  {
    if es != [] {
      assert es[0] in es;
      NoExitNoZombies(n, Apply(n, s, es[0]), es[1..]);
    }
  }

  /** The reaping loop ends only when no exit is left to notice; so if nothing exits
      during the next round, both programs run after it. */
  lemma {:induction false} RoundRunsBoth(n: nat, run: seq<Event>, round: seq<Event>)
    requires Runs(n, Init(), run + [NothingToReap]) && Runs(n, Init(), run + [NothingToReap] + round)
    requires ForksSucceed(round) && forall e :: e in round ==> !e.Exit?
    requires After(n, Init(), run + [NothingToReap] + round).supervisor == Reaping
    ensures BothRun(After(n, Init(), run + [NothingToReap] + round))
  {
    var start := run + [NothingToReap];
    RunsSplit(n, Init(), run, [NothingToReap]);
    RunsSplit(n, Init(), start, round);
    var s := After(n, Init(), start);
    assert s == Apply(n, After(n, Init(), run), NothingToReap);
    NoExitNoZombies(n, s, round);
    RoundSpawnsBoth(n, start, round);
    var t := After(n, Init(), start + round);
    assert t.procs[t.httpPid].HttpServer? && t.procs[t.tracerPid].Tracer?;
  }

  /** Start-up forks both, in this order. */
  lemma {:induction false} StartUpForksBoth(n: nat, p: int, q: int)
    requires p > 0 && q > 0 && p != q
    ensures var es := [Supervise(p)] + ([Supervise(q)] + []);
      && Runs(n, Init(), es)
      && After(n, Init(), es).procs == map[p := HttpServer, q := Tracer(FreshTracer(n))]
      && After(n, Init(), es).supervisor == CheckHttp
  {
    var s := Apply(n, Init(), Supervise(p));
    RunsCons(n, s, Supervise(q), []);
    RunsCons(n, Init(), Supervise(p), [Supervise(q)] + []);
  }
}
