/**
  What every step of the render scheduler keeps, and what follows for every run:
  no request is lost or duplicated across crashes, one path tracer at most is alive,
  slots and files are held exclusively, and no scene is freed under its renderer.
 */
module SchedulerInvariant {
  import opened Prelude
  import opened RenderScheduler

  // ---------------------------------------------------------------- the invariant

  ghost predicate Conserved(fs: Files) {
    && fs.submitted == fs.pending + fs.inProgress + fs.finished
    && fs.pending !! fs.inProgress
    && fs.pending !! fs.finished
    && fs.inProgress !! fs.finished
    && fs.finished <= fs.rendered
  }

  ghost predicate CountersInv(h: Handler) {
    && h.taken <= h.peak
    && (h.written == -1 || h.written == h.peak)
    && (h.pc == Consuming ==> h.taken < h.peak)
    && (h.SawDone() ==> h.written == -1)
    && (h.freed <==> h.pc == Releasing)
    && (h.pc == Opening ==> h.written == h.peak == 0)
  }

  ghost predicate HandlerInv(p: PathTracer, fs: Files, t: nat)
    requires t in p.handlers
  {
    var h := p.handlers[t];
    && t < p.nextThread
    && CountersInv(h)
    && h.slot < |p.locks| && p.locks[h.slot]
    && (h.HoldsFile() ==> h.id in fs.inProgress)
    && (!h.HoldsFile() ==> h.id in fs.finished)
    && (h.written == -1 ==> h.id in fs.rendered)
  }

  ghost predicate Owns(p: PathTracer, t: nat, slot: nat) {
    t in p.handlers && p.handlers[t].slot == slot
  }

  ghost predicate Serves(p: PathTracer, t: nat, id: nat) {
    t in p.handlers && p.handlers[t].id == id && p.handlers[t].HoldsFile()
  }

  predicate DispatcherOwns(p: PathTracer, slot: nat) {
    (p.pc.Moving? || p.pc.Spawning?) && p.pc.slot == slot
  }

  predicate DispatcherServes(p: PathTracer, id: nat) {
    p.pc.Spawning? && p.pc.id == id
  }

  ghost predicate SlotsInv(p: PathTracer) {
    && (forall t, u :: t in p.handlers && u in p.handlers && t != u ==> p.handlers[t].slot != p.handlers[u].slot)
    && (forall t :: t in p.handlers ==> !DispatcherOwns(p, p.handlers[t].slot))
    && (forall i :: 0 <= i < |p.locks| && p.locks[i] ==> DispatcherOwns(p, i) || exists t :: Owns(p, t, i))
    && (p.pc.Moving? || p.pc.Spawning? ==> p.pc.slot < |p.locks| && p.locks[p.pc.slot])
  }

  ghost predicate ServiceInv(p: PathTracer, fs: Files) {
    && (forall t, u :: t in p.handlers && u in p.handlers && t != u ==> p.handlers[t].id != p.handlers[u].id)
    && (forall t :: t in p.handlers ==> !DispatcherServes(p, p.handlers[t].id))
    && (forall id :: id in fs.inProgress ==> DispatcherServes(p, id) || exists t :: Serves(p, t, id))
  }

  /** Every pending entry is still to be reported, was missed by the listing, or is no
      smaller than the best so far. */
  ghost predicate ScanInv(pc: DispatcherPc, pending: set<nat>)
    requires pc.Scanning?
  {
    && pc.todo <= pending && pc.missed <= pending
    && (pc.best.Some? ==> pc.best.value in pending)
    && forall q :: q in pending ==>
         q in pc.todo || q in pc.missed || (pc.best.Some? && pc.best.value <= q)
  }

  ghost predicate PcInv(p: PathTracer, fs: Files) {
    match p.pc
    case Scanning(_, _, _) => ScanInv(p.pc, fs.pending)
    case Claiming(id, _, missed) => id in fs.pending && missed <= fs.pending
    case Moving(id, _, missed) => id in fs.pending && missed <= fs.pending
    case Spawning(id, _) => id in fs.inProgress
    case _ => true
  }

  predicate Recovered(p: PathTracer) { !p.pc.Booting? && !p.pc.Recovering? }

  ghost predicate TracerInv(n: nat, p: PathTracer, fs: Files) {
    && |p.locks| == n
    && (forall t :: t in p.handlers ==> HandlerInv(p, fs, t))
    && SlotsInv(p)
    && (if Recovered(p) then ServiceInv(p, fs) && PcInv(p, fs)
        else p.handlers == map[] && p.starts == [] && (p.pc.Recovering? ==> p.pc.back == fs.inProgress))
  }

  ghost predicate SupervisorInv(s: System) {
    && (forall pid :: pid in s.procs ==>
          pid > 0 && (if s.procs[pid].IsHttp() then pid == s.httpPid else pid == s.tracerPid))
    && (s.httpPid > 0 ==> s.httpPid in s.procs && s.procs[s.httpPid].IsHttp())
    && (s.tracerPid > 0 ==> s.tracerPid in s.procs && !s.procs[s.tracerPid].IsHttp())
    && (s.supervisor.StartHttp? ==> s.httpPid <= 0 && s.tracerPid <= 0)
    && (s.supervisor.StartTracer? ==> s.tracerPid <= 0)
  }

  ghost predicate Inv(n: nat, s: System) {
    && Conserved(s.files)
    && |s.files.inProgress| <= n
    && SupervisorInv(s)
    && (forall pid :: pid in s.procs && s.procs[pid].Tracer? ==> TracerInv(n, s.procs[pid].tracer, s.files))
  }

  // ---------------------------------------------------------------- tracer steps keep it

  lemma {:induction false} FilesKept(n: nat, p: PathTracer, fs: Files, e: TracerEvent)
    requires TracerInv(n, p, fs) && Conserved(fs) && TracerEnabled(p, e)
    ensures Conserved(FilesApply(p, fs, e))
  {
  }

  lemma {:induction false} ClaimKeepsSlots(p: PathTracer)
    requires SlotsInv(p) && p.pc.Claiming?
    requires forall t :: t in p.handlers ==> p.handlers[t].slot < |p.locks| && p.locks[p.handlers[t].slot]
    ensures SlotsInv(TryClaim(p))
  {
    var q := TryClaim(p);
    forall i | 0 <= i < |q.locks| && q.locks[i]
      ensures DispatcherOwns(q, i) || exists t :: Owns(q, t, i)
    {
      if p.locks[i] {
        var t :| Owns(p, t, i);
        assert Owns(q, t, i);
      }
    }
  }

  lemma {:induction false} ClaimKeepsService(p: PathTracer, fs: Files)
    requires ServiceInv(p, fs) && p.pc.Claiming?
    ensures ServiceInv(TryClaim(p), fs)
  {
    var q := TryClaim(p);
    forall id | id in fs.inProgress ensures exists t :: Serves(q, t, id) {
      var t :| Serves(p, t, id);
      assert Serves(q, t, id);
    }
  }

  lemma {:induction false} ClaimKeepsHandlers(p: PathTracer, fs: Files)
    requires p.pc.Claiming? && forall t :: t in p.handlers ==> HandlerInv(p, fs, t)
    ensures forall t :: t in p.handlers ==> HandlerInv(TryClaim(p), fs, t)
    ensures forall t :: t in p.handlers ==> p.handlers[t].slot < |p.locks| && p.locks[p.handlers[t].slot]
  {
    forall t | t in p.handlers
      ensures HandlerInv(TryClaim(p), fs, t) && p.handlers[t].slot < |p.locks| && p.locks[p.handlers[t].slot]
    {
      assert HandlerInv(p, fs, t);
    }
  }

  lemma {:induction false} ClaimKeepsInv(n: nat, p: PathTracer, fs: Files)
    requires TracerInv(n, p, fs) && p.pc.Claiming?
    ensures TracerInv(n, TryClaim(p), fs)
  {
    ClaimKeepsHandlers(p, fs);
    ClaimKeepsSlots(p);
    ClaimKeepsService(p, fs);
  }

  lemma {:induction false} DetachKeepsSlots(p: PathTracer)
    requires SlotsInv(p) && p.pc.Spawning? && p.nextThread !in p.handlers
    ensures SlotsInv(Detach(p, p.pc.id, p.pc.slot))
  {
    var q := Detach(p, p.pc.id, p.pc.slot);
    forall i | 0 <= i < |q.locks| && q.locks[i] ensures exists t :: Owns(q, t, i) {
      if i == p.pc.slot {
        assert Owns(q, p.nextThread, i);
      } else {
        var t :| Owns(p, t, i);
        assert Owns(q, t, i);
      }
    }
  }

  lemma {:induction false} DetachKeepsService(p: PathTracer, fs: Files)
    requires ServiceInv(p, fs) && p.pc.Spawning? && p.nextThread !in p.handlers
    ensures ServiceInv(Detach(p, p.pc.id, p.pc.slot), fs)
  {
    var q := Detach(p, p.pc.id, p.pc.slot);
    forall id | id in fs.inProgress ensures exists t :: Serves(q, t, id) {
      if id == p.pc.id {
        assert Serves(q, p.nextThread, id);
      } else {
        var t :| Serves(p, t, id);
        assert Serves(q, t, id);
      }
    }
  }

  lemma {:induction false} DetachKeepsInv(n: nat, p: PathTracer, fs: Files)
    requires TracerInv(n, p, fs) && Conserved(fs) && p.pc.Spawning?
    ensures TracerInv(n, Detach(p, p.pc.id, p.pc.slot), fs)
  {
    var q := Detach(p, p.pc.id, p.pc.slot);
    assert p.nextThread in p.handlers ==> HandlerInv(p, fs, p.nextThread);
    assert SlotsInv(q) by { DetachKeepsSlots(p); }
    assert ServiceInv(q, fs) by { DetachKeepsService(p, fs); }
    forall t | t in p.handlers ensures HandlerInv(q, fs, t) {
      assert HandlerInv(p, fs, t);
    }
  }

  /** Dispatcher steps that leave locks and handlers alone. */
  lemma {:induction false} MoveKeepsSlots(p: PathTracer, fs: Files, e: TracerEvent)
    requires SlotsInv(p) && TracerEnabled(p, e)
    requires DispatcherEvent(e) && !e.TestSlot? && !e.SpawnHandler?
    ensures SlotsInv(TracerApply(p, fs, e))
  {
    var q := TracerApply(p, fs, e);
    forall i | 0 <= i < |q.locks| && q.locks[i] && !DispatcherOwns(q, i) ensures exists t :: Owns(q, t, i) {
      var t :| Owns(p, t, i);
      assert Owns(q, t, i);
    }
  }

  lemma {:induction false} MoveKeepsInv(n: nat, p: PathTracer, fs: Files, e: TracerEvent)
    requires TracerInv(n, p, fs) && Conserved(fs) && TracerEnabled(p, e)
    requires DispatcherEvent(e) && !e.TestSlot? && !e.SpawnHandler?
    ensures TracerInv(n, TracerApply(p, fs, e), FilesApply(p, fs, e))
  {
    var q, gs := TracerApply(p, fs, e), FilesApply(p, fs, e);
    MoveKeepsSlots(p, fs, e);
    forall t | t in q.handlers ensures HandlerInv(q, gs, t) {
      assert HandlerInv(p, fs, t);
    }
    if Recovered(q) {
      forall id | id in gs.inProgress && !DispatcherServes(q, id) ensures exists t :: Serves(q, t, id) {
        var t :| Serves(p, t, id);
        assert Serves(q, t, id);
      }
    }
  }

  lemma {:induction false} ReleaseKeepsSlots(p: PathTracer, t: nat)
    requires SlotsInv(p) && t in p.handlers && p.handlers[t].slot < |p.locks|
    ensures SlotsInv(Unlock(p, t))
  {
    var q := Unlock(p, t);
    forall i | 0 <= i < |q.locks| && q.locks[i] && !DispatcherOwns(q, i) ensures exists u :: Owns(q, u, i) {
      var u :| Owns(p, u, i);
      assert Owns(q, u, i);
    }
  }

  lemma {:induction false} ReleaseKeepsService(p: PathTracer, fs: Files, t: nat)
    requires ServiceInv(p, fs) && AtThread(p, t, Releasing)
    ensures ServiceInv(Unlock(p, t), fs)
  {
    var q := Unlock(p, t);
    forall id | id in fs.inProgress && !DispatcherServes(q, id) ensures exists u :: Serves(q, u, id) {
      var u :| Serves(p, u, id);
      assert Serves(q, u, id);
    }
  }

  lemma {:induction false} ReleaseKeepsInv(n: nat, p: PathTracer, fs: Files, t: nat)
    requires TracerInv(n, p, fs) && Conserved(fs) && AtThread(p, t, Releasing)
    ensures TracerInv(n, Unlock(p, t), fs)
  {
    assert HandlerInv(p, fs, t);
    ReleaseKeepsSlots(p, t);
    ReleaseKeepsService(p, fs, t);
    forall u | u in p.handlers && u != t ensures HandlerInv(Unlock(p, t), fs, u) {
      assert HandlerInv(p, fs, u);
    }
  }

  /** Advancing one handler without touching its id or slot moves no slot. */
  lemma {:induction false} AdvanceKeepsSlots(p: PathTracer, t: nat, h: Handler)
    requires SlotsInv(p) && t in p.handlers && h.slot == p.handlers[t].slot
    ensures SlotsInv(SetHandler(p, t, h))
  {
    var q := SetHandler(p, t, h);
    forall i | 0 <= i < |q.locks| && q.locks[i] && !DispatcherOwns(q, i) ensures exists u :: Owns(q, u, i) {
      var u :| Owns(p, u, i);
      assert Owns(q, u, i);
    }
  }

  /** ... and serves the same files, but for a file it removes. */
  lemma {:induction false} AdvanceKeepsService(p: PathTracer, fs: Files, t: nat, h: Handler, gs: Files)
    requires ServiceInv(p, fs) && t in p.handlers && h.id == p.handlers[t].id
    requires gs.inProgress == if h.HoldsFile() == p.handlers[t].HoldsFile() then fs.inProgress
                              else fs.inProgress - {h.id}
    ensures ServiceInv(SetHandler(p, t, h), gs)
  {
    var q := SetHandler(p, t, h);
    forall id | id in gs.inProgress && !DispatcherServes(q, id) ensures exists u :: Serves(q, u, id) {
      var u :| Serves(p, u, id);
      assert Serves(q, u, id);
    }
  }

  /** A handler's step takes no file from the dispatcher and adds none to it. */
  lemma {:induction false} HandlerStepKeepsPc(p: PathTracer, fs: Files, e: TracerEvent)
    requires TracerEnabled(p, e) && !DispatcherEvent(e) && !e.Release?
    requires PcInv(p, fs) && !DispatcherServes(p, p.handlers[e.thread].id)
    ensures PcInv(TracerApply(p, fs, e), FilesApply(p, fs, e))
  {
  }

  lemma {:induction false} HandlerStepKeepsHandlers(p: PathTracer, fs: Files, e: TracerEvent)
    requires TracerEnabled(p, e) && !DispatcherEvent(e) && !e.Release?
    requires forall t :: t in p.handlers ==> HandlerInv(p, fs, t)
    requires forall t, u :: t in p.handlers && u in p.handlers && t != u ==> p.handlers[t].id != p.handlers[u].id
    ensures var q, gs := TracerApply(p, fs, e), FilesApply(p, fs, e);
      forall u :: u in q.handlers ==> HandlerInv(q, gs, u)
  {
  }

  /** A handler's step changes its own record, not its id or slot, and takes a file out
      of `in_progress/` exactly when the handler stops holding it. */
  lemma {:induction false} HandlerStepEffect(p: PathTracer, fs: Files, e: TracerEvent)
    requires TracerEnabled(p, e) && !DispatcherEvent(e) && !e.Release?
    ensures var h, g, gs := p.handlers[e.thread], HandlerStep(p.handlers[e.thread], e), FilesApply(p, fs, e);
      && TracerApply(p, fs, e) == SetHandler(p, e.thread, g)
      && g.id == h.id && g.slot == h.slot
      && gs.inProgress == if g.HoldsFile() == h.HoldsFile() then fs.inProgress else fs.inProgress - {g.id}
  {
  }

  lemma {:induction false} HandlerStepKeepsInv(n: nat, p: PathTracer, fs: Files, e: TracerEvent)
    requires TracerInv(n, p, fs) && Recovered(p) && TracerEnabled(p, e)
    requires !DispatcherEvent(e) && !e.Release?
    ensures TracerInv(n, TracerApply(p, fs, e), FilesApply(p, fs, e))
  {
    HandlerStepEffect(p, fs, e);
    HandlerStepKeepsHandlers(p, fs, e);
    HandlerStepKeepsPc(p, fs, e);
    var gs, t := FilesApply(p, fs, e), e.thread;
    var h := HandlerStep(p.handlers[t], e);
    AdvanceKeepsSlots(p, t, h);
    AdvanceKeepsService(p, fs, t, h, gs);
  }

  lemma {:induction false} TracerKept(n: nat, p: PathTracer, fs: Files, e: TracerEvent)
    requires TracerInv(n, p, fs) && Conserved(fs) && TracerEnabled(p, e)
    ensures TracerInv(n, TracerApply(p, fs, e), FilesApply(p, fs, e))
  {
    if e.TestSlot? {
      ClaimKeepsInv(n, p, fs);
    } else if e.SpawnHandler? {
      DetachKeepsInv(n, p, fs);
    } else if DispatcherEvent(e) {
      MoveKeepsInv(n, p, fs, e);
    } else if e.Release? {
      ReleaseKeepsInv(n, p, fs, e.thread);
    } else {
      HandlerStepKeepsInv(n, p, fs, e);
    }
  }

  // ---------------------------------------------------------------- capacity

  /** The slot whose owner holds file `id`. */
  ghost function SlotOf(p: PathTracer, fs: Files, id: nat): (slot: nat)
    requires ServiceInv(p, fs) && id in fs.inProgress
    ensures if DispatcherServes(p, id) then slot == p.pc.slot
            else exists t :: Serves(p, t, id) && p.handlers[t].slot == slot
  {
    if DispatcherServes(p, id) then p.pc.slot
    else var t :| Serves(p, t, id); p.handlers[t].slot
  }

  /** The slots number the files in progress: every file has its own locked slot. */
  lemma {:induction false} CapacityFromSlots(n: nat, p: PathTracer, fs: Files) returns (slots: map<nat, nat>)
    requires TracerInv(n, p, fs) && Recovered(p)
    ensures slots.Keys == fs.inProgress
    ensures forall x :: x in slots ==> slots[x] < n && p.locks[slots[x]]
    ensures forall x, y :: x in slots && y in slots && x != y ==> slots[x] != slots[y]
    ensures |fs.inProgress| <= n
  {
    slots := map id | id in fs.inProgress :: SlotOf(p, fs, id);
    forall id | id in slots ensures slots[id] < n && p.locks[slots[id]] {
      if !DispatcherServes(p, id) {
        var t :| Serves(p, t, id) && p.handlers[t].slot == slots[id];
        assert HandlerInv(p, fs, t);
      }
    }
    forall x, y | x in slots && y in slots && x != y ensures slots[x] != slots[y] {
      if !DispatcherServes(p, x) {
        var t :| Serves(p, t, x) && p.handlers[t].slot == slots[x];
        if !DispatcherServes(p, y) {
          var u :| Serves(p, u, y) && p.handlers[u].slot == slots[y];
        }
      } else {
        var u :| Serves(p, u, y) && p.handlers[u].slot == slots[y];
      }
    }
    InjectionBound(n, slots);
    assert |slots| == |slots.Keys|;
  }

  lemma SubsetBound(a: set<nat>, b: set<nat>)
    requires a <= b
    ensures |a| <= |b|
  {
    if a != {} {
      var x :| x in a;
      SubsetBound(a - {x}, b - {x});
    }
  }

  // ---------------------------------------------------------------- system steps keep it

  /** A dispatcher that only reads holds nothing: where in its scan it is matters to no
      slot and no file. */
  lemma {:induction false} ScanningHoldsNothing(p: PathTracer, q: PathTracer, fs: Files, gs: Files)
    requires p.pc.Scanning? && q == p.(pc := q.pc) && q.pc.Scanning?
    requires SlotsInv(p) && ServiceInv(p, fs) && gs.inProgress == fs.inProgress
    ensures SlotsInv(q) && ServiceInv(q, gs)
  {
    forall i | 0 <= i < |q.locks| && q.locks[i] ensures exists t :: Owns(q, t, i) {
      var t :| Owns(p, t, i);
      assert Owns(q, t, i);
    }
    forall x | x in gs.inProgress ensures exists t :: Serves(q, t, x) {
      var t :| Serves(p, t, x);
      assert Serves(q, t, x);
    }
  }

  lemma {:induction false} EntryKeepsInv(n: nat, p: PathTracer, fs: Files, id: nat)
    requires TracerInv(n, p, fs) && !p.pc.Scanning?
    ensures TracerInv(n, p, WithEntry(fs, id))
  {
  }

  lemma {:induction false} ScanKeepsInv(n: nat, p: PathTracer, r: PathTracer, fs: Files, id: nat)
    requires TracerInv(n, p, fs) && p.pc.Scanning? && r.pc.Scanning? && r == p.(pc := r.pc)
    requires ScanInv(r.pc, WithEntry(fs, id).pending)
    ensures TracerInv(n, r, WithEntry(fs, id))
  {
    ScanningHoldsNothing(p, r, fs, WithEntry(fs, id));
    forall t | t in r.handlers ensures HandlerInv(r, WithEntry(fs, id), t) {
      assert HandlerInv(p, fs, t);
    }
  }

  lemma {:induction false} NoticeKeepsInv(n: nat, q: Process, fs: Files, id: nat, listed: bool)
    requires q.Tracer? ==> TracerInv(n, q.tracer, fs)
    ensures var r := NoticeEntry(q, id, listed);
      && r.IsHttp() == q.IsHttp() && r.Tracer? == q.Tracer?
      && (r.Tracer? ==> TracerInv(n, r.tracer, WithEntry(fs, id)))
  {
    if q.Tracer? {
      if q.tracer.pc.Scanning? {
        ScanKeepsInv(n, q.tracer, NoticeEntry(q, id, listed).tracer, fs, id);
      } else {
        EntryKeepsInv(n, q.tracer, fs, id);
      }
    }
  }

  lemma {:induction false} SubmitKeepsSupervision(s: System, id: nat, listed: bool)
    requires SupervisorInv(s)
    ensures SupervisorInv(SubmitApply(s, id, listed))
  {
  }

  lemma {:induction false} SubmitKeepsInv(n: nat, s: System, id: nat, listed: bool)
    requires Inv(n, s) && id !in s.files.submitted
    ensures Inv(n, SubmitApply(s, id, listed))
  {
    var t := SubmitApply(s, id, listed);
    assert Conserved(t.files) && t.files == WithEntry(s.files, id);
    SubmitKeepsSupervision(s, id, listed);
    forall pid | pid in t.procs && t.procs[pid].Tracer? ensures TracerInv(n, t.procs[pid].tracer, t.files) {
      NoticeKeepsInv(n, s.procs[pid], s.files, id, listed);
    }
  }

  lemma {:induction false} StepKeepsCapacity(n: nat, p: PathTracer, fs: Files, e: TracerEvent)
    requires TracerInv(n, p, fs) && Conserved(fs) && |fs.inProgress| <= n && TracerEnabled(p, e)
    ensures |FilesApply(p, fs, e).inProgress| <= n
  {
    var q, gs := TracerApply(p, fs, e), FilesApply(p, fs, e);
    TracerKept(n, p, fs, e);
    if Recovered(q) {
      var slots := CapacityFromSlots(n, q, gs);
    } else {
      SubsetBound(gs.inProgress, fs.inProgress);
    }
  }

  lemma OnlyTracer(s: System, p: int)
    requires SupervisorInv(s) && p in s.procs && s.procs[p].Tracer?
    ensures forall q :: q in s.procs && s.procs[q].Tracer? ==> q == p
  {
  }

  lemma {:induction false} InTracerKeepsInv(n: nat, s: System, pid: int, a: TracerEvent)
    requires Inv(n, s) && Enabled(s, InTracer(pid, a))
    ensures Inv(n, InTracerApply(s, pid, a))
  {
    var p, fs := s.procs[pid].tracer, s.files;
    FilesKept(n, p, fs, a);
    TracerKept(n, p, fs, a);
    StepKeepsCapacity(n, p, fs, a);
    OnlyTracer(s, pid);
  }

  lemma {:induction false} FreshTracerInv(n: nat, fs: Files)
    ensures TracerInv(n, FreshTracer(n), fs)
  {
  }

  /** The supervisor forks a program only when it has no unreaped child of that kind. */
  lemma {:induction false} ForkKeepsSupervision(n: nat, s: System, forked: int)
    requires SupervisorInv(s) && Enabled(s, Supervise(forked))
    ensures SupervisorInv(SuperviseApply(n, s, forked))
  {
  }

  lemma {:induction false} SuperviseKeepsInv(n: nat, s: System, forked: int)
    requires Inv(n, s) && Enabled(s, Supervise(forked))
    ensures Inv(n, SuperviseApply(n, s, forked))
  {
    var t := SuperviseApply(n, s, forked);
    assert SupervisorInv(t) by { ForkKeepsSupervision(n, s, forked); }
    forall pid | pid in t.procs && t.procs[pid].Tracer? ensures TracerInv(n, t.procs[pid].tracer, t.files) {
      if !(pid in s.procs && s.procs[pid] == t.procs[pid]) {
        FreshTracerInv(n, s.files);
      }
    }
  }

  lemma {:induction false} ExitKeepsInv(n: nat, s: System, pid: int)
    requires Inv(n, s) && Enabled(s, Exit(pid))
    ensures Inv(n, Apply(n, s, Exit(pid)))
  {
  }

  lemma {:induction false} ReapKeepsInv(n: nat, s: System, pid: int)
    requires Inv(n, s) && Enabled(s, Reap(pid))
    ensures Inv(n, ReapApply(s, pid))
  {
  }

  lemma {:induction false} StepKeepsInv(n: nat, s: System, e: Event)
    requires Inv(n, s) && Enabled(s, e)
    ensures Inv(n, Apply(n, s, e))
  {
    match e
    case Submit(id, listed) => SubmitKeepsInv(n, s, id, listed);
    case InTracer(pid, a) => InTracerKeepsInv(n, s, pid, a);
    case Supervise(forked) => SuperviseKeepsInv(n, s, forked);
    case Exit(pid) => ExitKeepsInv(n, s, pid);
    case Reap(pid) => ReapKeepsInv(n, s, pid);
    case NothingToReap =>
  }

  lemma {:induction false} RunKeepsInv(n: nat, s: System, es: seq<Event>)
    requires Inv(n, s) && Runs(n, s, es)
    ensures Inv(n, After(n, s, es))
    decreases |es|
  {
    if es != [] {
      StepKeepsInv(n, s, es[0]);
      RunKeepsInv(n, Apply(n, s, es[0]), es[1..]);
    }
  }
}
