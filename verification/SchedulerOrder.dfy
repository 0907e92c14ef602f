/**
  Earliest-first. When ids grow with submission, a path tracer that has recovered starts
  requests in order of their ids. The directory listing is not a snapshot, so a scan can
  pick an entry after missing a smaller one, created while it was reading; the order
  holds at every moment of a run exactly when no such pick is moved.
 */
module SchedulerOrder {
  import opened Prelude
  import opened RenderScheduler
  import opened SchedulerInvariant
  import opened SchedulerSafety

  ghost predicate Growing(s: System, e: Event) {
    e.Submit? ==> forall y :: y in s.files.submitted ==> y < e.id
  }

  ghost predicate GrowingRun(n: nat, s: System, es: seq<Event>)
    requires Runs(n, s, es)
    decreases |es|
  {
    es == [] || (Growing(s, es[0]) && GrowingRun(n, Apply(n, s, es[0]), es[1..]))
  }

  /** The dispatcher moves its pick although the scan that chose it missed a smaller one. */
  predicate Overtakes(s: System, e: Event)
    requires Enabled(s, e)
  {
    e.InTracer? && e.action.MoveFile?
    && var pc := s.procs[e.pid].tracer.pc;
       exists m :: m in pc.missed && m < pc.id
  }

  predicate NothingOvertaken(n: nat, s: System, es: seq<Event>)
    requires Runs(n, s, es)
    decreases |es|
  {
    es == [] || (!Overtakes(s, es[0]) && NothingOvertaken(n, Apply(n, s, es[0]), es[1..]))
  }

  /** Once a path tracer has recovered, all that is in progress is below all that is
      pending. */
  ghost predicate InOrder(s: System) {
    forall pid :: pid in s.procs && s.procs[pid].Tracer? && Recovered(s.procs[pid].tracer) ==>
      forall x, q :: x in s.files.inProgress && q in s.files.pending ==> x < q
  }

  ghost predicate AlwaysInOrder(n: nat, s: System, es: seq<Event>)
    requires Runs(n, s, es)
    decreases |es|
  {
    InOrder(s) && (es == [] || AlwaysInOrder(n, Apply(n, s, es[0]), es[1..]))
  }

  // ---------------------------------------------------------------- the order invariant

  ghost predicate Increasing(xs: seq<nat>) {
    forall i, j :: 0 <= i < j < |xs| ==> xs[i] < xs[j]
  }

  ghost predicate NoLaterThan(x: nat, pending: set<nat>) {
    forall q :: q in pending ==> x <= q
  }

  /** With growing ids a pick stays no later than everything its scan did not miss. */
  ghost predicate PcOrder(pc: DispatcherPc, pending: set<nat>) {
    pc.Claiming? || pc.Moving? ==> NoLaterThan(pc.id, pending - pc.missed)
  }

  ghost predicate StartsOrder(starts: seq<nat>, fs: Files) {
    && Increasing(starts)
    && (forall i :: 0 <= i < |starts| ==> starts[i] in fs.submitted)
    && (forall i, q :: 0 <= i < |starts| && q in fs.pending ==> starts[i] < q)
    && (forall id :: id in fs.inProgress ==> id in starts)
  }

  ghost predicate TracerOrder(p: PathTracer, fs: Files) {
    Recovered(p) ==> StartsOrder(p.starts, fs) && PcOrder(p.pc, fs.pending)
  }

  ghost predicate OrderInv(s: System) {
    forall pid :: pid in s.procs && s.procs[pid].Tracer? ==> TracerOrder(s.procs[pid].tracer, s.files)
  }

  // ---------------------------------------------------------------- every orderly step keeps it

  lemma {:induction false} MoveKeepsOrder(n: nat, p: PathTracer, fs: Files)
    requires TracerInv(n, p, fs) && Conserved(fs) && TracerOrder(p, fs) && p.pc.Moving?
    requires forall m :: m in p.pc.missed ==> p.pc.id <= m
    ensures TracerOrder(TracerApply(p, fs, MoveFile), FilesApply(p, fs, MoveFile))
  {
    assert NoLaterThan(p.pc.id, fs.pending) by {
      forall q | q in fs.pending ensures p.pc.id <= q {
        assert q in p.pc.missed || q in fs.pending - p.pc.missed;
      }
    }
  }

  lemma {:induction false} TracerKeepsOrder(n: nat, p: PathTracer, fs: Files, e: TracerEvent)
    requires TracerInv(n, p, fs) && Conserved(fs) && TracerOrder(p, fs) && TracerEnabled(p, e)
    requires e.MoveFile? ==> forall m :: m in p.pc.missed ==> p.pc.id <= m
    ensures TracerOrder(TracerApply(p, fs, e), FilesApply(p, fs, e))
  {
    if e.MoveFile? {
      MoveKeepsOrder(n, p, fs);
    }
  }

  lemma {:induction false} NoticeKeepsOrder(n: nat, q: Process, fs: Files, id: nat, listed: bool)
    requires q.Tracer? && TracerInv(n, q.tracer, fs) && Conserved(fs) && TracerOrder(q.tracer, fs)
    requires forall y :: y in fs.submitted ==> y < id
    ensures TracerOrder(NoticeEntry(q, id, listed).tracer, WithEntry(fs, id))
  {
    var pc := q.tracer.pc;
    assert Recovered(q.tracer) ==> PcInv(q.tracer, fs);
    if pc.Claiming? || pc.Moving? {
      forall x | x in WithEntry(fs, id).pending - pc.missed ensures pc.id <= x {
        assert pc.id in fs.submitted && (x == id || x in fs.pending - pc.missed);
      }
    }
  }

  lemma {:induction false} SubmitKeepsOrder(n: nat, s: System, id: nat, listed: bool)
    requires Inv(n, s) && OrderInv(s) && forall y :: y in s.files.submitted ==> y < id
    ensures OrderInv(SubmitApply(s, id, listed))
  {
    var t := SubmitApply(s, id, listed);
    forall pid | pid in t.procs && t.procs[pid].Tracer? ensures TracerOrder(t.procs[pid].tracer, t.files) {
      NoticeKeepsOrder(n, s.procs[pid], s.files, id, listed);
    }
  }

  lemma {:induction false} StepKeepsOrder(n: nat, s: System, e: Event)
    requires Inv(n, s) && OrderInv(s) && Enabled(s, e) && Growing(s, e) && !Overtakes(s, e)
    ensures OrderInv(Apply(n, s, e))
  {
    if e.Submit? {
      SubmitKeepsOrder(n, s, e.id, e.listed);
    } else if e.InTracer? {
      TracerKeepsOrder(n, s.procs[e.pid].tracer, s.files, e.action);
      OnlyTracer(s, e.pid);
    }
  }

  lemma {:induction false} RunKeepsOrder(n: nat, s: System, es: seq<Event>)
    requires Inv(n, s) && OrderInv(s) && Runs(n, s, es) && GrowingRun(n, s, es) && NothingOvertaken(n, s, es)
    ensures OrderInv(After(n, s, es)) && AlwaysInOrder(n, s, es)
    decreases |es|
  {
    if es != [] {
      StepKeepsInv(n, s, es[0]);
      StepKeepsOrder(n, s, es[0]);
      RunKeepsOrder(n, Apply(n, s, es[0]), es[1..]);
    }
  }

  // ---------------------------------------------------------------- the exact condition

  /** Moving a pick past a missed smaller entry leaves that entry pending below a request
      in progress. */
  lemma {:induction false} OvertakingBreaksOrder(n: nat, s: System, e: Event)
    requires Inv(n, s) && Enabled(s, e) && Overtakes(s, e)
    ensures !InOrder(Apply(n, s, e))
  {
    var p, t := s.procs[e.pid].tracer, Apply(n, s, e);
    assert PcInv(p, s.files);
    var m :| m in p.pc.missed && m < p.pc.id;
    assert p.pc.id in t.files.inProgress && m in t.files.pending;
    assert Recovered(t.procs[e.pid].tracer);
  }

  lemma {:induction false} OrderNeedsNothingOvertaken(n: nat, s: System, es: seq<Event>)
    requires Inv(n, s) && Runs(n, s, es) && AlwaysInOrder(n, s, es)
    ensures NothingOvertaken(n, s, es)
    decreases |es|
  {
    if es != [] {
      StepKeepsInv(n, s, es[0]);
      OrderNeedsNothingOvertaken(n, Apply(n, s, es[0]), es[1..]);
      if Overtakes(s, es[0]) {
        OvertakingBreaksOrder(n, s, es[0]);
      }
    }
  }

  /** In a run with growing ids everything in progress is below everything pending at
      every moment after recovery, exactly when no pick is moved whose scan missed a
      smaller entry. */
  lemma {:induction false} EarliestFirstIff(n: nat, es: seq<Event>)
    requires Runs(n, Init(), es) && GrowingRun(n, Init(), es)
    ensures AlwaysInOrder(n, Init(), es) <==> NothingOvertaken(n, Init(), es)
  {
    if AlwaysInOrder(n, Init(), es) {
      OrderNeedsNothingOvertaken(n, Init(), es);
    }
    if NothingOvertaken(n, Init(), es) {
      RunKeepsOrder(n, Init(), es);
    }
  }

  /** In such a run the starts of one process lifetime strictly increase, and all of them
      are below everything pending. */
  lemma {:induction false} StartsIncrease(n: nat, es: seq<Event>, p: int)
    requires Runs(n, Init(), es) && GrowingRun(n, Init(), es) && NothingOvertaken(n, Init(), es)
    requires var s := After(n, Init(), es); p in s.procs && s.procs[p].Tracer?
    ensures var s := After(n, Init(), es);
      var starts := s.procs[p].tracer.starts;
      Increasing(starts) && forall x, q :: x in starts && q in s.files.pending ==> x < q
  {
    Reachable(n, es);
    RunKeepsOrder(n, Init(), es);
    var s := After(n, Init(), es);
    assert TracerOrder(s.procs[p].tracer, s.files);
  }

  /** The pick of any one scan, in any run at all: it is the smallest pending id
      exactly when the listing missed no smaller one. */
  lemma {:induction false} PickIsEarliestIff(n: nat, es: seq<Event>, p: int)
    requires Runs(n, Init(), es)
    requires var s := After(n, Init(), es);
      && p in s.procs && s.procs[p].Tracer?
      && s.procs[p].tracer.pc.Scanning? && TracerEnabled(s.procs[p].tracer, CloseListing)
      && s.procs[p].tracer.pc.best.Some?
    ensures var s := After(n, Init(), es);
      var pc := s.procs[p].tracer.pc;
      pc.best.value in s.files.pending
      && (NoLaterThan(pc.best.value, s.files.pending) <==> forall m :: m in pc.missed ==> pc.best.value <= m)
  {
    Reachable(n, es);
    var s := After(n, Init(), es);
    assert ScanInv(s.procs[p].tracer.pc, s.files.pending);
  }

  // ---------------------------------------------------------------- waiting time

  /** How many pending requests will be dispatched before `r`. */
  ghost function Ahead(s: System, r: nat): nat {
    |set q | q in s.files.pending && q < r|
  }

  predicate Dispatches(e: Event) { e.InTracer? && e.action.MoveFile? }

  predicate MovesBack(e: Event) { e.InTracer? && e.action.MoveBack? }

  function DispatchCount(es: seq<Event>): nat {
    if es == [] then 0 else (if Dispatches(es[0]) then 1 else 0) + DispatchCount(es[1..])
  }

  /** A request that has left `requests/` comes back only through recovery. */
  lemma {:induction false} StaysOut(n: nat, s: System, es: seq<Event>, r: nat)
    requires Runs(n, s, es) && r in s.files.submitted && r !in s.files.pending
    requires forall e :: e in es ==> !MovesBack(e)
    ensures r !in After(n, s, es).files.pending
    decreases |es|
  {
    if es != [] {
      assert es[0] in es;
      var t := Apply(n, s, es[0]);
      assert r in t.files.submitted && r !in t.files.pending;
      StaysOut(n, t, es[1..], r);
    }
  }

  lemma {:induction false} DispatchAhead(n: nat, p: PathTracer, fs: Files, r: nat)
    requires TracerInv(n, p, fs) && TracerOrder(p, fs) && p.pc.Moving?
    requires forall m :: m in p.pc.missed ==> p.pc.id <= m
    requires r in fs.pending && r != p.pc.id
    ensures (set q | q in fs.pending && q < r) == (set q | q in fs.pending - {p.pc.id} && q < r) + {p.pc.id}
  {
    assert p.pc.id < r by {
      assert r in p.pc.missed || r in fs.pending - p.pc.missed;
    }
  }

  lemma {:induction false} PendingKept(n: nat, s: System, e: Event)
    requires Enabled(s, e) && !MovesBack(e) && !Dispatches(e)
    ensures Apply(n, s, e).files.pending == s.files.pending + (if e.Submit? then {e.id} else {})
  {
  }

  lemma {:induction false} DispatchKept(n: nat, s: System, e: Event)
    requires Inv(n, s) && Enabled(s, e) && Dispatches(e)
    ensures s.procs[e.pid].tracer.pc.id in s.files.pending
    ensures Apply(n, s, e).files.pending == s.files.pending - {s.procs[e.pid].tracer.pc.id}
  {
  }

  lemma {:induction false} DispatchStepAhead(n: nat, s: System, e: Event, r: nat)
    requires Inv(n, s) && OrderInv(s) && Enabled(s, e) && Dispatches(e) && !Overtakes(s, e)
    requires r in s.files.pending && r in Apply(n, s, e).files.pending
    ensures Ahead(s, r) == Ahead(Apply(n, s, e), r) + 1
  {
    DispatchKept(n, s, e);
    var p := s.procs[e.pid].tracer;
    DispatchAhead(n, p, s.files, r);
    var after := set q | q in Apply(n, s, e).files.pending && q < r;
    assert p.pc.id !in after;
  }

  lemma {:induction false} OtherStepAhead(n: nat, s: System, e: Event, r: nat)
    requires Enabled(s, e) && Growing(s, e) && !MovesBack(e) && !Dispatches(e)
    requires r in s.files.submitted
    ensures Ahead(s, r) == Ahead(Apply(n, s, e), r)
  {
    PendingKept(n, s, e);
    var after := set q | q in Apply(n, s, e).files.pending && q < r;
    assert after == set q | q in s.files.pending && q < r;
  }

  lemma {:induction false} StepAhead(n: nat, s: System, e: Event, r: nat)
    requires Inv(n, s) && OrderInv(s) && Enabled(s, e) && Growing(s, e) && !Overtakes(s, e) && !MovesBack(e)
    requires r in s.files.pending && r in Apply(n, s, e).files.pending
    ensures Ahead(s, r) == Ahead(Apply(n, s, e), r) + (if Dispatches(e) then 1 else 0)
  {
    if Dispatches(e) {
      DispatchStepAhead(n, s, e, r);
    } else {
      OtherStepAhead(n, s, e, r);
    }
  }

  lemma {:induction false} WaitFrom(n: nat, s: System, es: seq<Event>, r: nat)
    requires Inv(n, s) && OrderInv(s) && Runs(n, s, es) && GrowingRun(n, s, es) && NothingOvertaken(n, s, es)
    requires forall e :: e in es ==> !MovesBack(e)
    requires r in s.files.pending && r in After(n, s, es).files.pending
    ensures Ahead(s, r) == Ahead(After(n, s, es), r) + DispatchCount(es)
    decreases |es|
  {
    if es != [] {
      assert es[0] in es;
      var t := Apply(n, s, es[0]);
      if r !in t.files.pending {
        assert r in t.files.submitted;
        StaysOut(n, t, es[1..], r);
        assert false;
      } else {
        StepKeepsInv(n, s, es[0]);
        StepKeepsOrder(n, s, es[0]);
        StepAhead(n, s, es[0], r);
        WaitFrom(n, t, es[1..], r);
      }
    }
  }

  lemma {:induction false} SplitRun(n: nat, s: System, a: seq<Event>, b: seq<Event>)
    requires Runs(n, s, a + b) && GrowingRun(n, s, a + b) && NothingOvertaken(n, s, a + b)
    ensures Runs(n, s, a) && GrowingRun(n, s, a) && NothingOvertaken(n, s, a)
    ensures var t := After(n, s, a);
      Runs(n, t, b) && GrowingRun(n, t, b) && NothingOvertaken(n, t, b) && After(n, s, a + b) == After(n, t, b)
    decreases |a|
  {
    if a == [] {
      assert a + b == b;
    } else {
      assert (a + b)[1..] == a[1..] + b;
      SplitRun(n, Apply(n, s, a[0]), a[1..], b);
    }
  }

  /** Without a crash, `r` waits for exactly the requests that were pending before it
      with smaller ids: each dispatch while `r` is still pending uses up one of them. */
  lemma {:induction false} WaitIsExact(n: nat, run: seq<Event>, es: seq<Event>, r: nat)
    requires Runs(n, Init(), run + es) && GrowingRun(n, Init(), run + es) && NothingOvertaken(n, Init(), run + es)
    requires forall e :: e in es ==> !MovesBack(e)
    requires Runs(n, Init(), run) && r in After(n, Init(), run).files.pending && r in After(n, Init(), run + es).files.pending
    ensures Ahead(After(n, Init(), run), r) == Ahead(After(n, Init(), run + es), r) + DispatchCount(es)
  {
    SplitRun(n, Init(), run, es);
    Reachable(n, run);
    RunKeepsOrder(n, Init(), run);
    WaitFrom(n, After(n, Init(), run), es, r);
  }

  // ---------------------------------------------------------------- the order can be lost

  /** Reading a directory that held nothing when it was opened, and found nothing since. */
  predicate BlindScan(pc: DispatcherPc) {
    pc.Scanning? && pc.todo == {} && pc.best.None?
  }

  lemma {:induction false} GrowingConcat(n: nat, s: System, a: seq<Event>, b: seq<Event>)
    requires Runs(n, s, a) && GrowingRun(n, s, a)
    requires Runs(n, After(n, s, a), b) && GrowingRun(n, After(n, s, a), b)
    ensures Runs(n, s, a + b) && GrowingRun(n, s, a + b) && After(n, s, a + b) == After(n, After(n, s, a), b)
    decreases |a|
  {
    if a == [] {
      assert a + b == b;
    } else {
      GrowingConcat(n, Apply(n, s, a[0]), a[1..], b);
      assert (a + b)[1..] == a[1..] + b;
    }
  }

  lemma {:induction false} GrowingCons(n: nat, s: System, e: Event, es: seq<Event>)
    requires Enabled(s, e) && Growing(s, e) && Runs(n, Apply(n, s, e), es) && GrowingRun(n, Apply(n, s, e), es)
    ensures Runs(n, s, [e] + es) && GrowingRun(n, s, [e] + es)
    ensures After(n, s, [e] + es) == After(n, Apply(n, s, e), es)
  {
    assert ([e] + es)[1..] == es;
  }

  /** The slot loop reaches the first free slot from any slot before it. */
  lemma {:induction false} ClaimRun(n: nat, s: System, pid: int, k: nat) returns (es: seq<Event>)
    requires pid in s.procs && s.procs[pid].Tracer? && s.procs[pid].tracer.pc.Claiming?
    requires var p := s.procs[pid].tracer;
      p.pc.next <= k < |p.locks| && !p.locks[k] && forall i :: p.pc.next <= i < k ==> p.locks[i]
    ensures Runs(n, s, es) && GrowingRun(n, s, es)
    ensures var t := After(n, s, es);
      && t.files == s.files && pid in t.procs && t.procs[pid].Tracer?
      && t.procs[pid].tracer.pc == Moving(s.procs[pid].tracer.pc.id, k, s.procs[pid].tracer.pc.missed)
    decreases k - s.procs[pid].tracer.pc.next
  {
    var e := InTracer(pid, TestSlot);
    var t := Apply(n, s, e);
    if s.procs[pid].tracer.pc.next == k {
      GrowingCons(n, s, e, []);
      es := [e] + [];
    } else {
      var rest := ClaimRun(n, t, pid, k);
      GrowingCons(n, s, e, rest);
      es := [e] + rest;
    }
  }

  /** Two submissions during a blind scan, the first unreported: the second is claimed. */
  lemma {:induction false} BlindPick(n: nat, s: System, pid: int, a: nat) returns (es: seq<Event>)
    requires pid in s.procs && s.procs[pid].Tracer? && BlindScan(s.procs[pid].tracer.pc)
    requires forall y :: y in s.files.submitted ==> y < a
    ensures Runs(n, s, es) && GrowingRun(n, s, es)
    ensures var t := After(n, s, es);
      && a in t.files.pending && a + 1 in t.files.pending
      && pid in t.procs && t.procs[pid].Tracer?
      && t.procs[pid].tracer.pc.Claiming? && t.procs[pid].tracer.pc.id == a + 1 && t.procs[pid].tracer.pc.next == 0
      && t.procs[pid].tracer.locks == s.procs[pid].tracer.locks
  {
    var e0, e1 := Submit(a, false), Submit(a + 1, true);
    var e2, e3 := InTracer(pid, Visit(a + 1)), InTracer(pid, CloseListing);
    var s1 := Apply(n, s, e0);
    var s2 := Apply(n, s1, e1);
    assert s2.procs[pid].tracer.pc == Scanning({a + 1}, None, s1.procs[pid].tracer.pc.missed);
    var s3 := Apply(n, s2, e2);
    assert s3.procs[pid].tracer.pc.todo == {};
    var r3 := [e3] + [];
    var r2 := [e2] + r3;
    var r1 := [e1] + r2;
    GrowingCons(n, s3, e3, []);
    GrowingCons(n, s2, e2, r3);
    GrowingCons(n, s1, e1, r2);
    GrowingCons(n, s, e0, r1);
    es := [e0] + r1;
    assert After(n, s, es) == Apply(n, s3, e3);
  }

  /** From every state whose scan is blind, with a slot free, an unreported submission
      can be overtaken by the next one: `a + 1` in progress while `a` is pending. */
  lemma {:induction false} BlindScanLosesOrder(n: nat, s: System, pid: int, a: nat, k: nat) returns (es: seq<Event>)
    requires pid in s.procs && s.procs[pid].Tracer? && BlindScan(s.procs[pid].tracer.pc)
    requires forall y :: y in s.files.submitted ==> y < a
    requires var locks := s.procs[pid].tracer.locks;
      k < |locks| && !locks[k] && forall i :: 0 <= i < k ==> locks[i]
    ensures Runs(n, s, es) && GrowingRun(n, s, es)
    ensures a in After(n, s, es).files.pending && a + 1 in After(n, s, es).files.inProgress
    ensures !InOrder(After(n, s, es))
  {
    var es0 := BlindPick(n, s, pid, a);
    var t := After(n, s, es0);
    var es1 := ClaimRun(n, t, pid, k);
    var u := After(n, t, es1);
    var move := [InTracer(pid, MoveFile)] + [];
    GrowingCons(n, u, InTracer(pid, MoveFile), []);
    GrowingConcat(n, t, es1, move);
    GrowingConcat(n, s, es0, es1 + move);
    es := es0 + (es1 + move);
    assert Recovered(After(n, s, es).procs[pid].tracer);
  }

  /** Start-up, and the dispatcher opening an empty directory. */
  lemma {:induction false} ReachBlindScan(n: nat) returns (es: seq<Event>)
    ensures Runs(n, Init(), es) && GrowingRun(n, Init(), es)
    ensures var t := After(n, Init(), es);
      && t.files == Init().files && 1 in t.procs && t.procs[1].Tracer?
      && t.procs[1].tracer == FreshTracer(n).(pc := Scanning({}, None, {}))
  {
    var e0, e1, e2 := Supervise(-1), Supervise(1), InTracer(1, ListInProgress);
    var e3, e4 := InTracer(1, RecoveryDone), InTracer(1, OpenListing);
    var s1 := Apply(n, Init(), e0);
    var s2 := Apply(n, s1, e1);
    var s3 := Apply(n, s2, e2);
    var s4 := Apply(n, s3, e3);
    var r4 := [e4] + [];
    var r3 := [e3] + r4;
    var r2 := [e2] + r3;
    var r1 := [e1] + r2;
    GrowingCons(n, s4, e4, []);
    GrowingCons(n, s3, e3, r4);
    GrowingCons(n, s2, e2, r3);
    GrowingCons(n, s1, e1, r2);
    GrowingCons(n, Init(), e0, r1);
    es := [e0] + r1;
    assert After(n, Init(), es) == Apply(n, s4, e4);
  }

  /** With growing ids and any number of slots the order can be lost. */
  lemma {:induction false} OrderCanBeLost(n: nat) returns (es: seq<Event>)
    requires n > 0
    ensures Runs(n, Init(), es) && GrowingRun(n, Init(), es)
    ensures !AlwaysInOrder(n, Init(), es) && !NothingOvertaken(n, Init(), es)
    ensures 1 in After(n, Init(), es).files.inProgress && 0 in After(n, Init(), es).files.pending
  {
    var start := ReachBlindScan(n);
    var s := After(n, Init(), start);
    var lose := BlindScanLosesOrder(n, s, 1, 0, 0);
    GrowingConcat(n, Init(), start, lose);
    es := start + lose;
    EarliestFirstIff(n, es);
    if AlwaysInOrder(n, Init(), es) {
      LastInOrder(n, Init(), es);
      assert false;
    }
  }

  lemma {:induction false} LastInOrder(n: nat, s: System, es: seq<Event>)
    requires Runs(n, s, es) && AlwaysInOrder(n, s, es)
    ensures InOrder(After(n, s, es))
    decreases |es|
  {
    if es != [] {
      LastInOrder(n, Apply(n, s, es[0]), es[1..]);
    }
  }
}
