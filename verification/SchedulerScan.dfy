/**
  What a directory scan sees. The dispatcher misses an entry only if it was created while
  it was reading; so a scan during which nothing goes unreported picks the smallest pending
  request, and a run in which nothing goes unreported is in order.
 */
module SchedulerScan {
  import opened Prelude
  import opened RenderScheduler
  import opened SchedulerInvariant
  import opened SchedulerSafety
  import opened SchedulerOrder

  /** What the last scan of a process has missed, until its pick is moved. */
  function Missed(s: System, pid: int): set<nat> {
    if pid in s.procs && s.procs[pid].Tracer? then
      match s.procs[pid].tracer.pc
      case Scanning(_, _, missed) => missed
      case Claiming(_, _, missed) => missed
      case Moving(_, _, missed) => missed
      case _ => {}
    else {}
  }

  function Unreported(e: Event): set<nat> { if e.Submit? && !e.listed then {e.id} else {} }

  /** Event `k` submits `id` unreported, and the process has not opened the directory since. */
  ghost predicate UnreportedAt(es: seq<Event>, pid: int, id: nat, k: nat) {
    k < |es| && es[k] == Submit(id, false) && forall j :: k < j < |es| ==> es[j] != InTracer(pid, OpenListing)
  }

  lemma {:induction false} MissedStep(n: nat, s: System, e: Event, pid: int)
    requires Enabled(s, e)
    ensures Missed(Apply(n, s, e), pid)
         <= (if e == InTracer(pid, OpenListing) then {} else Missed(s, pid)) + Unreported(e)
  {
  }

  lemma {:induction false} MissedFrom(n: nat, s: System, es: seq<Event>, pid: int, id: nat)
    requires Runs(n, s, es) && id in Missed(After(n, s, es), pid)
    ensures || (id in Missed(s, pid) && InTracer(pid, OpenListing) !in es)
            || exists k: nat :: UnreportedAt(es, pid, id, k)
    decreases |es|
  {
    if es != [] {
      var t, rest := Apply(n, s, es[0]), es[1..];
      MissedFrom(n, t, rest, pid, id);
      if k: nat :| UnreportedAt(rest, pid, id, k) {
        assert forall j :: k + 1 < j < |es| ==> es[j] == rest[j - 1];
        assert UnreportedAt(es, pid, id, k + 1);
      } else {
        MissedStep(n, s, es[0], pid);
        assert forall j :: 0 < j < |es| ==> es[j] == rest[j - 1] && es[j] in rest;
        assert id in Unreported(es[0]) ==> UnreportedAt(es, pid, id, 0);
      }
    }
  }

  /** In every run, whatever a scan has missed was submitted, unreported, after that scan
      was begun. */
  lemma {:induction false} MissedWasUnreported(n: nat, es: seq<Event>, pid: int, id: nat)
    requires Runs(n, Init(), es) && id in Missed(After(n, Init(), es), pid)
    ensures exists k: nat :: UnreportedAt(es, pid, id, k)
  {
    MissedFrom(n, Init(), es, pid, id);
  }

  // ---------------------------------------------------------------- one scan

  /** Nothing has gone unreported since the process last opened the directory. */
  ghost predicate AllReportedSince(es: seq<Event>, pid: int) {
    forall id: nat, k: nat :: !UnreportedAt(es, pid, id, k)
  }

  ghost predicate PicksEarliest(pc: DispatcherPc, pending: set<nat>) {
    if pending == {} then pc == LoopTop
    else pc.Claiming? && pc.next == 0 && pc.missed == {} && pc.id in pending && NoLaterThan(pc.id, pending)
  }

  /** A scan from which nothing was kept ends with the smallest pending request, or with
      none exactly when there is none - whatever else has happened in between. */
  lemma {:induction false} UndisturbedScan(n: nat, es: seq<Event>, pid: int)
    requires Runs(n, Init(), es) && AllReportedSince(es, pid)
    requires Enabled(After(n, Init(), es), InTracer(pid, CloseListing))
    ensures var s := After(n, Init(), es);
      var t := Apply(n, s, InTracer(pid, CloseListing));
      && t.files == s.files && pid in t.procs && t.procs[pid].Tracer?
      && PicksEarliest(t.procs[pid].tracer.pc, s.files.pending)
  {
    Reachable(n, es);
    var s := After(n, Init(), es);
    var pc := s.procs[pid].tracer.pc;
    assert PcInv(s.procs[pid].tracer, s.files);
    forall id | id in pc.missed ensures false {
      MissedWasUnreported(n, es, pid, id);
    }
    assert pc.missed == {};
  }

  ghost predicate OnlyVisits(pid: int, es: seq<Event>) {
    forall e :: e in es ==> e.InTracer? && e.pid == pid && e.action.Visit?
  }

  lemma {:induction false} VisitsKeepFiles(n: nat, s: System, es: seq<Event>, pid: int)
    requires Runs(n, s, es) && OnlyVisits(pid, es)
    ensures After(n, s, es).files == s.files
    decreases |es|
  {
    if es != [] {
      assert es[0] in es;
      VisitsKeepFiles(n, Apply(n, s, es[0]), es[1..], pid);
    }
  }

  /** In particular: open the directory, visit what it shows, close it. */
  lemma {:induction false} QuietScan(n: nat, run: seq<Event>, visits: seq<Event>, pid: int)
    requires Runs(n, Init(), run) && OnlyVisits(pid, visits)
    requires Runs(n, Init(), run + ([InTracer(pid, OpenListing)] + visits + [InTracer(pid, CloseListing)]))
    ensures var s := After(n, Init(), run);
      var t := After(n, Init(), run + ([InTracer(pid, OpenListing)] + visits + [InTracer(pid, CloseListing)]));
      && t.files == s.files && pid in t.procs && t.procs[pid].Tracer?
      && PicksEarliest(t.procs[pid].tracer.pc, s.files.pending)
  {
    var s, open, close := After(n, Init(), run), InTracer(pid, OpenListing), InTracer(pid, CloseListing);
    var es := run + ([open] + visits);
    assert run + ([open] + visits + [close]) == es + [close];
    RunsSplit(n, Init(), es, [close]);
    RunsSplit(n, Init(), run, [open] + visits);
    RunsSplit(n, s, [open], visits);
    VisitsKeepFiles(n, After(n, s, [open]), visits, pid);
    forall id: nat, k: nat ensures !UnreportedAt(es, pid, id, k) {
      if k < |run| {
        assert es[|run|] == open;
      } else if |run| < k < |es| {
        assert es[k] == visits[k - |run| - 1] && es[k] in visits;
      }
    }
    UndisturbedScan(n, es, pid);
  }

  // ---------------------------------------------------------------- whole runs

  lemma {:induction false} NothingMissed(n: nat, s: System, es: seq<Event>)
    requires Runs(n, s, es) && forall pid :: Missed(s, pid) == {}
    requires forall e :: e in es ==> Unreported(e) == {}
    ensures NothingOvertaken(n, s, es)
    decreases |es|
  {
    if es != [] {
      var t := Apply(n, s, es[0]);
      assert es[0] in es;
      forall pid ensures Missed(t, pid) == {} {
        MissedStep(n, s, es[0], pid);
      }
      NothingMissed(n, t, es[1..]);
      assert Missed(s, if es[0].InTracer? then es[0].pid else 0) == {};
    }
  }

  /** If the listings report every new entry and ids grow, everything in progress is below
      everything pending at every moment after recovery. */
  lemma {:induction false} ReportedRunInOrder(n: nat, es: seq<Event>)
    requires Runs(n, Init(), es) && GrowingRun(n, Init(), es)
    requires forall e :: e in es && e.Submit? ==> e.listed
    ensures AlwaysInOrder(n, Init(), es)
  {
    NothingMissed(n, Init(), es);
    EarliestFirstIff(n, es);
  }
}
