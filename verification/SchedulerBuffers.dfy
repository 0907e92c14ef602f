/**
  What a handler does with the buffers its renderer publishes. It counts every buffer it
  takes, it takes the next one whenever the counter is ahead of it, and by itself it
  catches up with the counter.
 */
module SchedulerBuffers {
  import opened Prelude
  import opened RenderScheduler
  import opened SchedulerInvariant
  import opened SchedulerSafety
  import opened SchedulerProgress

  predicate HandlerAt(s: System, pid: int, t: nat) {
    pid in s.procs && s.procs[pid].Tracer? && t in s.procs[pid].tracer.handlers
  }

  function TheHandler(s: System, pid: int, t: nat): Handler
    requires HandlerAt(s, pid, t)
  {
    s.procs[pid].tracer.handlers[t]
  }

  // ---------------------------------------------------------------- every buffer taken is counted

  function Occurrences(es: seq<Event>, e: Event): nat { multiset(es)[e] }

  lemma {:induction false} TakenInside(p: PathTracer, fs: Files, a: TracerEvent, t: nat)
    requires TracerEnabled(p, a) && t in TracerApply(p, fs, a).handlers
    requires t in p.handlers ==> t < p.nextThread
    ensures t in p.handlers ==>
      && a != Release(t)
      && TracerApply(p, fs, a).handlers[t].taken == p.handlers[t].taken + (if a == Consume(t) then 1 else 0)
    ensures t !in p.handlers ==> a == SpawnHandler && TracerApply(p, fs, a).handlers[t].taken == 0
  {
  }

  /** A step that is not the process's own leaves its handlers as they are, or ends it. */
  lemma {:induction false} TakenOutside(n: nat, s: System, e: Event, pid: int, t: nat)
    requires Enabled(s, e) && HandlerAt(Apply(n, s, e), pid, t) && !(e.InTracer? && e.pid == pid)
    ensures HandlerAt(s, pid, t) && e != Exit(pid) && TheHandler(Apply(n, s, e), pid, t) == TheHandler(s, pid, t)
  {
  }

  lemma {:induction false} TakenStep(n: nat, s: System, e: Event, pid: int, t: nat)
    requires Enabled(s, e) && HandlerAt(Apply(n, s, e), pid, t)
    requires HandlerAt(s, pid, t) ==> t < s.procs[pid].tracer.nextThread
    ensures HandlerAt(s, pid, t) ==>
      && e != Exit(pid) && e != InTracer(pid, Release(t))
      && TheHandler(Apply(n, s, e), pid, t).taken
         == TheHandler(s, pid, t).taken + (if e == InTracer(pid, Consume(t)) then 1 else 0)
    ensures !HandlerAt(s, pid, t) ==>
      e == InTracer(pid, SpawnHandler) && TheHandler(Apply(n, s, e), pid, t).taken == 0
  {
    if e.InTracer? && e.pid == pid {
      TakenInside(s.procs[pid].tracer, s.files, e.action, t);
    } else {
      TakenOutside(n, s, e, pid, t);
    }
  }

  /** Event `k` of the run spawned this handler, which has lived since. */
  ghost predicate SpawnedAt(n: nat, es: seq<Event>, pid: int, t: nat, k: nat) {
    && k < |es| && es[k] == InTracer(pid, SpawnHandler)
    && Runs(n, Init(), es[..k]) && !HandlerAt(After(n, Init(), es[..k]), pid, t)
    && forall j :: k < j < |es| ==> es[j] != Exit(pid) && es[j] != InTracer(pid, Release(t))
  }

  lemma {:induction false} SpawnedStill(n: nat, front: seq<Event>, e: Event, pid: int, t: nat, k: nat)
    requires SpawnedAt(n, front, pid, t, k) && e != Exit(pid) && e != InTracer(pid, Release(t))
    ensures SpawnedAt(n, front + [e], pid, t, k)
  {
    assert (front + [e])[..k] == front[..k];
  }

  lemma OccurrencesNext(front: seq<Event>, e: Event, k: nat, x: Event)
    requires k < |front|
    ensures Occurrences((front + [e])[k + 1..], x) == Occurrences(front[k + 1..], x) + (if e == x then 1 else 0)
  {
    assert (front + [e])[k + 1..] == front[k + 1..] + [e];
  }

  lemma {:induction false} ThreadBelowNext(n: nat, es: seq<Event>, pid: int, t: nat)
    requires Runs(n, Init(), es)
    ensures var s := After(n, Init(), es); HandlerAt(s, pid, t) ==> t < s.procs[pid].tracer.nextThread
  {
    if HandlerAt(After(n, Init(), es), pid, t) {
      ReachableHandler(n, es, pid, t);
    }
  }

  /** In every run a handler's count is the number of buffers it has taken. */
  lemma {:induction false} TakenIsConsumed(n: nat, es: seq<Event>, pid: int, t: nat) returns (k: nat)
    requires Runs(n, Init(), es) && HandlerAt(After(n, Init(), es), pid, t)
    ensures SpawnedAt(n, es, pid, t, k)
    ensures TheHandler(After(n, Init(), es), pid, t).taken == Occurrences(es[k + 1..], InTracer(pid, Consume(t)))
    decreases |es|
  {
    RunsLast(n, Init(), es);
    var front, e := es[..|es| - 1], es[|es| - 1];
    assert es == front + [e];
    var s := After(n, Init(), front);
    ThreadBelowNext(n, front, pid, t);
    TakenStep(n, s, e, pid, t);
    if HandlerAt(s, pid, t) {
      k := TakenIsConsumed(n, front, pid, t);
      SpawnedStill(n, front, e, pid, t, k);
      OccurrencesNext(front, e, k, InTracer(pid, Consume(t)));
    } else {
      k := |es| - 1;
      assert es[k + 1..] == [];
    }
  }

  // ---------------------------------------------------------------- the next buffer

  /** From its second load a handler goes on to take a buffer exactly when the counter is
      ahead of what it has taken; otherwise it goes back to sleep. */
  lemma {:induction false} TakesNextIff(n: nat, run: seq<Event>, pid: int, t: nat)
    requires Runs(n, Init(), run) && Enabled(After(n, Init(), run), InTracer(pid, LoadCount(t)))
    ensures var s, load, take := After(n, Init(), run), InTracer(pid, LoadCount(t)), InTracer(pid, Consume(t));
      var s1, h := Apply(n, s, load), TheHandler(s, pid, t);
      && (h.taken < h.written <==> Enabled(s1, take))
      && (h.taken < h.written ==> TheHandler(Apply(n, s1, take), pid, t) == h.(pc := TestingDone, taken := h.taken + 1))
      && (h.taken >= h.written ==> TheHandler(s1, pid, t) == h.(pc := TestingDone))
  {
  }

  // ---------------------------------------------------------------- catching up

  predicate OwnStep(t: nat, a: TracerEvent) { a in {LoadDone(t), LoadCount(t), Consume(t)} }

  /** The handler is in its loop, with a renderer that has not stored -1. */
  predicate Reading(h: Handler) {
    h.written >= 0 && h.pc in {TestingDone, TestingCount, Consuming}
  }

  function StepsToTake(pc: HandlerPc): nat {
    match pc
    case TestingDone => 2
    case TestingCount => 1
    case _ => 0
  }

  lemma {:induction false} CatchUp(p: PathTracer, fs: Files, t: nat) returns (steps: seq<TracerEvent>)
    requires t in p.handlers && Reading(p.handlers[t])
    requires p.handlers[t].taken <= p.handlers[t].written
    requires p.handlers[t].pc == Consuming ==> p.handlers[t].taken < p.handlers[t].written
    ensures TracerRuns(p, fs, steps) && forall a :: a in steps ==> OwnStep(t, a)
    ensures var (q, gs) := TracerAfter(p, fs, steps);
      && t in q.handlers && q.handlers[t].taken == q.handlers[t].written == p.handlers[t].written
      && gs == fs && q == p.(handlers := p.handlers[t := q.handlers[t]])
    decreases p.handlers[t].written - p.handlers[t].taken, StepsToTake(p.handlers[t].pc)
  {
    var h := p.handlers[t];
    if h.taken == h.written {
      steps := [];
      assert p.handlers[t := h] == p.handlers;
    } else {
      var a := if h.pc == TestingDone then LoadDone(t) else if h.pc == TestingCount then LoadCount(t) else Consume(t);
      var q := TracerApply(p, fs, a);
      var rest := CatchUp(q, fs, t);
      StepsCons(p, fs, a, rest);
      steps := [a] + rest;
      var r := TracerAfter(p, fs, steps).0;
      assert q.handlers[t := r.handlers[t]] == p.handlers[t := r.handlers[t]];
    }
  }

  lemma {:induction false} InsideOwn(pid: int, t: nat, steps: seq<TracerEvent>)
    requires forall a :: a in steps ==> OwnStep(t, a)
    ensures forall e :: e in Inside(pid, steps) ==> e.InTracer? && e.pid == pid && OwnStep(t, e.action)
    decreases |steps|
  {
    if steps != [] {
      assert steps[0] in steps;
      InsideOwn(pid, t, steps[1..]);
    }
  }

  /** From every reachable state, a handler in its loop takes every buffer published so far
      by its own steps alone. */
  lemma {:induction false} HandlerCatchesUp(n: nat, run: seq<Event>, pid: int, t: nat) returns (es: seq<Event>)
    requires Runs(n, Init(), run) && HandlerAt(After(n, Init(), run), pid, t)
    requires Reading(TheHandler(After(n, Init(), run), pid, t))
    ensures Runs(n, Init(), run + es)
    ensures forall e :: e in es ==> e.InTracer? && e.pid == pid && OwnStep(t, e.action)
    ensures HandlerAt(After(n, Init(), run + es), pid, t)
    ensures var h, g := TheHandler(After(n, Init(), run), pid, t), TheHandler(After(n, Init(), run + es), pid, t);
      g.taken == g.written == h.written == h.peak
  {
    ReachableHandler(n, run, pid, t);
    var s := After(n, Init(), run);
    var p := s.procs[pid].tracer;
    var steps := CatchUp(p, s.files, t);
    InsideRuns(n, s, pid, steps);
    InsideOwn(pid, t, steps);
    es := Inside(pid, steps);
    RunsConcat(n, Init(), run, es);
  }
  /** Whatever the renderer publishes next, from a state in which its handler is in its
      loop, the handler can take all of it before anything else happens. */
  lemma {:induction false} EveryBufferCanBeTaken(n: nat, run: seq<Event>, pid: int, t: nat, count: nat)
    returns (es: seq<Event>)
    requires Runs(n, Init(), run) && HandlerAt(After(n, Init(), run), pid, t)
    requires Reading(TheHandler(After(n, Init(), run), pid, t))
    requires TheHandler(After(n, Init(), run), pid, t).written <= count
    ensures Runs(n, Init(), run + [InTracer(pid, Publish(t, count))] + es)
    ensures forall e :: e in es ==> e.InTracer? && e.pid == pid && OwnStep(t, e.action)
    ensures var s := After(n, Init(), run + [InTracer(pid, Publish(t, count))] + es);
      HandlerAt(s, pid, t) && TheHandler(s, pid, t).taken == count
  {
    var publish := InTracer(pid, Publish(t, count));
    var s := After(n, Init(), run);
    RunsCons(n, s, publish, []);
    assert [publish] + [] == [publish];
    RunsConcat(n, Init(), run, [publish]);
    var s1 := After(n, Init(), run + [publish]);
    assert s1 == Apply(n, s, publish);
    es := HandlerCatchesUp(n, run + [publish], pid, t);
  }
}
