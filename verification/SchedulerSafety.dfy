/**
  The scheduler's safety theorems, each about every run from start-up: any
  interleaving of submissions, dispatcher, handler and renderer steps, with either
  program exiting at any point.
 */
module SchedulerSafety {
  import opened RenderScheduler
  import opened SchedulerInvariant

  // ---------------------------------------------------------------- what a run did

  /** The ids submitted in the run. */
  function Submissions(es: seq<Event>): set<nat> {
    set e | e in es && e.Submit? :: e.id
  }

  predicate Removes(e: Event) { e.InTracer? && e.action.RemoveFile? }

  predicate FinishesRendering(e: Event) { e.InTracer? && e.action.PublishDone? }

  /** The request of the handler that `e` steps. */
  function RequestOf(s: System, e: Event): nat
    requires Enabled(s, e) && (Removes(e) || FinishesRendering(e))
  {
    s.procs[e.pid].tracer.handlers[e.action.thread].id
  }

  /** The requests whose files handlers removed, in order. */
  function Removals(n: nat, s: System, es: seq<Event>): seq<nat>
    requires Runs(n, s, es)
    decreases |es|
  {
    if es == [] then []
    else (if Removes(es[0]) then [RequestOf(s, es[0])] else []) + Removals(n, Apply(n, s, es[0]), es[1..])
  }

  /** The requests whose renderers stored -1. */
  function Rendered(n: nat, s: System, es: seq<Event>): set<nat>
    requires Runs(n, s, es)
    decreases |es|
  {
    if es == [] then {}
    else (if FinishesRendering(es[0]) then {RequestOf(s, es[0])} else {}) + Rendered(n, Apply(n, s, es[0]), es[1..])
  }

  ghost predicate NoDuplicates(xs: seq<nat>) {
    forall i, j :: 0 <= i < j < |xs| ==> xs[i] != xs[j]
  }

  // ---------------------------------------------------------------- how a step changes the history

  /** What one step adds to the three histories. */
  ghost predicate HistoryGrows(s: System, e: Event, gs: Files)
    requires Enabled(s, e)
  {
    && gs.submitted == s.files.submitted + (if e.Submit? then {e.id} else {})
    && gs.finished == s.files.finished + (if Removes(e) then {RequestOf(s, e)} else {})
    && gs.rendered == s.files.rendered + (if FinishesRendering(e) then {RequestOf(s, e)} else {})
  }

  lemma {:induction false} RemovedFileInProgress(n: nat, s: System, e: Event)
    requires Inv(n, s) && Enabled(s, e) && Removes(e)
    ensures RequestOf(s, e) in s.files.inProgress && RequestOf(s, e) !in s.files.finished
  {
  }

  lemma {:induction false} StepHistory(n: nat, s: System, e: Event)
    requires Enabled(s, e)
    requires Removes(e) ==> RequestOf(s, e) in s.files.inProgress
    ensures HistoryGrows(s, e, Apply(n, s, e).files)
  {
  }

  /** What a whole run adds to them. */
  ghost predicate RunHistoryGrows(n: nat, s: System, es: seq<Event>, gs: Files)
    requires Runs(n, s, es)
  {
    var removed := Removals(n, s, es);
    && gs.submitted == s.files.submitted + Submissions(es)
    && gs.rendered == s.files.rendered + Rendered(n, s, es)
    && gs.finished == s.files.finished + (set x | x in removed)
    && NoDuplicates(removed)
    && forall x :: x in removed ==> x !in s.files.finished
  }

  lemma {:induction false} HistoryCons(n: nat, s: System, es: seq<Event>, gs: Files)
    requires es != [] && Runs(n, s, es)
    requires HistoryGrows(s, es[0], Apply(n, s, es[0]).files)
    requires Removes(es[0]) ==> RequestOf(s, es[0]) !in s.files.finished
    requires RunHistoryGrows(n, Apply(n, s, es[0]), es[1..], gs)
    ensures RunHistoryGrows(n, s, es, gs)
  {
  }

  lemma {:induction false} RunHistory(n: nat, s: System, es: seq<Event>)
    requires Inv(n, s) && Runs(n, s, es)
    ensures RunHistoryGrows(n, s, es, After(n, s, es).files)
    decreases |es|
  {
    if es != [] {
      if Removes(es[0]) {
        RemovedFileInProgress(n, s, es[0]);
      }
      StepHistory(n, s, es[0]);
      StepKeepsInv(n, s, es[0]);
      RunHistory(n, Apply(n, s, es[0]), es[1..]);
      HistoryCons(n, s, es, After(n, s, es).files);
    }
  }

  // ---------------------------------------------------------------- theorems

  lemma {:induction false} Reachable(n: nat, es: seq<Event>)
    requires Runs(n, Init(), es)
    ensures Inv(n, After(n, Init(), es))
  {
    RunKeepsInv(n, Init(), es);
  }

  lemma {:induction false} ReachableFiles(n: nat, es: seq<Event>)
    requires Runs(n, Init(), es)
    ensures Conserved(After(n, Init(), es).files)
    ensures RunHistoryGrows(n, Init(), es, After(n, Init(), es).files)
  {
    Reachable(n, es);
    RunHistory(n, Init(), es);
  }

  lemma {:induction false} ReachableHandler(n: nat, es: seq<Event>, p: int, t: nat)
    requires Runs(n, Init(), es)
    requires var s := After(n, Init(), es); p in s.procs && s.procs[p].Tracer? && t in s.procs[p].tracer.handlers
    ensures HandlerInv(After(n, Init(), es).procs[p].tracer, After(n, Init(), es).files, t)
  {
    Reachable(n, es);
  }

  /** No request is lost or duplicated, whatever crashes: after any run the submitted
      ids are split between pending, in progress and finished; the finished ones are
      exactly those a handler removed, no request is removed twice in the whole run,
      and each had its renderer's -1 published. */
  lemma {:induction false} ConservationThroughCrashes(n: nat, es: seq<Event>)
    requires Runs(n, Init(), es)
    ensures var fs := After(n, Init(), es).files;
      && Submissions(es) == fs.pending + fs.inProgress + fs.finished
      && fs.pending !! fs.inProgress !! fs.finished
      && fs.finished == (set x | x in Removals(n, Init(), es))
      && NoDuplicates(Removals(n, Init(), es))
      && fs.finished <= Rendered(n, Init(), es)
  {
    ReachableFiles(n, es);
  }

  /** At most one path tracer is ever forked and not yet reaped; and while one is
      moving files back, no handler lives anywhere, and once it has moved them all
      `in_progress/` is empty. */
  lemma {:induction false} RecoveryIsSafe(n: nat, es: seq<Event>, p: int, q: int)
    requires Runs(n, Init(), es)
    requires var s := After(n, Init(), es);
      p in s.procs && q in s.procs && !s.procs[p].IsHttp() && !s.procs[q].IsHttp()
    ensures p == q
    ensures var s := After(n, Init(), es);
      s.procs[p].Tracer? && !Recovered(s.procs[p].tracer) ==>
        && (forall r :: r in s.procs && s.procs[r].Tracer? ==> s.procs[r].tracer.handlers == map[])
        && (TracerEnabled(s.procs[p].tracer, RecoveryDone) ==> s.files.inProgress == {})
  {
    Reachable(n, es);
  }

  /** No request has two handlers, in one process or in two; a handler's file is in
      `in_progress/` from its first step (so opening it finds it) until that handler
      removes it, and no handler works on a pending file. */
  lemma {:induction false} HandlersHoldTheirFiles(n: nat, es: seq<Event>, p: int, t: nat)
    requires Runs(n, Init(), es)
    requires var s := After(n, Init(), es); p in s.procs && s.procs[p].Tracer? && t in s.procs[p].tracer.handlers
    ensures var s := After(n, Init(), es);
      var h := s.procs[p].tracer.handlers[t];
      && (h.HoldsFile() ==> h.id in s.files.inProgress)
      && (!h.HoldsFile() ==> h.id in s.files.finished)
      && h.id !in s.files.pending
      && (forall q, u :: (q in s.procs && s.procs[q].Tracer? && u in s.procs[q].tracer.handlers
                          && s.procs[q].tracer.handlers[u].id == h.id) ==> q == p && u == t)
  {
    Reachable(n, es);
    var s := After(n, Init(), es);
    assert HandlerInv(s.procs[p].tracer, s.files, t);
  }

  /** A slot is locked exactly when the dispatcher has claimed it and not yet spawned,
      or a handler owns it - never both, and never two handlers. */
  lemma {:induction false} SlotExclusion(n: nat, es: seq<Event>, p: int, i: nat)
    requires Runs(n, Init(), es) && i < n
    requires var s := After(n, Init(), es); p in s.procs && s.procs[p].Tracer?
    ensures var tr := After(n, Init(), es).procs[p].tracer;
      && |tr.locks| == n
      && (tr.locks[i] <==> DispatcherOwns(tr, i) || exists t :: Owns(tr, t, i))
      && !(DispatcherOwns(tr, i) && exists t :: Owns(tr, t, i))
      && (forall t, u :: Owns(tr, t, i) && Owns(tr, u, i) ==> t == u)
  {
    Reachable(n, es);
    var s := After(n, Init(), es);
    var tr := s.procs[p].tracer;
    assert forall t :: t in tr.handlers ==> HandlerInv(tr, s.files, t);
  }

  /** `in_progress/` never holds more files than there are slots, not even between a
      crash and the recovery from it. */
  lemma {:induction false} CapacityBound(n: nat, es: seq<Event>)
    requires Runs(n, Init(), es)
    ensures |After(n, Init(), es).files.inProgress| <= n
  {
    Reachable(n, es);
  }

  /** Nothing is published before the handler has read its file. The two loads per round
      race with the renderer, yet a handler never takes more buffers than were published,
      and neither removes its file nor frees the scene before its renderer has stored -1,
      after which no count is published again. */
  lemma {:induction false} SceneOutlivesRenderer(n: nat, es: seq<Event>, p: int, t: nat)
    requires Runs(n, Init(), es)
    requires var s := After(n, Init(), es); p in s.procs && s.procs[p].Tracer? && t in s.procs[p].tracer.handlers
    ensures var tr := After(n, Init(), es).procs[p].tracer;
      var h := tr.handlers[t];
      && (h.pc == Opening ==> h.written == h.peak == 0)
      && h.taken <= h.peak
      && (TracerEnabled(tr, Consume(t)) ==> h.taken + 1 <= h.peak)
      && (h.freed || TracerEnabled(tr, FreeScene(t)) || TracerEnabled(tr, RemoveFile(t)) ==>
            h.written == -1 && forall c :: !TracerEnabled(tr, Publish(t, c)))
  {
    ReachableHandler(n, es, p, t);
  }
}
