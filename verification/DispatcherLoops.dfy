/**
  The dispatcher's two loops as the sequential code they are, and their agreement with
  the scheduler's steps when nothing interferes.
 */
module DispatcherLoops {
  import opened Prelude
  import opened RenderScheduler

  // ------------------------------------------------------------------ directory scan

  datatype DirEntry = DirEntry(regular: bool, json: bool, id: nat)
  {
    predicate IsRequest() { regular && json }
  }

  function RequestIds(entries: seq<DirEntry>): seq<nat> {
    if entries == [] then []
    else
      var last := entries[|entries| - 1];
      RequestIds(entries[..|entries| - 1]) + if last.IsRequest() then [last.id] else []
  }

  function IdSet(ids: seq<nat>): set<nat> { set x | x in ids }

  /** The scheduler's scan, over the entries in the order the listing gives them. */
  function ScanAll(best: Option<nat>, ids: seq<nat>): Option<nat> {
    if ids == [] then best else ScanOne(ScanAll(best, ids[..|ids| - 1]), ids[|ids| - 1])
  }

  ghost predicate Earliest(ids: set<nat>, pick: Option<nat>) {
    match pick
    case None => ids == {}
    case Some(x) => x in ids && forall y :: y in ids ==> x <= y
  }

  /** The scan finds the smallest id, whatever the order of the listing. */
  lemma {:induction false} ScanFindsEarliest(ids: seq<nat>)
    ensures Earliest(IdSet(ids), ScanAll(None, ids))
  {
    if ids != [] {
      var front, last := ids[..|ids| - 1], ids[|ids| - 1];
      ScanFindsEarliest(front);
      assert ids == front + [last];
      assert IdSet(ids) == IdSet(front) + {last};
    } else {
      assert IdSet(ids) == {};
    }
  }

  function Listed(current: int): Option<nat> {
    if current < 0 then None else Some(current)
  }

  /** The ids of the request files listed. */
  function Requests(entries: seq<DirEntry>): set<nat> {
    set e | e in entries && e.regular && e.json :: e.id
  }

  lemma {:induction false} ScanNext(entries: seq<DirEntry>, i: nat)
    requires i < |entries|
    ensures var before := ScanAll(None, RequestIds(entries[..i]));
      ScanAll(None, RequestIds(entries[..i + 1])) == if entries[i].IsRequest() then ScanOne(before, entries[i].id) else before
  {
    assert entries[..i + 1][..i] == entries[..i];
    var ids := RequestIds(entries[..i]);
    if entries[i].IsRequest() {
      assert (ids + [entries[i].id])[..|ids|] == ids;
    } else {
      assert ids + [] == ids;
    }
  }

  method FindEarliestRequest(entries: seq<DirEntry>) returns (current: int)
    ensures current >= -1
    ensures Listed(current) == ScanAll(None, RequestIds(entries))
    ensures Earliest(Requests(entries), Listed(current))
  {
    current := -1;
    for i := 0 to |entries|
      invariant current >= -1 && Listed(current) == ScanAll(None, RequestIds(entries[..i]))
    {
      var entry := entries[i];
      ScanNext(entries, i);
      if entry.IsRequest() {
        if current < 0 || current > entry.id {
          current := entry.id;
        }
      }
    }
    assert entries[..|entries|] == entries;
    ScanFindsEarliest(RequestIds(entries));
    IdsOfEntries(entries);
  }

  lemma {:induction false} IdsOfEntries(entries: seq<DirEntry>)
    ensures IdSet(RequestIds(entries)) == Requests(entries)
  {
    if entries != [] {
      var front, last := entries[..|entries| - 1], entries[|entries| - 1];
      IdsOfEntries(front);
      assert entries == front + [last];
      assert Requests(entries) == Requests(front) + (if last.IsRequest() then {last.id} else {});
      var ids := RequestIds(front) + if last.IsRequest() then [last.id] else [];
      assert IdSet(ids) == IdSet(RequestIds(front)) + (if last.IsRequest() then {last.id} else {});
    } else {
      assert IdSet(RequestIds(entries)) == {} == Requests(entries);
    }
  }

  /** A directory in which nothing changes: visiting what is to be reported, in any
      order, leaves the pick that the loop computes from that order. */
  lemma {:induction false} VisitsComputeScan(n: nat, s: System, pid: int, ids: seq<nat>) returns (es: seq<Event>)
    requires pid in s.procs && s.procs[pid].Tracer? && s.procs[pid].tracer.pc.Scanning?
    requires forall i, j :: 0 <= i < j < |ids| ==> ids[i] != ids[j]
    requires IdSet(ids) <= s.procs[pid].tracer.pc.todo
    ensures Runs(n, s, es)
    ensures var pc, t := s.procs[pid].tracer.pc, After(n, s, es);
      && t.files == s.files && pid in t.procs && t.procs[pid].Tracer?
      && t.procs[pid].tracer.pc == Scanning(pc.todo - IdSet(ids), ScanAll(pc.best, ids), pc.missed)
  {
    if ids == [] {
      es := [];
      assert s.procs[pid].tracer.pc.todo - IdSet(ids) == s.procs[pid].tracer.pc.todo;
    } else {
      var front, last := ids[..|ids| - 1], ids[|ids| - 1];
      assert ids == front + [last];
      var before := VisitsComputeScan(n, s, pid, front);
      var t := After(n, s, before);
      var e := InTracer(pid, Visit(last));
      assert last in t.procs[pid].tracer.pc.todo;
      RunsCons(n, t, e, []);
      RunsConcat(n, s, before, [e] + []);
      es := before + ([e] + []);
      assert s.procs[pid].tracer.pc.todo - IdSet(front) - {last} == s.procs[pid].tracer.pc.todo - IdSet(ids);
    }
  }

  // ------------------------------------------------------------------ slot claim

  function FirstFree(locks: seq<bool>, from: nat): (slot: int)
    requires from <= |locks|
    ensures slot == -1 ==> forall i :: from <= i < |locks| ==> locks[i]
    ensures slot != -1 ==> from <= slot < |locks| && !locks[slot] && forall i :: from <= i < slot ==> locks[i]
    decreases |locks| - from
  {
    if from == |locks| then -1 else if locks[from] then FirstFree(locks, from + 1) else from
  }

  /** Locks the first free slot, or none if all are taken. */
  method ClaimSlot(locks: array<bool>) returns (slot: int)
    modifies locks
    ensures slot == FirstFree(old(locks[..]), 0)
    ensures locks[..] == if slot < 0 then old(locks[..]) else old(locks[..])[slot := true]
  {
    slot := -1;
    var i := 0;
    while i < locks.Length
      invariant i <= locks.Length && slot == -1 && locks[..] == old(locks[..])
      invariant FirstFree(locks[..], 0) == FirstFree(locks[..], i)
    {
      if locks[i] {
        i := i + 1;
        continue;
      }
      slot := i;
      locks[i] := true;
      break;
    }
  }

  /** The scheduler's slot tests, one after another. */
  function ClaimAll(p: PathTracer): PathTracer
    requires p.pc.Claiming? && p.pc.next <= |p.locks|
    decreases |p.locks| - p.pc.next
  {
    var q := TryClaim(p);
    if q.pc.Claiming? then ClaimAll(q) else q
  }

  /** Undisturbed, they claim the slot that the loop claims. */
  lemma {:induction false} TestsClaimFirstFree(p: PathTracer)
    requires p.pc.Claiming? && p.pc.next <= |p.locks|
    ensures var slot := FirstFree(p.locks, p.pc.next);
      ClaimAll(p) == if slot < 0 then p.(pc := LoopTop)
                     else p.(pc := Moving(p.pc.id, slot, p.pc.missed), locks := p.locks[slot := true])
    decreases |p.locks| - p.pc.next
  {
    if TryClaim(p).pc.Claiming? {
      TestsClaimFirstFree(TryClaim(p));
    }
  }
}
