/**
  `asio::any_completion_handler` as a move-only, one-shot owner of a type-erased
  target. Wrappers are objects that may alias (self-move, self-swap); every
  allocation, construction, destruction, deallocation and invocation of a target is
  recorded in a trace, and the theorem is about that trace for any program.
 */
module HandlerOwnership {
  import opened Prelude

  /** `any_completion_handler_impl` objects are numbered in the order of their creation. */
  datatype Event =
    | Allocated(impl: nat)
    | Constructed(impl: nat)
    | Destroyed(impl: nat)
    | Deallocated(impl: nat)
    | Invoked(impl: nat)

  // ------------------------------------------------------------------ life cycles

  /** The life of one impl. `Aborted`: its constructor threw. `Ran`: its memory was
      freed and then its target was invoked. */
  datatype Stage = Unborn | Raw | Alive | Destructed | Aborted | Released | Ran | Broken

  function Advance(stage: Stage, e: Event): Stage {
    match (stage, e)
    case (Unborn, Allocated(_)) => Raw
    case (Raw, Constructed(_)) => Alive
    case (Raw, Deallocated(_)) => Aborted
    case (Alive, Destroyed(_)) => Destructed
    case (Destructed, Deallocated(_)) => Released
    case (Released, Invoked(_)) => Ran
    case _ => Broken
  }

  function StageOf(trace: seq<Event>, impl: nat): Stage {
    if trace == [] then Unborn
    else
      var last := trace[|trace| - 1];
      var before := StageOf(trace[..|trace| - 1], impl);
      if last.impl == impl then Advance(before, last) else before
  }

  lemma StageOfSnoc(trace: seq<Event>, e: Event, impl: nat)
    ensures StageOf(trace + [e], impl)
         == if e.impl == impl then Advance(StageOf(trace, impl), e) else StageOf(trace, impl)
  {
  }

  function Count(trace: seq<Event>, e: Event): nat {
    if trace == [] then 0
    else Count(trace[..|trace| - 1], e) + (if trace[|trace| - 1] == e then 1 else 0)
  }

  /** What a stage says about the past: how often each event has happened. */
  lemma {:induction false} StageCounts(trace: seq<Event>, i: nat)
    ensures var s := StageOf(trace, i);
      s != Broken ==>
        && Count(trace, Allocated(i)) == (if s.Unborn? then 0 else 1)
        && Count(trace, Constructed(i)) == (if s in {Alive, Destructed, Released, Ran} then 1 else 0)
        && Count(trace, Destroyed(i)) == (if s in {Destructed, Released, Ran} then 1 else 0)
        && Count(trace, Deallocated(i)) == (if s in {Aborted, Released, Ran} then 1 else 0)
        && Count(trace, Invoked(i)) == (if s.Ran? then 1 else 0)
  {
    if trace != [] {
      StageCounts(trace[..|trace| - 1], i);
    }
  }

  /** A prefix of an unbroken trace is unbroken, so the counts hold of every moment of
      a run and not only of its end. */
  lemma {:induction false} BrokenStays(trace: seq<Event>, k: nat, i: nat)
    requires k <= |trace| && StageOf(trace, i) != Broken
    ensures StageOf(trace[..k], i) != Broken
  {
    if k < |trace| {
      BrokenStays(trace[..|trace| - 1], k, i);
      assert trace[..|trace| - 1][..k] == trace[..k];
    } else {
      assert trace[..k] == trace;
    }
  }

  /** When a target is invoked its impl has been destroyed and its memory returned. */
  lemma {:induction false} InvokedAfterFreed(trace: seq<Event>, k: nat, i: nat)
    requires k < |trace| && trace[k] == Invoked(i) && StageOf(trace, i) != Broken
    ensures Count(trace[..k], Destroyed(i)) == 1 && Count(trace[..k], Deallocated(i)) == 1
    ensures Count(trace[..k], Invoked(i)) == 0
  {
    BrokenStays(trace, k, i);
    BrokenStays(trace, k + 1, i);
    assert trace[..k + 1] == trace[..k] + [trace[k]];
    StageOfSnoc(trace[..k], trace[k], i);
    StageCounts(trace[..k], i);
  }

  // ------------------------------------------------------------------ wrappers

  /** What may go wrong while an impl is created. */
  datatype Fault = NoFault | AllocationThrows | ConstructorThrows

  /** What a call through a wrapper may end in. */
  datatype CallEnd = Called | MoveThrew | BadFunctionCall

  /** Where impls live. `kinds` gives the handler type each was created for; a function
      table is identified with the handler type it was instantiated for. */
  class Arena {
    var trace: seq<Event>
    ghost var kinds: seq<nat>
    var created: nat
    ghost var wrappers: set<AnyCompletionHandler>

    constructor ()
      ensures Valid() && trace == [] && wrappers == {} && created == 0
    {
      trace, kinds, created, wrappers := [], [], 0, {};
    }

    ghost predicate Owned(impl: nat)
      reads this, wrappers
    {
      exists w :: w in wrappers && w.impl == Some(impl)
    }

    /** Every impl is alive exactly while some wrapper owns it, no two wrappers own the
        same one, and an owner has the table that fits. */
    ghost predicate Valid()
      reads this, wrappers
    {
      && |kinds| == created
      && (forall w :: w in wrappers && w.impl.Some? ==>
            w.impl.value < created && w.table == Some(kinds[w.impl.value]))
      && (forall v, w :: v in wrappers && w in wrappers && v != w && v.impl.Some? ==> v.impl != w.impl)
      && (forall i: nat :: i < created ==> StageOf(trace, i) in {Alive, Aborted, Released, Ran})
      && (forall i: nat :: i < created ==> (StageOf(trace, i) == Alive <==> Owned(i)))
      && (forall i: nat :: i >= created ==> StageOf(trace, i) == Unborn)
    }

    /** `any_completion_handler_impl::create`: the allocation may throw, which leaves
        everything as it was, and so may the handler's constructor, which frees the
        memory again. */
    method Create(kind: nat, fault: Fault) returns (impl: Option<nat>)
      requires |kinds| == created
      modifies this`trace, this`created, this`kinds
      ensures created == old(created) + Births(fault)
      ensures kinds == if fault.AllocationThrows? then old(kinds) else old(kinds) + [kind]
      ensures impl == if fault.NoFault? then Some(old(created)) else None
      ensures trace == old(trace) + Creating(old(created), fault)
    {
      if fault.AllocationThrows? {
        assert trace == trace + [];
        return None;
      }
      var i := created;
      created, kinds := created + 1, kinds + [kind];
      trace := trace + [Allocated(i)];
      if fault.ConstructorThrows? {
        trace := trace + [Deallocated(i)];
        return None;
      }
      trace := trace + [Constructed(i)];
      impl := Some(i);
    }

    /** `any_completion_handler_impl<kind>::destroy`, reached through a table. */
    method DestroyImpl(kind: nat, impl: nat)
      requires impl < |kinds| && kinds[impl] == kind
      modifies this`trace
      ensures trace == old(trace) + [Destroyed(impl)] + [Deallocated(impl)]
    {
      trace := trace + [Destroyed(impl)];
      trace := trace + [Deallocated(impl)];
    }

    /** `any_completion_handler_impl<kind>::call`: the target is moved out, the impl is
        destroyed and freed, and only then does the target run. If moving it out throws,
        the impl is destroyed and freed all the same, and the target does not run. */
    method CallImpl(kind: nat, impl: nat, moveThrows: bool)
      requires impl < |kinds| && kinds[impl] == kind
      modifies this`trace
      ensures trace == old(trace) + Calling(impl, moveThrows)
    {
      trace := trace + [Destroyed(impl)];
      trace := trace + [Deallocated(impl)];
      if !moveThrows {
        trace := trace + [Invoked(impl)];
      }
    }
  }

  /** What happens to the target a wrapper gives up. */
  function Freeing(impl: Option<nat>): seq<Event> {
    if impl.Some? then [Destroyed(impl.value)] + [Deallocated(impl.value)] else []
  }

  /** What creating an impl does. */
  function Creating(impl: nat, fault: Fault): seq<Event> {
    match fault
    case NoFault => [Allocated(impl)] + [Constructed(impl)]
    case ConstructorThrows => [Allocated(impl)] + [Deallocated(impl)]
    case AllocationThrows => []
  }

  /** How many impls it numbers. */
  function Births(fault: Fault): nat { if fault.AllocationThrows? then 0 else 1 }

  /** What calling through an impl does. */
  function Calling(impl: nat, moveThrows: bool): seq<Event> {
    Freeing(Some(impl)) + (if moveThrows then [] else [Invoked(impl)])
  }

  lemma {:induction false} CreatedStage(trace: seq<Event>, impl: nat, fault: Fault, i: nat)
    requires StageOf(trace, impl) == Unborn
    ensures StageOf(trace + Creating(impl, fault), i)
         == if i != impl then StageOf(trace, i)
            else match fault case NoFault => Alive case ConstructorThrows => Aborted case AllocationThrows => Unborn
  {
    if fault.AllocationThrows? {
      assert trace + [] == trace;
    } else {
      var e := Creating(impl, fault)[1];
      StageOfSnoc(trace, Allocated(impl), i);
      StageOfSnoc(trace + [Allocated(impl)], e, i);
      assert trace + Creating(impl, fault) == (trace + [Allocated(impl)]) + [e];
    }
  }

  lemma {:induction false} CalledStage(trace: seq<Event>, impl: nat, moveThrows: bool, i: nat)
    requires StageOf(trace, impl) == Alive
    ensures StageOf(trace + Calling(impl, moveThrows), i)
         == if i != impl then StageOf(trace, i) else if moveThrows then Released else Ran
  {
    FreedStage(trace, Some(impl), i);
    if moveThrows {
      assert trace + Calling(impl, moveThrows) == trace + Freeing(Some(impl));
    } else {
      StageOfSnoc(trace + Freeing(Some(impl)), Invoked(impl), i);
      assert trace + Calling(impl, moveThrows) == (trace + Freeing(Some(impl))) + [Invoked(impl)];
    }
  }

  lemma FreedStage(trace: seq<Event>, impl: Option<nat>, i: nat)
    requires impl.Some? ==> StageOf(trace, impl.value) == Alive
    ensures StageOf(trace + Freeing(impl), i) == if impl == Some(i) then Released else StageOf(trace, i)
  {
    if impl.Some? {
      var e := Destroyed(impl.value);
      StageOfSnoc(trace, e, i);
      StageOfSnoc(trace + [e], Deallocated(impl.value), i);
      assert trace + Freeing(impl) == (trace + [e]) + [Deallocated(impl.value)];
    } else {
      assert trace + [] == trace;
    }
  }

  class AnyCompletionHandler {
    var table: Option<nat>
    var impl: Option<nat>

    constructor Empty(arena: Arena)
      requires arena.Valid()
      modifies arena`wrappers
      ensures arena.Valid() && arena.wrappers == old(arena.wrappers) + {this}
      ensures impl == None && table == None
    {
      table, impl := None, None;
      new;
      arena.wrappers := arena.wrappers + {this};
      assert forall i: nat :: old(arena.Owned(i)) ==> arena.Owned(i);
    }

    /** The members set from a function table and a freshly created impl. */
    constructor Adopt(kind: nat, i: nat)
      ensures table == Some(kind) && impl == Some(i)
    {
      table, impl := Some(kind), Some(i);
    }

    /** The converting constructor; null if creating the target throws. */
    static method FromTarget(arena: Arena, kind: nat, fault: Fault) returns (w: AnyCompletionHandler?)
      requires arena.Valid()
      modifies arena
      ensures arena.Valid() && arena.created == old(arena.created) + Births(fault)
      ensures arena.trace == old(arena.trace) + Creating(old(arena.created), fault)
      ensures w != null <==> fault.NoFault?
      ensures w == null ==> arena.wrappers == old(arena.wrappers)
      ensures w != null ==> fresh(w) && arena.wrappers == old(arena.wrappers) + {w} && w.impl == Some(old(arena.created))
    {
      ghost var before, n := arena.trace, arena.created;
      var impl := arena.Create(kind, fault);
      forall i: nat
        ensures StageOf(arena.trace, i)
             == if i != n then StageOf(before, i)
                else match fault case NoFault => Alive case ConstructorThrows => Aborted case AllocationThrows => Unborn
      {
        CreatedStage(before, n, fault, i);
      }
      w := null;
      if impl.Some? {
        w := new AnyCompletionHandler.Adopt(kind, impl.value);
        arena.wrappers := arena.wrappers + {w};
      }
      assert forall i: nat :: i < n ==> (old(arena.Owned(i)) <==> arena.Owned(i));
    }

    /** The move constructor. */
    constructor Move(arena: Arena, other: AnyCompletionHandler)
      requires arena.Valid() && other in arena.wrappers
      modifies arena`wrappers, other
      ensures arena.Valid() && arena.wrappers == old(arena.wrappers) + {this}
      ensures impl == old(other.impl) && table == old(other.table)
      ensures other.impl == None && other.table == None
    {
      table, impl := other.table, other.impl;
      new;
      other.table, other.impl := None, None;
      arena.wrappers := arena.wrappers + {this};
      forall i: nat ensures old(arena.Owned(i)) <==> arena.Owned(i) {
        if w :| w in old(arena.wrappers) && old(w.impl) == Some(i) {
          assert if w == other then this.impl == Some(i) else w.impl == Some(i);
        }
      }
    }

    method Swap(arena: Arena, other: AnyCompletionHandler)
      requires arena.Valid() && this in arena.wrappers && other in arena.wrappers
      modifies this, other
      ensures arena.Valid()
      ensures impl == old(other.impl) && table == old(other.table)
      ensures other.impl == old(impl) && other.table == old(table)
    {
      table, other.table := other.table, table;
      impl, other.impl := other.impl, impl;
      forall i: nat ensures old(arena.Owned(i)) <==> arena.Owned(i) {
        if w :| w in old(arena.wrappers) && old(w.impl) == Some(i) {
          assert if w == other then this.impl == Some(i) else if w == this then other.impl == Some(i) else w.impl == Some(i);
        }
      }
    }

    /** The destructor: the wrapper is gone afterwards. */
    method Destruct(arena: Arena)
      requires arena.Valid() && this in arena.wrappers
      modifies arena`trace, arena`wrappers
      ensures arena.Valid() && arena.wrappers == old(arena.wrappers) - {this}
      ensures arena.trace == old(arena.trace) + Freeing(impl)
    {
      assert impl.Some? ==> arena.Owned(impl.value);
      forall i: nat ensures StageOf(arena.trace + Freeing(impl), i)
                         == if impl == Some(i) then Released else StageOf(arena.trace, i) {
        FreedStage(arena.trace, impl, i);
      }
      if impl.Some? {
        arena.DestroyImpl(table.value, impl.value);
      }
      arena.wrappers := arena.wrappers - {this};
      assert arena.trace == old(arena.trace) + Freeing(impl);
      forall i: nat ensures arena.Owned(i) <==> old(arena.Owned(i)) && impl != Some(i) {
        if w :| w in old(arena.wrappers) && w.impl == Some(i) && w != this {
          assert w in arena.wrappers;
        }
      }
    }

    /** Move assignment, by way of a temporary; `other` may be this very wrapper. */
    method MoveAssign(arena: Arena, other: AnyCompletionHandler)
      requires arena.Valid() && this in arena.wrappers && other in arena.wrappers
      modifies arena`trace, arena`wrappers, this, other
      ensures arena.Valid() && arena.wrappers == old(arena.wrappers)
      ensures impl == old(other.impl) && table == old(other.table)
      ensures other != this ==> other.impl == None && other.table == None
      ensures arena.trace == old(arena.trace) + (if other == this then [] else Freeing(old(impl)))
    {
      var temporary := new AnyCompletionHandler.Move(arena, other);
      temporary.Swap(arena, this);
      temporary.Destruct(arena);
      assert arena.wrappers == old(arena.wrappers);
    }

    /** Assignment of `nullptr`. */
    method Clear(arena: Arena)
      requires arena.Valid() && this in arena.wrappers
      modifies arena`trace, arena`wrappers, this
      ensures arena.Valid() && arena.wrappers == old(arena.wrappers)
      ensures impl == None && table == None
      ensures arena.trace == old(arena.trace) + Freeing(old(impl))
    {
      var temporary := new AnyCompletionHandler.Empty(arena);
      temporary.Swap(arena, this);
      temporary.Destruct(arena);
      assert arena.wrappers == old(arena.wrappers);
    }

    /** The call operator. It gives the impl up before anything can throw, and leaves the
        function table in place. */
    method Invoke(arena: Arena, moveThrows: bool) returns (end: CallEnd)
      requires arena.Valid() && this in arena.wrappers
      modifies arena`trace, this`impl
      ensures arena.Valid() && impl == None
      ensures end == if old(impl).None? then BadFunctionCall else if moveThrows then MoveThrew else Called
      ensures arena.trace == old(arena.trace)
                             + (if old(impl).Some? then Calling(old(impl).value, moveThrows) else [])
    {
      if impl.None? {
        return BadFunctionCall;
      }
      var i := impl.value;
      assert arena.Owned(i);
      ghost var before := arena.trace;
      forall j: nat
        ensures StageOf(before + Calling(i, moveThrows), j)
             == if j != i then StageOf(before, j) else if moveThrows then Released else Ran
      {
        CalledStage(before, i, moveThrows, j);
      }
      impl := None;
      arena.CallImpl(table.value, i, moveThrows);
      forall j: nat ensures arena.Owned(j) <==> old(arena.Owned(j)) && j != i {
        if w :| w in old(arena.wrappers) && old(w.impl) == Some(j) && j != i {
          assert w.impl == Some(j);
        }
      }
      return if moveThrows then MoveThrew else Called;
    }
  }

  // ------------------------------------------------------------------ whole programs

  /** A statement of a program over wrapper variables; wrapper `k` is the one the
      `k`-th declaration introduced. Statements about wrappers that no longer exist,
      or never did, are skipped. */
  datatype Statement =
    | DeclareEmpty
    | DeclareTarget(kind: nat, fault: Fault)
    | DeclareMoved(source: nat)
    | Assign(target: nat, source: nat)
    | AssignNull(target: nat)
    | SwapWith(target: nat, source: nat)
    | Call(target: nat, moveThrows: bool)
    | End(target: nat)

  /** What a program means, on values: a variable is gone or owns at most one impl. */
  datatype Variable = Gone | Holds(impl: Option<nat>)

  datatype Machine = Machine(vars: seq<Variable>, created: nat, trace: seq<Event>)
  {
    predicate Live(k: nat) { k < |vars| && vars[k].Holds? }

    function Give(k: nat, v: Variable, events: seq<Event>): Machine
      requires k < |vars|
    {
      this.(vars := vars[k := v], trace := trace + events)
    }
  }

  function Meaning(m: Machine, s: Statement): Machine {
    match s
    case DeclareEmpty => m.(vars := m.vars + [Holds(None)])
    case DeclareTarget(_, fault) =>
      Machine(m.vars + [if fault.NoFault? then Holds(Some(m.created)) else Gone], m.created + Births(fault),
              m.trace + Creating(m.created, fault))
    case DeclareMoved(source) =>
      if m.Live(source) then m.(vars := m.vars[source := Holds(None)] + [m.vars[source]]) else m
    case Assign(target, source) =>
      if m.Live(target) && m.Live(source) && target != source then
        m.Give(target, m.vars[source], Freeing(m.vars[target].impl)).Give(source, Holds(None), [])
      else m
    case AssignNull(target) =>
      if m.Live(target) then m.Give(target, Holds(None), Freeing(m.vars[target].impl)) else m
    case SwapWith(target, source) =>
      if m.Live(target) && m.Live(source) then
        m.Give(target, m.vars[source], []).Give(source, m.vars[target], [])
      else m
    case Call(target, moveThrows) =>
      if m.Live(target) && m.vars[target].impl.Some? then
        m.Give(target, Holds(None), Calling(m.vars[target].impl.value, moveThrows))
      else m
    case End(target) =>
      if m.Live(target) then m.Give(target, Gone, Freeing(m.vars[target].impl)) else m
  }

  function MeaningOf(m: Machine, program: seq<Statement>): Machine
    decreases |program|
  {
    if program == [] then m else MeaningOf(Meaning(m, program[0]), program[1..])
  }

  /** Assignment is moving into a temporary, swapping with it, and ending its scope. */
  lemma {:induction false} AssignIsMoveSwapEnd(m: Machine, target: nat, source: nat)
    requires m.Live(target) && m.Live(source)
    ensures var r, n := Meaning(m, Assign(target, source)), |m.vars|;
      MeaningOf(m, [DeclareMoved(source), SwapWith(n, target), End(n)]) == r.(vars := r.vars + [Gone])
  {
    var n := |m.vars|;
    var m1 := Meaning(m, DeclareMoved(source));
    var m2 := Meaning(m1, SwapWith(n, target));
    var m3 := Meaning(m2, End(n));
    MeaningOfThree(m, DeclareMoved(source), SwapWith(n, target), End(n));
    var r := Meaning(m, Assign(target, source));
    assert m3.vars == r.vars + [Gone];
    assert m3.trace == r.trace;
  }

  /** ... and assigning null is the same with an empty temporary. */
  lemma {:induction false} NullIsEmptySwapEnd(m: Machine, target: nat)
    requires m.Live(target)
    ensures var r, n := Meaning(m, AssignNull(target)), |m.vars|;
      MeaningOf(m, [DeclareEmpty, SwapWith(n, target), End(n)]) == r.(vars := r.vars + [Gone])
  {
    var n := |m.vars|;
    MeaningOfThree(m, DeclareEmpty, SwapWith(n, target), End(n));
    var m3 := Meaning(Meaning(Meaning(m, DeclareEmpty), SwapWith(n, target)), End(n));
    var r := Meaning(m, AssignNull(target));
    assert m3.vars == r.vars + [Gone];
    assert m3.trace == r.trace;
  }

  /** Swapping is three moves by way of a temporary. */
  lemma {:induction false} SwapIsThreeMoves(m: Machine, target: nat, source: nat)
    requires m.Live(target) && m.Live(source) && target != source
    ensures var r, n := Meaning(m, SwapWith(target, source)), |m.vars|;
      MeaningOf(Meaning(m, DeclareMoved(target)), [Assign(target, source), Assign(source, n), End(n)])
        == r.(vars := r.vars + [Gone])
  {
    var n := |m.vars|;
    var m0 := Meaning(m, DeclareMoved(target));
    MeaningOfThree(m0, Assign(target, source), Assign(source, n), End(n));
    var m3 := Meaning(Meaning(Meaning(m0, Assign(target, source)), Assign(source, n)), End(n));
    var r := Meaning(m, SwapWith(target, source));
    assert m3.vars == r.vars + [Gone];
    assert m3.trace == r.trace;
  }

  lemma MeaningOfThree(m: Machine, a: Statement, b: Statement, c: Statement)
    ensures MeaningOf(m, [a, b, c]) == Meaning(Meaning(Meaning(m, a), b), c)
  {
    var m1 := Meaning(m, a);
    assert [a, b, c][1..] == [b, c] && [b, c][1..] == [c] && [c][1..] == [];
    assert MeaningOf(m1, [b, c]) == MeaningOf(Meaning(m1, b), [c]);
  }

  lemma {:induction false} CountConcat(trace: seq<Event>, events: seq<Event>, e: Event)
    ensures Count(trace + events, e) == Count(trace, e) + Count(events, e)
    decreases |events|
  {
    if events == [] {
      assert trace + events == trace;
    } else {
      var m := |events| - 1;
      assert (trace + events)[..|trace| + m] == trace + events[..m];
      CountConcat(trace, events[..m], e);
    }
  }

  /** A call through a wrapper with a target runs it once, unless moving it out throws; it
      destroys and frees the impl once either way, and no other; the wrapper is empty. */
  lemma {:induction false} CallInvokesOnce(m: Machine, k: nat, moveThrows: bool, i: nat, j: nat)
    requires m.Live(k) && m.vars[k].impl == Some(i)
    ensures var r := Meaning(m, Call(k, moveThrows));
      && r.vars == m.vars[k := Holds(None)] && r.created == m.created
      && Count(r.trace, Invoked(j)) == Count(m.trace, Invoked(j)) + (if j == i && !moveThrows then 1 else 0)
      && Count(r.trace, Destroyed(j)) == Count(m.trace, Destroyed(j)) + (if j == i then 1 else 0)
      && Count(r.trace, Deallocated(j)) == Count(m.trace, Deallocated(j)) + (if j == i then 1 else 0)
  {
    var events := Calling(i, moveThrows);
    CountConcat(m.trace, events, Invoked(j));
    CountConcat(m.trace, events, Destroyed(j));
    CountConcat(m.trace, events, Deallocated(j));
    assert events == if moveThrows then [Destroyed(i), Deallocated(i)] else [Destroyed(i), Deallocated(i), Invoked(i)];
    CountThree(Destroyed(i), Deallocated(i), Invoked(i), Invoked(j));
    CountThree(Destroyed(i), Deallocated(i), Invoked(i), Destroyed(j));
    CountThree(Destroyed(i), Deallocated(i), Invoked(i), Deallocated(j));
  }

  lemma CountThree(a: Event, b: Event, c: Event, e: Event)
    ensures Count([a, b], e) == (if a == e then 1 else 0) + (if b == e then 1 else 0)
    ensures Count([a, b, c], e) == Count([a, b], e) + (if c == e then 1 else 0)
  {
    assert [a, b, c][..2] == [a, b] && [a, b][..1] == [a] && [a][..0] == [];
    assert Count([a], e) == if a == e then 1 else 0;
  }

  /** The ends of the scopes of the first `n` variables. */
  function Ends(n: nat): seq<Statement> { seq(n, k requires k >= 0 => End(k)) }

  type Variables = seq<AnyCompletionHandler?>

  function Owners(vars: Variables): seq<Variable>
    reads vars
  {
    seq(|vars|, k requires 0 <= k < |vars| reads vars => if vars[k] == null then Gone else Holds(vars[k].impl))
  }

  function State(arena: Arena, vars: Variables): Machine
    reads arena, vars
  {
    Machine(Owners(vars), arena.created, arena.trace)
  }

  predicate Live(vars: Variables, k: nat) {
    k < |vars| && vars[k] != null
  }

  ghost predicate Named(vars: Variables, w: AnyCompletionHandler) {
    exists k :: 0 <= k < |vars| && vars[k] == w
  }

  /** Every wrapper in existence is exactly one variable. */
  ghost predicate Names(wrappers: set<AnyCompletionHandler>, vars: Variables) {
    && (forall j, k :: 0 <= j < k < |vars| && vars[j] != null ==> vars[j] != vars[k])
    && (forall k :: 0 <= k < |vars| && vars[k] != null ==> vars[k] in wrappers)
    && (forall w :: w in wrappers ==> Named(vars, w))
  }

  lemma {:induction false} NamesAdd(wrappers: set<AnyCompletionHandler>, vars: Variables, w: AnyCompletionHandler?)
    requires Names(wrappers, vars) && (w != null ==> w !in wrappers)
    ensures Names(if w == null then wrappers else wrappers + {w}, vars + [w])
  {
    forall v | v in wrappers ensures Named(vars + [w], v) {
      var k :| 0 <= k < |vars| && vars[k] == v;
      assert (vars + [w])[k] == v;
    }
    assert (vars + [w])[|vars|] == w;
  }

  lemma {:induction false} NamesDrop(wrappers: set<AnyCompletionHandler>, vars: Variables, k: nat)
    requires Names(wrappers, vars) && k < |vars| && vars[k] != null
    ensures Names(wrappers - {vars[k]}, vars[k := null])
  {
    forall v | v in wrappers - {vars[k]} ensures Named(vars[k := null], v) {
      var j :| 0 <= j < |vars| && vars[j] == v;
      assert vars[k := null][j] == v;
    }
  }

  method Declare(arena: Arena, vars: Variables, s: Statement) returns (after: Variables)
    requires arena.Valid() && Names(arena.wrappers, vars)
    requires s.DeclareEmpty? || s.DeclareTarget?
    modifies arena, arena.wrappers
    ensures arena.Valid() && Names(arena.wrappers, after)
    ensures fresh(arena.wrappers - old(arena.wrappers))
    ensures State(arena, after) == Meaning(old(State(arena, vars)), s)
  {
    if s.DeclareEmpty? {
      var w := new AnyCompletionHandler.Empty(arena);
      after := vars + [w];
      NamesAdd(old(arena.wrappers), vars, w);
    } else {
      var w := AnyCompletionHandler.FromTarget(arena, s.kind, s.fault);
      after := vars + [w];
      NamesAdd(old(arena.wrappers), vars, w);
    }
  }

  method MoveVariable(arena: Arena, vars: Variables, s: Statement) returns (after: Variables)
    requires arena.Valid() && Names(arena.wrappers, vars) && s.DeclareMoved?
    modifies arena, arena.wrappers
    ensures arena.Valid() && Names(arena.wrappers, after)
    ensures fresh(arena.wrappers - old(arena.wrappers))
    ensures State(arena, after) == Meaning(old(State(arena, vars)), s)
  {
    after := vars;
    if Live(vars, s.source) {
      var w := new AnyCompletionHandler.Move(arena, vars[s.source]);
      after := vars + [w];
      NamesAdd(old(arena.wrappers), vars, w);
    }
  }

  method UseVariable(arena: Arena, vars: Variables, s: Statement) returns (after: Variables)
    requires arena.Valid() && Names(arena.wrappers, vars)
    requires s.AssignNull? || s.Call? || s.End?
    modifies arena, arena.wrappers
    ensures arena.Valid() && Names(arena.wrappers, after) && arena.wrappers <= old(arena.wrappers)
    ensures State(arena, after) == Meaning(old(State(arena, vars)), s)
  {
    after := vars;
    if Live(vars, s.target) {
      var w := vars[s.target];
      if s.AssignNull? {
        w.Clear(arena);
      } else if s.Call? {
        var _ := w.Invoke(arena, s.moveThrows);
      } else {
        w.Destruct(arena);
        after := vars[s.target := null];
        NamesDrop(old(arena.wrappers), vars, s.target);
      }
    }
  }

  method AssignVariable(arena: Arena, vars: Variables, s: Statement)
    requires arena.Valid() && Names(arena.wrappers, vars) && s.Assign?
    modifies arena, arena.wrappers
    ensures arena.Valid() && Names(arena.wrappers, vars) && arena.wrappers == old(arena.wrappers)
    ensures State(arena, vars) == Meaning(old(State(arena, vars)), s)
  {
    if Live(vars, s.target) && Live(vars, s.source) {
      vars[s.target].MoveAssign(arena, vars[s.source]);
    }
  }

  method SwapVariables(arena: Arena, vars: Variables, s: Statement)
    requires arena.Valid() && Names(arena.wrappers, vars) && s.SwapWith?
    modifies arena, arena.wrappers
    ensures arena.Valid() && Names(arena.wrappers, vars) && arena.wrappers == old(arena.wrappers)
    ensures State(arena, vars) == Meaning(old(State(arena, vars)), s)
  {
    if Live(vars, s.target) && Live(vars, s.source) {
      vars[s.target].Swap(arena, vars[s.source]);
    }
  }

  method Execute(arena: Arena, vars: Variables, s: Statement) returns (after: Variables)
    requires arena.Valid() && Names(arena.wrappers, vars)
    modifies arena, arena.wrappers
    ensures arena.Valid() && Names(arena.wrappers, after)
    ensures fresh(arena.wrappers - old(arena.wrappers))
    ensures State(arena, after) == Meaning(old(State(arena, vars)), s)
  {
    if s.DeclareEmpty? || s.DeclareTarget? {
      after := Declare(arena, vars, s);
    } else if s.DeclareMoved? {
      after := MoveVariable(arena, vars, s);
    } else if s.Assign? {
      AssignVariable(arena, vars, s);
      after := vars;
    } else if s.SwapWith? {
      SwapVariables(arena, vars, s);
      after := vars;
    } else {
      after := UseVariable(arena, vars, s);
    }
  }

  const START := Machine([], 0, [])

  /** Any program at all: the wrappers do what the program means. */
  method ExecuteAll(arena: Arena, vars: Variables, program: seq<Statement>) returns (after: Variables)
    requires arena.Valid() && Names(arena.wrappers, vars)
    modifies arena, arena.wrappers
    ensures arena.Valid() && Names(arena.wrappers, after)
    ensures fresh(arena.wrappers - old(arena.wrappers))
    ensures State(arena, after) == MeaningOf(old(State(arena, vars)), program)
  {
    after := vars;
    ghost var start := State(arena, vars);
    assert program[0..] == program;
    for i := 0 to |program|
      invariant arena.Valid() && Names(arena.wrappers, after) && fresh(arena.wrappers - old(arena.wrappers))
      invariant MeaningOf(start, program) == MeaningOf(State(arena, after), program[i..])
    {
      assert program[i..][1..] == program[i + 1..];
      after := Execute(arena, after, program[i]);
    }
  }

  /** Ending every scope leaves no variable. */
  lemma {:induction false} EndsLeaveNothing(m: Machine, k: nat)
    requires k <= |m.vars| && forall j :: 0 <= j < k ==> m.vars[j] == Gone
    ensures var r := MeaningOf(m, Ends(|m.vars|)[k..]);
      r.created == m.created && |r.vars| == |m.vars| && forall j :: 0 <= j < |r.vars| ==> r.vars[j] == Gone
    decreases |m.vars| - k
  {
    var ends := Ends(|m.vars|);
    if k < |m.vars| {
      assert ends[k..][0] == End(k) && ends[k..][1..] == ends[k + 1..];
      EndsLeaveNothing(Meaning(m, End(k)), k + 1);
    }
  }

  method EndAll(arena: Arena, vars: Variables)
    requires arena.Valid() && Names(arena.wrappers, vars)
    modifies arena, arena.wrappers
    ensures arena.Valid() && arena.wrappers == {}
    ensures arena.created == old(arena.created)
    ensures arena.trace == MeaningOf(old(State(arena, vars)), Ends(|vars|)).trace
  {
    ghost var m := State(arena, vars);
    EndsLeaveNothing(m, 0);
    assert Ends(|vars|)[0..] == Ends(|vars|);
    var after := ExecuteAll(arena, vars, Ends(|vars|));
    forall k | 0 <= k < |after| ensures after[k] == null {
      assert Owners(after)[k] == Gone;
    }
    assert forall w :: w in arena.wrappers ==> Named(after, w);
  }

  /** Any program, then the end of every scope: the trace is what the program means,
      and each impl ever allocated was freed exactly once, ran at most once, and only
      after it was freed. */
  method RunProgram(program: seq<Statement>) returns (trace: seq<Event>, created: nat)
    ensures var m := MeaningOf(START, program); MeaningOf(m, Ends(|m.vars|)).trace == trace && m.created == created
    ensures forall i: nat :: i < created ==> StageOf(trace, i) in {Aborted, Released, Ran}
    ensures forall i: nat :: i >= created ==> StageOf(trace, i) == Unborn
  {
    var arena := new Arena();
    assert State(arena, []) == START;
    var vars := ExecuteAll(arena, [], program);
    assert State(arena, vars) == MeaningOf(START, program);
    EndAll(arena, vars);
    return arena.trace, arena.created;
  }
}
