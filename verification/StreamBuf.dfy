/**
  `asio::basic_streambuf`: one growing character array read at the front and written
  at the back, with the six positions of `std::streambuf` kept as offsets into it.
  [streambuf.virt.get] and [streambuf.virt.put] of ISO/IEC 14882:2020 say what the
  overridden virtuals owe the inherited character functions.
 */
module StreamBuf {
  import opened Prelude

  const BUFFER_DELTA := 128
  const READ_CHUNK := 512

  /** Whether a call returned or threw `std::length_error`. */
  datatype Outcome = Done | LengthError

  /** What is read between unchanged positions after the first `|c|` characters of the
      array have been overwritten with the input sequence `c`, which starts at `g`. */
  function Smeared(c: seq<Byte>, g: nat): seq<Byte> {
    if g < |c| then c[g..] + c[|c| - g..] else c
  }

  /** `c` repeats itself every `g` characters. */
  predicate Periodic(c: seq<Byte>, g: nat) {
    forall i :: 0 <= i < |c| - g ==> c[i + g] == c[i]
  }

  lemma {:induction false} SmearedAt(c: seq<Byte>, g: nat)
    ensures |Smeared(c, g)| == |c|
    ensures forall k {:trigger Smeared(c, g)[k]} :: 0 <= k < |c| ==> Smeared(c, g)[k] == if g + k < |c| then c[g + k] else c[k]
  {
  }

  lemma {:induction false} SmearedIff(c: seq<Byte>, g: nat)
    ensures Smeared(c, g) == c <==> Periodic(c, g)
    ensures g == 0 || |c| <= g ==> Smeared(c, g) == c
  {
    if g < |c| {
      var b := Smeared(c, g);
      assert forall i :: 0 <= i < |c| - g ==> b[i] == c[i + g];
      assert forall i :: |c| - g <= i < |c| ==> b[i] == c[i];
    }
  }

  /** The input sequence, what lies in the output sequence, and how far the input sequence
      is from the front of the array. */
  datatype Queue = Queue(input: seq<Byte>, output: seq<Byte>, offset: nat)

  /** `s` lies in the array from position `from` on. */
  ghost predicate At(a: array<Byte>, from: nat, s: seq<Byte>)
    reads a
  {
    from + |s| <= a.Length && forall k :: 0 <= k < |s| ==> a[from + k] == s[k]
  }

  class BasicStreamBuf {
    const maxSize: nat
    var buffer: array<Byte>
    var capacity: nat
    var eback: nat
    var gptr: nat
    var egptr: nat
    var pbase: nat
    var pptr: nat
    var epptr: nat
    /** The input and the output sequence. */
    ghost var input: seq<Byte>
    ghost var output: seq<Byte>

    ghost predicate Valid()
      reads this, buffer
    {
      && 0 == eback <= gptr <= egptr <= pptr <= epptr <= maxSize
      && pbase <= pptr
      && buffer.Length == Max(epptr, 1) <= capacity
      && |input| == pptr - gptr && At(buffer, gptr, input)
      && |output| == epptr - pptr && At(buffer, pptr, output)
    }

    ghost function State(): Queue
      reads this
    {
      Queue(input, output, gptr)
    }

    function Size(): (n: nat)
      reads this, buffer
      requires Valid()
      ensures n == |input|
    {
      pptr - gptr
    }

    /** What `data()` points to. */
    function Data(): (s: seq<Byte>)
      reads this, buffer
      requires Valid()
      ensures s == input
    {
      buffer[gptr..pptr]
    }

    constructor (maximum: nat)
      ensures Valid() && fresh(buffer) && maxSize == maximum
      ensures input == [] && |output| == Min(maximum, BUFFER_DELTA) && gptr == 0
    {
      var pend := Min(maximum, BUFFER_DELTA);
      maxSize := maximum;
      buffer := new Byte[Max(pend, 1)](_ => 0);
      capacity := Max(pend, 1);
      eback, gptr, egptr := 0, 0, 0;
      pbase, pptr, epptr := 0, 0, pend;
      input, output := [], seq(pend, _ => 0);
    }

    /** `std::vector::resize` to a larger size; how far the capacity grows is up to
        the library. */
    method Resize(size: nat)
      requires buffer.Length <= capacity && buffer.Length <= size
      modifies this`buffer, this`capacity
      ensures fresh(buffer) && buffer.Length == size <= capacity && capacity >= old(capacity)
      ensures forall k :: 0 <= k < old(buffer.Length) ==> buffer[k] == old(buffer[k])
    {
      var grown := new Byte[size](_ => 0);
      for i := 0 to buffer.Length
        modifies grown
        invariant forall k :: 0 <= k < i ==> grown[k] == buffer[k]
      {
        grown[i] := buffer[i];
      }
      if capacity < size {
        var c: nat :| c >= size;
        capacity := c;
      }
      buffer := grown;
    }

    /** `memmove(&buffer[0], &buffer[from], count)`; the areas may overlap. */
    method MoveToFront(from: nat, count: nat)
      requires from + count <= buffer.Length
      modifies buffer
      ensures forall k :: 0 <= k < count ==> buffer[k] == old(buffer[from + k])
      ensures forall k :: count <= k < buffer.Length ==> buffer[k] == old(buffer[k])
    {
      for i := 0 to count
        invariant forall k :: 0 <= k < i ==> buffer[k] == old(buffer[from + k])
        invariant forall k :: i <= k < buffer.Length ==> buffer[k] == old(buffer[k])
      {
        buffer[i] := buffer[from + i];
      }
    }

    /** The start of `reserve`: the input sequence is copied to the front of the array,
        while the positions stay. What lies between them now is smeared. */
    method ShiftToFront() returns (pnext: nat)
      requires Valid()
      modifies buffer, this`input
      ensures Valid() && input == Smeared(old(input), gptr)
      ensures pnext == |old(input)| && At(buffer, 0, old(input))
    {
      pnext := pptr;
      if gptr > 0 {
        pnext := pnext - gptr;
        MoveToFront(gptr, pnext);
      }
      ghost var c := input;
      assert At(buffer, 0, c);
      SmearedAt(c, gptr);
      input := Smeared(c, gptr);
      forall k | 0 <= k < |input| ensures buffer[gptr + k] == input[k] {
        assert gptr + k < |c| ==> buffer[0 + (gptr + k)] == c[gptr + k];
      }
    }

    /** The end of `reserve`: `c` is at the front of the array. */
    method SetPositions(pnext: nat, pend: nat, ghost c: seq<Byte>)
      requires |c| == pnext <= pend <= maxSize && buffer.Length == Max(pend, 1) <= capacity && At(buffer, 0, c)
      modifies this`eback, this`gptr, this`egptr, this`pbase, this`pptr, this`epptr, this`input, this`output
      ensures Valid() && gptr == 0 && egptr == pptr && epptr == pend
      ensures input == c && |output| == pend - pnext
    {
      eback, gptr, egptr := 0, 0, pnext;
      pbase, pptr, epptr := pnext, pnext, pend;
      input, output := c, buffer[pnext..pend];
    }

    /** Makes room for `n` characters, by compaction and then growth. It throws exactly
        when the limit forbids, but then the compaction has already happened while the
        positions have not moved. */
    method Reserve(n: nat) returns (r: Outcome)
      requires Valid()
      modifies this, buffer
      ensures Valid() && (buffer == old(buffer) || fresh(buffer))
      ensures buffer.Length >= old(buffer.Length) && capacity >= old(capacity)
      ensures r == LengthError <==> |old(input)| + n > maxSize
      ensures r == Done ==> input == old(input) && n <= |output|
      ensures n <= |old(output)| ==> unchanged(this, old(buffer))
      ensures r == Done && n > |old(output)| ==>
        gptr == 0 && egptr == pptr && epptr == Max(old(epptr), |old(input)| + n)
      ensures r == LengthError ==> State() == Queue(Smeared(old(input), old(gptr)), old(output), old(gptr))
    {
      var pend := epptr;
      if n <= pend - pptr {
        return Done;
      }
      var pnext := ShiftToFront();
      if n > pend - pnext {
        if n <= maxSize && pnext <= maxSize - n {
          pend := pnext + n;
          Resize(Max(pend, 1));
        } else {
          return LengthError;
        }
      }
      SetPositions(pnext, pend, old(input));
      return Done;
    }

    /** Makes the output sequence at least `n` long. One that is long enough already
        keeps what has been written into it. A call that throws leaves the input
        sequence as it was exactly when that repeats with the period `gptr` by which it
        was moved; so certainly when nothing has been consumed since it was last moved
        to the front, and when it lies clear of the front. */
    method Prepare(n: nat) returns (r: Outcome)
      requires Valid()
      modifies this, buffer
      ensures Valid() && (buffer == old(buffer) || fresh(buffer))
      ensures r == LengthError <==> |old(input)| + n > maxSize
      ensures r == Done ==> input == old(input) && n <= |output|
      ensures n <= |old(output)| ==> State() == old(State())
      ensures r == Done && n > |old(output)| ==> gptr == 0
      ensures r == LengthError ==>
        && State() == Queue(Smeared(old(input), old(gptr)), old(output), old(gptr))
        && (input == old(input) <==> Periodic(old(input), gptr))
        && (gptr == 0 || |input| <= gptr ==> input == old(input))
    {
      r := Reserve(n);
      SmearedIff(old(input), old(gptr));
    }

    /** The user writing into the buffer that `prepare` returned. */
    method Fill(data: seq<Byte>)
      requires Valid() && |data| <= |output|
      modifies buffer, this`output
      ensures Valid() && output == data + old(output)[|data|..]
    {
      for i := 0 to |data|
        modifies buffer
        invariant forall k :: 0 <= k < i ==> buffer[pptr + k] == data[k]
        invariant forall k :: 0 <= k < pptr || pptr + i <= k < buffer.Length ==> buffer[k] == old(buffer[k])
      {
        buffer[pptr + i] := data[i];
      }
      output := data + output[|data|..];
    }

    /** Appends what the output sequence holds, at most all of it. */
    method Commit(n: nat)
      requires Valid()
      modifies this`egptr, this`pptr, this`input, this`output
      ensures Valid() && egptr == pptr
      ensures var k := Min(n, |old(output)|);
        State() == Queue(old(input) + old(output)[..k], old(output)[k..], old(gptr))
    {
      var k := Min(n, epptr - pptr);
      pptr := pptr + k;
      egptr := pptr;
      input, output := input + output[..k], output[k..];
    }

    /** Drops characters from the front of the input sequence, at most all of it. */
    method Consume(n: nat)
      requires Valid()
      modifies this`eback, this`egptr, this`gptr, this`input
      ensures Valid() && gptr == old(gptr) + Min(n, |old(input)|)
      ensures input == old(input)[Min(n, |old(input)|)..]
    {
      if egptr < pptr {
        eback, egptr := 0, pptr;
      }
      var k: nat := n;
      if gptr + k > pptr {
        k := pptr - gptr;
      }
      gptr := gptr + k;
      input := input[k..];
    }

    /** Makes everything written readable; eof exactly when there is nothing. */
    method Underflow() returns (c: IntType)
      requires Valid()
      modifies this`eback, this`egptr
      ensures Valid() && c == Front(input)
      ensures c != EOF ==> gptr < egptr
    {
      if gptr < pptr {
        eback, egptr := 0, pptr;
        assert buffer[gptr + 0] == input[0];
        return buffer[gptr];
      }
      return EOF;
    }

    /** Appends a character, or throws exactly when the input sequence is full, and then
        leaves everything as it was: a full sequence lies at the front already. Only a
        used-up output sequence makes it move anything. */
    method Overflow(c: IntType) returns (r: IntType, o: Outcome)
      requires Valid()
      modifies this, buffer
      ensures Valid() && (buffer == old(buffer) || fresh(buffer))
      ensures o == LengthError <==> c != EOF && |old(input)| == maxSize
      ensures o == LengthError || c == EOF ==> State() == old(State())
      ensures o == Done ==> r == NotEof(c)
      ensures o == Done && c != EOF ==> input == old(input) + [c]
      ensures o == Done && c != EOF && old(output) != [] ==> gptr == old(gptr) && output == old(output)[1..]
      ensures o == Done && c != EOF && old(output) == [] ==>
        gptr == 0 && epptr == Max(old(epptr), |old(input)| + Min(BUFFER_DELTA, maxSize - |old(input)|))
    {
      if c != EOF {
        if pptr == epptr {
          o := ReserveDelta();
          if o == LengthError {
            return EOF, LengthError;
          }
        }
        PutHere(c);
        return c, Done;
      }
      return NotEof(c), Done;
    }

    /** What `overflow` reserves when the output sequence is used up: a whole step, or
        what the maximum leaves of it. */
    method ReserveDelta() returns (o: Outcome)
      requires Valid() && output == []
      modifies this, buffer
      ensures Valid() && (buffer == old(buffer) || fresh(buffer))
      ensures o == LengthError <==> |old(input)| == maxSize
      ensures o == Done ==> input == old(input) && output != [] && gptr == 0
      ensures o == Done ==> epptr == Max(old(epptr), |old(input)| + Min(BUFFER_DELTA, maxSize - |old(input)|))
      ensures o == LengthError ==> State() == old(State())
    {
      SmearedIff(input, gptr);
      var size := pptr - gptr;
      if size < maxSize && maxSize - size < BUFFER_DELTA {
        o := Reserve(maxSize - size);
      } else {
        o := Reserve(BUFFER_DELTA);
      }
    }

    /** `*pptr() = c; pbump(1)`. */
    method PutHere(c: Byte)
      requires Valid() && output != []
      modifies this`pptr, this`input, this`output, buffer
      ensures Valid() && State() == Queue(old(input) + [c], old(output)[1..], old(gptr))
    {
      buffer[pptr] := c;
      pptr := pptr + 1;
      input, output := input + [c], output[1..];
    }

    /** The documented way to read from a device: prepare, write into the result, commit. */
    method Receive(room: nat, data: seq<Byte>) returns (o: Outcome)
      requires Valid() && |data| <= room
      modifies this, buffer
      ensures Valid() && (buffer == old(buffer) || fresh(buffer))
      ensures o == LengthError <==> |old(input)| + room > maxSize
      ensures o == Done ==> input == old(input) + data
    {
      o := Prepare(room);
      if o == Done {
        Fill(data);
        assert output[..|data|] == data;
        Commit(|data|);
      }
    }

    // ------------------------------------------------ inherited character functions

    method Sputc(c: Byte) returns (r: IntType, o: Outcome)
      requires Valid()
      modifies this, buffer
      ensures Valid() && (buffer == old(buffer) || fresh(buffer))
      ensures o == LengthError <==> |old(input)| == maxSize
      ensures o == LengthError ==> State() == old(State())
      ensures o == Done ==> r == c && input == old(input) + [c]
      ensures o == Done && old(output) != [] ==> gptr == old(gptr) && output == old(output)[1..]
      ensures o == Done && old(output) == [] ==> gptr == 0
    {
      if pptr < epptr {
        PutHere(c);
        return c, Done;
      }
      r, o := Overflow(c);
    }

    method Sgetc() returns (c: IntType)
      requires Valid()
      modifies this`eback, this`egptr
      ensures Valid() && c == Front(input)
    {
      if gptr < egptr {
        assert buffer[gptr + 0] == input[0];
        return buffer[gptr];
      }
      c := Underflow();
    }

    method Sbumpc() returns (c: IntType)
      requires Valid()
      modifies this`eback, this`egptr, this`gptr, this`input
      ensures Valid() && c == Front(old(input))
      ensures input == if old(input) == [] then [] else old(input)[1..]
    {
      if gptr == egptr {
        c := Underflow();
        if c == EOF {
          return;
        }
      }
      assert buffer[gptr + 0] == input[0];
      c := buffer[gptr];
      gptr := gptr + 1;
      input := input[1..];
    }

    /** Repeated `sputc`: as much as fits is put, and the rest makes it throw. */
    method Sputn(data: seq<Byte>) returns (count: nat, o: Outcome)
      requires Valid()
      modifies this, buffer
      ensures Valid() && (buffer == old(buffer) || fresh(buffer))
      ensures count == Min(|data|, maxSize - |old(input)|) && input == old(input) + data[..count]
      ensures o == if count == |data| then Done else LengthError
      ensures count <= |old(output)| ==> gptr == old(gptr) && output == old(output)[count..]
      ensures count > |old(output)| ==> gptr == 0
    {
      count := 0;
      while count < |data|
        invariant Valid() && (buffer == old(buffer) || fresh(buffer))
        invariant PutSoFar(old(State()), data, count, State())
      {
        ghost var q := State();
        var _, thrown := Sputc(data[count]);
        if thrown == LengthError {
          return count, LengthError;
        }
        PutNext(old(State()), data, count, q, State());
        count := count + 1;
      }
      return count, Done;
    }

    /** Repeated `sbumpc`, until there is nothing left. */
    method Sgetn(n: nat) returns (data: seq<Byte>)
      requires Valid()
      modifies this`eback, this`egptr, this`gptr, this`input
      ensures Valid()
      ensures var k := Min(n, |old(input)|); data == old(input)[..k] && input == old(input)[k..]
    {
      data := [];
      while |data| < n
        invariant Valid() && |data| <= n && |data| + |input| == |old(input)|
        invariant data + input == old(input)
      {
        ghost var left := input;
        var c := Sbumpc();
        if c == EOF {
          SplitAt(data, input, old(input));
          return;
        }
        TakeNext(data, c, left, input);
        data := data + [c];
      }
      SplitAt(data, input, old(input));
    }

    /** Preferred size for a read into this buffer: it fits, so preparing it cannot
        throw; it is positive whenever anything may be read at all; and it is a whole chunk
        at least where that much may be read, and no more than a chunk or the capacity. */
    function ReadSizeHelper(limit: nat): (r: nat)
      reads this, buffer
      requires Valid()
      ensures |input| + r <= maxSize && r <= limit
      ensures r > 0 <==> limit > 0 && |input| < maxSize
      ensures Min(READ_CHUNK, Min(limit, maxSize - |input|)) <= r <= Max(READ_CHUNK, capacity - |input|)
    {
      Min(Max(READ_CHUNK, capacity - Size()), Min(limit, maxSize - Size()))
    }
  }

  function Front(q: seq<Byte>): IntType { if q == [] then EOF else q[0] }

  /** `q` is `start` after `count` characters of `data` have been put. */
  ghost predicate PutSoFar(start: Queue, data: seq<Byte>, count: nat, q: Queue) {
    && count <= |data| && q.input == start.input + data[..count]
    && (if count <= |start.output| then q.output == start.output[count..] && q.offset == start.offset else q.offset == 0)
  }

  lemma {:induction false} PutNext(start: Queue, data: seq<Byte>, count: nat, q: Queue, r: Queue)
    requires count < |data| && PutSoFar(start, data, count, q)
    requires r.input == q.input + [data[count]]
    requires if q.output != [] then r.output == q.output[1..] && r.offset == q.offset else r.offset == 0
    ensures PutSoFar(start, data, count + 1, r)
  {
    AppendNext(start.input, data, count);
    if count < |start.output| {
      assert start.output[count..][1..] == start.output[count + 1..];
    }
  }

  lemma AppendNext(before: seq<Byte>, data: seq<Byte>, k: nat)
    requires k < |data|
    ensures (before + data[..k]) + [data[k]] == before + data[..k + 1]
  {
  }

  lemma TakeNext(taken: seq<Byte>, c: Byte, left: seq<Byte>, rest: seq<Byte>)
    requires left == [c] + rest
    ensures (taken + [c]) + rest == taken + left
  {
  }

  lemma SplitAt(taken: seq<Byte>, rest: seq<Byte>, all: seq<Byte>)
    requires taken + rest == all
    ensures taken == all[..|taken|] && rest == all[|taken|..]
  {
  }

  /** The guard of the move that `Reserve` makes too early decides for sure: `k` unread
      characters at offset `g` survive a call that throws, whatever they are, exactly
      when the offset is zero or they lie clear of the front. */
  lemma {:induction false} FailureHarmlessIff(k: nat, g: nat)
    ensures (forall c: seq<Byte> :: |c| == k ==> Periodic(c, g)) <==> g == 0 || k <= g
  {
    if 0 < g < k {
      var c: seq<Byte> := seq(k, i => if i == g then 1 else 0);
      assert c[0 + g] != c[0];
      assert !Periodic(c, g);
    }
  }

  /** A client's input changes under a call that throws: four characters are put and one
      consumed; preparing two more exceeds the maximum of four. */
  method FailedPrepareChangesInput() returns (sb: BasicStreamBuf, o: Outcome)
    ensures fresh(sb) && sb.Valid() && sb.maxSize == 4
    ensures o == LengthError && sb.Data() == [3, 4, 4]
  {
    sb := new BasicStreamBuf(4);
    var _, put := sb.Sputn([1, 2, 3, 4]);
    sb.Consume(1);
    ghost var c := sb.input;
    assert c == [2, 3, 4];
    o := sb.Prepare(2);
    assert Smeared(c, 1) == [3, 4, 4];
  }

  // ------------------------------------------------------------------ whole runs

  /** One call by a client of the buffer, and what the call hands back. */
  datatype Call =
    | Prepare(n: nat)
    | Write(data: seq<Byte>)
    | Commit(n: nat)
    | Consume(n: nat)
    | Overflow(c: IntType)
    | Underflow
    | Put(data: seq<Byte>)
    | Peek
    | Get(n: nat)

  datatype Answer = Nothing | Char(c: IntType) | Chars(data: seq<Byte>) | Threw

  /** A call throws exactly when the input sequence and what it asks room for exceed the
      maximum. */
  predicate Throws(max: nat, q: Queue, call: Call) {
    match call
    case Prepare(n) => |q.input| + n > max
    case Overflow(c) => c != EOF && |q.input| == max
    case Put(data) => |q.input| + |data| > max
    case _ => false
  }

  /** The characters a call puts: as many as fit. */
  function Puts(max: nat, q: Queue, call: Call): seq<Byte> {
    match call
    case Overflow(c) => if c == EOF || Throws(max, q, call) then [] else [c]
    case Put(data) => data[..Min(|data|, Max(max - |q.input|, 0))]
    case _ => []
  }

  /** The output sequence that a call asking for room may leave: what the old one held,
      unless that was too short; then anything long enough. */
  predicate Leaves(max: nat, q: Queue, call: Call, area: seq<Byte>) {
    match call
    case Prepare(n) => Throws(max, q, call) || (n <= |area| && (n <= |q.output| ==> area == q.output))
    case Overflow(_) => |Puts(max, q, call)| <= |q.output| ==> area == q.output[|Puts(max, q, call)|..]
    case Put(_) => |Puts(max, q, call)| <= |q.output| ==> area == q.output[|Puts(max, q, call)|..]
    case _ => true
  }

  function Append(max: nat, q: Queue, call: Call, area: seq<Byte>): Queue {
    var data := Puts(max, q, call);
    Queue(q.input + data, area, if |data| <= |q.output| then q.offset else 0)
  }

  function Drop(q: Queue, n: nat): Queue {
    var k := Min(n, |q.input|);
    Queue(q.input[k..], q.output, q.offset + k)
  }

  /** The queue of bytes a client sees: its next state and the answer. `area` is the
      output sequence left by a call that asks for room. */
  function QueueStep(max: nat, q: Queue, call: Call, area: seq<Byte>): (Queue, Answer) {
    match call
    case Prepare(n) =>
      if Throws(max, q, call) then (Queue(Smeared(q.input, q.offset), q.output, q.offset), Threw)
      else (Queue(q.input, area, if n <= |q.output| then q.offset else 0), Nothing)
    case Write(data) =>
      var k := Min(|data|, |q.output|);
      (Queue(q.input, data[..k] + q.output[k..], q.offset), Nothing)
    case Commit(n) =>
      var k := Min(n, |q.output|);
      (Queue(q.input + q.output[..k], q.output[k..], q.offset), Nothing)
    case Consume(n) => (Drop(q, n), Nothing)
    case Overflow(c) => (Append(max, q, call, area), if Throws(max, q, call) then Threw else Char(NotEof(c)))
    case Underflow => (q, Char(Front(q.input)))
    case Put(_) => (Append(max, q, call, area), if Throws(max, q, call) then Threw else Nothing)
    case Peek => (q, Char(Front(q.input)))
    case Get(n) => (Drop(q, n), Chars(q.input[..Min(n, |q.input|)]))
  }

  /** `areas` are output sequences that the calls of the script may leave. */
  predicate QueueRuns(max: nat, q: Queue, calls: seq<Call>, areas: seq<seq<Byte>>)
    requires |areas| == |calls|
    decreases |calls|
  {
    calls == []
    || (Leaves(max, q, calls[0], areas[0])
        && QueueRuns(max, QueueStep(max, q, calls[0], areas[0]).0, calls[1..], areas[1..]))
  }

  function QueueAfter(max: nat, q: Queue, calls: seq<Call>, areas: seq<seq<Byte>>): Queue
    requires |areas| == |calls|
    decreases |calls|
  {
    if calls == [] then q else QueueAfter(max, QueueStep(max, q, calls[0], areas[0]).0, calls[1..], areas[1..])
  }

  function Answers(max: nat, q: Queue, calls: seq<Call>, areas: seq<seq<Byte>>): seq<Answer>
    requires |areas| == |calls|
    decreases |calls|
  {
    if calls == [] then []
    else
      var (next, answer) := QueueStep(max, q, calls[0], areas[0]);
      [answer] + Answers(max, next, calls[1..], areas[1..])
  }

  /** The script gets the queue from `q` to `r` with these answers. */
  ghost predicate Follows(max: nat, q: Queue, calls: seq<Call>, areas: seq<seq<Byte>>, answers: seq<Answer>, r: Queue) {
    && |areas| == |calls| && QueueRuns(max, q, calls, areas)
    && answers == Answers(max, q, calls, areas) && r == QueueAfter(max, q, calls, areas)
  }

  lemma {:induction false} FollowsSnoc(max: nat, q: Queue, calls: seq<Call>, areas: seq<seq<Byte>>,
                                       answers: seq<Answer>, r: Queue, call: Call, area: seq<Byte>)
    requires Follows(max, q, calls, areas, answers, r) && Leaves(max, r, call, area)
    ensures var (next, answer) := QueueStep(max, r, call, area);
      Follows(max, q, calls + [call], areas + [area], answers + [answer], next)
    decreases |calls|
  {
    if calls == [] {
      assert calls + [call] == [call] && areas + [area] == [area];
    } else {
      var next := QueueStep(max, q, calls[0], areas[0]).0;
      FollowsSnoc(max, next, calls[1..], areas[1..], answers[1..], r, call, area);
      assert (calls + [call])[1..] == calls[1..] + [call];
      assert (areas + [area])[1..] == areas[1..] + [area];
    }
  }

  // ------------------------------------------------------------------ first in, first out

  /** What leaves the input sequence in one call, and in a run. */
  function Leaving(q: Queue, call: Call): seq<Byte> {
    if call.Consume? || call.Get? then q.input[..Min(call.n, |q.input|)] else []
  }

  function Drained(max: nat, q: Queue, calls: seq<Call>, areas: seq<seq<Byte>>): seq<Byte>
    requires |areas| == |calls|
    decreases |calls|
  {
    if calls == [] then []
    else Leaving(q, calls[0]) + Drained(max, QueueStep(max, q, calls[0], areas[0]).0, calls[1..], areas[1..])
  }

  /** What enters it: characters put, and those committed from the output sequence. */
  function Entering(max: nat, q: Queue, call: Call): seq<Byte> {
    if call.Commit? then q.output[..Min(call.n, |q.output|)] else Puts(max, q, call)
  }

  function Supplied(max: nat, q: Queue, calls: seq<Call>, areas: seq<seq<Byte>>): seq<Byte>
    requires |areas| == |calls|
    decreases |calls|
  {
    if calls == [] then []
    else Entering(max, q, calls[0]) + Supplied(max, QueueStep(max, q, calls[0], areas[0]).0, calls[1..], areas[1..])
  }

  /** The call is not a `prepare` that throws - or the input sequence repeats with the
      offset at which it lies. */
  predicate Harmless(max: nat, q: Queue, call: Call) {
    call.Prepare? && Throws(max, q, call) ==> Periodic(q.input, q.offset)
  }

  predicate AllHarmless(max: nat, q: Queue, calls: seq<Call>, areas: seq<seq<Byte>>)
    requires |areas| == |calls|
    decreases |calls|
  {
    calls == []
    || (Harmless(max, q, calls[0])
        && AllHarmless(max, QueueStep(max, q, calls[0], areas[0]).0, calls[1..], areas[1..]))
  }

  /** At every moment from `q` on, all taken out so far followed by what is left is all
      put in so far. `taken` and `put` are the shares of what came before. */
  predicate AlwaysConserved(max: nat, q: Queue, calls: seq<Call>, areas: seq<seq<Byte>>, taken: seq<Byte>, put: seq<Byte>)
    requires |areas| == |calls|
    decreases |calls|
  {
    && taken + q.input == put
    && (calls == []
        || AlwaysConserved(max, QueueStep(max, q, calls[0], areas[0]).0, calls[1..], areas[1..],
                           taken + Leaving(q, calls[0]), put + Entering(max, q, calls[0])))
  }

  lemma {:induction false} PrepareConservesIff(max: nat, q: Queue, n: nat, area: seq<Byte>)
    ensures QueueStep(max, q, Prepare(n), area).0.input == q.input <==> Harmless(max, q, Prepare(n))
  {
    SmearedIff(q.input, q.offset);
  }

  lemma {:induction false} DropConserves(q: Queue, n: nat)
    ensures q.input[..Min(n, |q.input|)] + Drop(q, n).input == q.input
  {
  }

  lemma {:induction false} CallConservesIff(max: nat, q: Queue, call: Call, area: seq<Byte>)
    ensures Leaving(q, call) + QueueStep(max, q, call, area).0.input == q.input + Entering(max, q, call)
       <==> Harmless(max, q, call)
  {
    var next := QueueStep(max, q, call, area).0.input;
    assert [] + next == next && q.input + [] == q.input;
    if call.Prepare? {
      PrepareConservesIff(max, q, call.n, area);
    } else if call.Consume? || call.Get? {
      DropConserves(q, call.n);
    }
  }

  lemma CancelIff(taken: seq<Byte>, put: seq<Byte>, now: seq<Byte>, l: seq<Byte>, next: seq<Byte>, e: seq<Byte>)
    requires taken + now == put
    ensures (taken + l) + next == put + e <==> l + next == now + e
  {
    assert (taken + l) + next == taken + (l + next) && put + e == taken + (now + e);
    assert (taken + (l + next))[|taken|..] == l + next && (taken + (now + e))[|taken|..] == now + e;
  }

  /** Exceptions included, a client gets out what was put in, in order, at every moment of
      a run, exactly when no `prepare` throws on an input sequence that does not repeat
      with its offset. */
  lemma {:induction false} AlwaysConservedIff(max: nat, q: Queue, calls: seq<Call>, areas: seq<seq<Byte>>,
                                              taken: seq<Byte>, put: seq<Byte>)
    requires |areas| == |calls| && taken + q.input == put
    ensures AlwaysConserved(max, q, calls, areas, taken, put) <==> AllHarmless(max, q, calls, areas)
    decreases |calls|
  {
    if calls != [] {
      var next := QueueStep(max, q, calls[0], areas[0]).0;
      var l, e := Leaving(q, calls[0]), Entering(max, q, calls[0]);
      CallConservesIff(max, q, calls[0], areas[0]);
      CancelIff(taken, put, q.input, l, next.input, e);
      if Harmless(max, q, calls[0]) {
        AlwaysConservedIff(max, next, calls[1..], areas[1..], taken + l, put + e);
      }
    }
  }

  lemma Regroup(l: seq<Byte>, d: seq<Byte>, r: seq<Byte>, next: seq<Byte>, s: seq<Byte>, q: seq<Byte>, e: seq<Byte>)
    requires d + r == next + s && l + next == q + e
    ensures (l + d) + r == q + (e + s)
  {
    assert (l + d) + r == l + (d + r) == l + (next + s) == (l + next) + s == (q + e) + s;
  }

  /** First in, first out: everything taken out followed by what is left is what was there
      followed by everything put in or committed. */
  lemma {:induction false} FirstInFirstOut(max: nat, q: Queue, calls: seq<Call>, areas: seq<seq<Byte>>)
    requires |areas| == |calls| && AllHarmless(max, q, calls, areas)
    ensures Drained(max, q, calls, areas) + QueueAfter(max, q, calls, areas).input == q.input + Supplied(max, q, calls, areas)
    decreases |calls|
  {
    if calls != [] {
      CallConservesIff(max, q, calls[0], areas[0]);
      var next := QueueStep(max, q, calls[0], areas[0]).0;
      FirstInFirstOut(max, next, calls[1..], areas[1..]);
      Regroup(Leaving(q, calls[0]), Drained(max, next, calls[1..], areas[1..]),
              QueueAfter(max, next, calls[1..], areas[1..]).input,
              next.input, Supplied(max, next, calls[1..], areas[1..]), q.input, Entering(max, q, calls[0]));
    }
  }

  /** The characters that the reads of a script deliver. */
  function Delivered(answers: seq<Answer>): seq<Byte> {
    if answers == [] then []
    else (if answers[0].Chars? then answers[0].data else []) + Delivered(answers[1..])
  }

  /** What is taken out is what the reads deliver, unless some of it is consumed unseen. */
  lemma {:induction false} ReadsDeliverDrained(max: nat, q: Queue, calls: seq<Call>, areas: seq<seq<Byte>>)
    requires |areas| == |calls| && forall call :: call in calls ==> !call.Consume?
    ensures Delivered(Answers(max, q, calls, areas)) == Drained(max, q, calls, areas)
    decreases |calls|
  {
    if calls != [] {
      assert calls[0] in calls;
      var (next, answer) := QueueStep(max, q, calls[0], areas[0]);
      ReadsDeliverDrained(max, next, calls[1..], areas[1..]);
      assert Answers(max, q, calls, areas)[1..] == Answers(max, next, calls[1..], areas[1..]);
    }
  }

  /** Committing part of what was written appends that part and leaves the rest to be
      committed. */
  lemma {:induction false} WriteThenCommit(max: nat, q: Queue, data: seq<Byte>, k: nat)
    requires k <= |data| <= |q.output|
    ensures QueueStep(max, QueueStep(max, q, Write(data), []).0, Commit(k), []).0
         == Queue(q.input + data[..k], data[k..] + q.output[|data|..], q.offset)
  {
    var rest := q.output[|data|..];
    assert (data + rest)[..k] == data[..k] && (data + rest)[k..] == data[k..] + rest;
  }

  // ------------------------------------------------------------------ the class does what the queue does

  /** The calls that put characters. */
  method MakePut(sb: BasicStreamBuf, call: Call) returns (a: Answer)
    requires sb.Valid() && (call.Overflow? || call.Put?)
    modifies sb, sb.buffer
    ensures sb.Valid() && (sb.buffer == old(sb.buffer) || fresh(sb.buffer))
    ensures (sb.State(), a) == QueueStep(sb.maxSize, old(sb.State()), call, sb.output)
    ensures Leaves(sb.maxSize, old(sb.State()), call, sb.output)
  {
    assert sb.input + [] == sb.input;
    match call
    case Overflow(c) =>
      var r, o := sb.Overflow(c);
      a := if o == LengthError then Threw else Char(r);
    case Put(data) =>
      var _, o := sb.Sputn(data);
      a := if o == LengthError then Threw else Nothing;
  }

  /** The calls that leave the output sequence alone. */
  method MakeRead(sb: BasicStreamBuf, call: Call) returns (a: Answer)
    requires sb.Valid() && (call.Consume? || call.Underflow? || call.Peek? || call.Get?)
    modifies sb`eback, sb`egptr, sb`gptr, sb`input
    ensures sb.Valid() && (sb.State(), a) == QueueStep(sb.maxSize, old(sb.State()), call, old(sb.output))
  {
    match call
    case Consume(n) =>
      sb.Consume(n);
      a := Nothing;
    case Underflow =>
      var c := sb.Underflow();
      a := Char(c);
    case Peek =>
      var c := sb.Sgetc();
      a := Char(c);
    case Get(n) =>
      var data := sb.Sgetn(n);
      a := Chars(data);
  }

  /** Each call on the array throws exactly when the queue says so, and does what the
      queue does, with the output sequence it leaves. */
  method Make(sb: BasicStreamBuf, call: Call) returns (a: Answer)
    requires sb.Valid()
    modifies sb, sb.buffer
    ensures sb.Valid() && (sb.buffer == old(sb.buffer) || fresh(sb.buffer))
    ensures (sb.State(), a) == QueueStep(sb.maxSize, old(sb.State()), call, sb.output)
    ensures Leaves(sb.maxSize, old(sb.State()), call, sb.output)
  {
    a := Nothing;
    match call
    case Prepare(n) =>
      var o := sb.Prepare(n);
      a := if o == LengthError then Threw else Nothing;
    case Write(data) =>
      sb.Fill(data[..Min(|data|, sb.epptr - sb.pptr)]);
    case Commit(n) =>
      sb.Commit(n);
    case Overflow(_) =>
      a := MakePut(sb, call);
    case Put(_) =>
      a := MakePut(sb, call);
    case _ =>
      a := MakeRead(sb, call);
  }

  lemma TakeOneMore(calls: seq<Call>, i: nat)
    requires i < |calls|
    ensures calls[..i] + [calls[i]] == calls[..i + 1]
  {
  }

  /** One more call of a script. */
  method MakeNext(sb: BasicStreamBuf, calls: seq<Call>, i: nat, ghost q: Queue,
                  ghost areas: seq<seq<Byte>>, ghost answers: seq<Answer>)
    returns (a: Answer)
    requires i < |calls| && sb.Valid() && Follows(sb.maxSize, q, calls[..i], areas, answers, sb.State())
    modifies sb, sb.buffer
    ensures sb.Valid() && (sb.buffer == old(sb.buffer) || fresh(sb.buffer))
    ensures Follows(sb.maxSize, q, calls[..i + 1], areas + [sb.output], answers + [a], sb.State())
  {
    ghost var r := sb.State();
    a := Make(sb, calls[i]);
    TakeOneMore(calls, i);
    FollowsSnoc(sb.maxSize, q, calls[..i], areas, answers, r, calls[i], sb.output);
  }

  /** Refinement: for every script, past any exceptions, the array-backed buffer throws
      where the bounded queue does and nowhere else, gives the same answers and ends in
      the same state, through every compaction and growth. It is first in, first out
      unless a `prepare` that throws garbles the input sequence. */
  method Run(sb: BasicStreamBuf, calls: seq<Call>) returns (answers: seq<Answer>, ghost areas: seq<seq<Byte>>)
    requires sb.Valid()
    modifies sb, sb.buffer
    ensures sb.Valid()
    ensures Follows(sb.maxSize, old(sb.State()), calls, areas, answers, sb.State())
    ensures AlwaysConserved(sb.maxSize, old(sb.State()), calls, areas, [], old(sb.input))
       <==> AllHarmless(sb.maxSize, old(sb.State()), calls, areas)
    ensures AllHarmless(sb.maxSize, old(sb.State()), calls, areas) ==>
      Drained(sb.maxSize, old(sb.State()), calls, areas) + sb.input
        == old(sb.input) + Supplied(sb.maxSize, old(sb.State()), calls, areas)
  {
    ghost var start := sb.State();
    answers, areas := [], [];
    for i := 0 to |calls|
      invariant sb.Valid() && (sb.buffer == old(sb.buffer) || fresh(sb.buffer))
      invariant |areas| == i
      invariant Follows(sb.maxSize, start, calls[..i], areas, answers, sb.State())
    {
      var answer := MakeNext(sb, calls, i, start, areas, answers);
      answers, areas := answers + [answer], areas + [sb.output];
    }
    assert calls[..|calls|] == calls;
    AlwaysConservedIff(sb.maxSize, start, calls, areas, [], start.input);
    if AllHarmless(sb.maxSize, start, calls, areas) {
      FirstInFirstOut(sb.maxSize, start, calls, areas);
    }
  }
}
