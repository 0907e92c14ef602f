/**
  `asio::basic_socket_streambuf`: the flush, fill and connect loops over a socket that
  may take or give any number of bytes, ask to be retried, or fail.

  The socket and the clock are an oracle: each pass of a loop is described by one
  record of what they answered. A loop that runs out of records is still waiting, so
  every finite prefix of every behaviour of the peer is covered.
 */
module SocketStreamBuf {
  import opened Prelude

  const BUFFER_SIZE := 512
  const PUTBACK_MAX := 8

  datatype ErrorCode = Clear | NotFound | Expired | EndOfFile | WouldBlock | TryAgain | InProgress | Other(n: nat)
  {
    predicate Retry() { WouldBlock? || TryAgain? }
  }

  /** What a call gave back, if it has come back. */
  datatype Reply = Returned(c: IntType) | Waiting

  // ------------------------------------------------------------------ flushing

  /** One pass of the flush loop: clock, `send`, and - if that failed - `poll_write`. */
  datatype SendPass = SendPass(expired: bool, sent: int, sendError: ErrorCode, poll: int, pollError: ErrorCode)
  {
    function ErrorAfterSend(): ErrorCode { if sent < 0 then sendError else Clear }
    predicate Fatal() { expired || (sent <= 0 && (!ErrorAfterSend().Retry() || poll < 0)) }
    function FatalError(): ErrorCode {
      if expired then Expired else if !ErrorAfterSend().Retry() then ErrorAfterSend() else pollError
    }
    function Progress(): nat { if sent > 0 then sent else 0 }
  }

  /** The socket was busy, and has become ready again. */
  predicate SendRetried(pass: SendPass) {
    !pass.expired && pass.sent < 0 && (pass.sendError == WouldBlock || pass.sendError == TryAgain) && pass.poll >= 0
  }

  /** The flush goes on after this pass. */
  predicate GoesOn(pass: SendPass) {
    (!pass.expired && pass.sent > 0) || SendRetried(pass)
  }

  /** The flush fails in this pass, with this error. */
  predicate FailsWith(pass: SendPass, e: ErrorCode) {
    if pass.expired then e == Expired
    else if pass.sent > 0 then false
    else if pass.sent == 0 then e == Clear
    else if pass.sendError != WouldBlock && pass.sendError != TryAgain then e == pass.sendError
    else pass.poll < 0 && e == pass.pollError
  }

  function TotalProgress(passes: seq<SendPass>): nat {
    if passes == [] then 0 else passes[0].Progress() + TotalProgress(passes[1..])
  }

  datatype FlushEnd = Flushed | FlushFailed(error: ErrorCode) | FlushWaiting

  /** How a flush of `size` bytes ends and how many of them it has sent by then. */
  function FlushRun(size: nat, passes: seq<SendPass>): (FlushEnd, nat)
    decreases |passes|
  {
    if size == 0 then (Flushed, 0)
    else if passes == [] then (FlushWaiting, 0)
    else if passes[0].Fatal() then (FlushFailed(passes[0].FatalError()), 0)
    else
      var now := Min(passes[0].Progress(), size);
      var (end, later) := FlushRun(size - now, passes[1..]);
      (end, now + later)
  }

  /** `k` passes after which the flush goes on, in which the peer takes `size` bytes. */
  ghost predicate Enough(size: nat, passes: seq<SendPass>, k: nat) {
    && k <= |passes|
    && size <= TotalProgress(passes[..k])
    && forall i :: 0 <= i < k ==> GoesOn(passes[i])
  }

  lemma {:induction false} EnoughCons(size: nat, passes: seq<SendPass>, k: nat)
    requires size > 0 && passes != [] && !passes[0].Fatal()
    ensures Enough(size, passes, k + 1) <==> Enough(size - Min(passes[0].Progress(), size), passes[1..], k)
  {
    if k < |passes| {
      assert passes[..k + 1][1..] == passes[1..][..k];
      assert (forall i :: 0 <= i < k ==> passes[1..][i] == passes[i + 1]);
      assert (forall i :: 0 < i < k + 1 ==> passes[i] == passes[1..][i - 1]);
    }
  }

  /** A flush succeeds exactly when the peer takes enough bytes, in whatever pieces, before
      any pass other than a send that moves bytes or a wait for a busy socket; then all
      have been sent, and otherwise fewer. */
  lemma {:induction false} FlushSucceedsIff(size: nat, passes: seq<SendPass>)
    ensures FlushRun(size, passes).0.Flushed? <==> exists k :: Enough(size, passes, k)
    ensures FlushRun(size, passes).0.Flushed? <==> FlushRun(size, passes).1 == size
    ensures FlushRun(size, passes).1 <= size
    decreases |passes|
  {
    if size == 0 {
      assert Enough(size, passes, 0);
    } else if passes != [] && !passes[0].Fatal() {
      var left := size - Min(passes[0].Progress(), size);
      FlushSucceedsIff(left, passes[1..]);
      if k: nat :| Enough(left, passes[1..], k) {
        EnoughCons(size, passes, k);
        assert Enough(size, passes, k + 1);
      } else if j: nat :| Enough(size, passes, j) {
        assert TotalProgress(passes[..0]) == 0;
        EnoughCons(size, passes, j - 1);
      }
    }
  }

  /** The flush goes on up to pass `k` and fails there, and the peer has not taken `size`
      bytes by then. */
  ghost predicate FailsAt(size: nat, passes: seq<SendPass>, k: nat, e: ErrorCode) {
    && k < |passes| && FailsWith(passes[k], e)
    && TotalProgress(passes[..k]) < size
    && forall i :: 0 <= i < k ==> GoesOn(passes[i])
  }

  lemma {:induction false} FailsAtCons(size: nat, passes: seq<SendPass>, k: nat, e: ErrorCode)
    requires size > 0 && passes != [] && !passes[0].Fatal()
    ensures FailsAt(size, passes, k + 1, e) <==> FailsAt(size - Min(passes[0].Progress(), size), passes[1..], k, e)
    ensures k < |passes[1..]| ==> TotalProgress(passes[..k + 1]) == passes[0].Progress() + TotalProgress(passes[1..][..k])
  {
    if k + 1 < |passes| {
      assert passes[..k + 1][1..] == passes[1..][..k];
      assert passes[1..][k] == passes[k + 1];
      assert (forall i :: 0 <= i < k ==> passes[1..][i] == passes[i + 1]);
      assert (forall i :: 0 < i < k + 1 ==> passes[i] == passes[1..][i - 1]);
    }
  }

  /** A flush fails exactly when it goes on up to some pass and fails there before the peer
      has taken enough, with that pass's error; it has then sent what was taken before. */
  lemma {:induction false} FlushFailsIff(size: nat, passes: seq<SendPass>)
    ensures FlushRun(size, passes).0.FlushFailed? <==> exists k: nat, e :: FailsAt(size, passes, k, e)
    ensures forall k: nat, e :: FailsAt(size, passes, k, e) ==>
      FlushRun(size, passes) == (FlushFailed(e), TotalProgress(passes[..k]))
    decreases |passes|
  {
    if size > 0 && passes != [] {
      if passes[0].Fatal() {
        assert passes[..0] == [];
        assert FailsAt(size, passes, 0, passes[0].FatalError());
      } else {
        var left := size - Min(passes[0].Progress(), size);
        FlushFailsIff(left, passes[1..]);
        if j: nat, e :| FailsAt(left, passes[1..], j, e) {
          FailsAtCons(size, passes, j, e);
        }
        forall k: nat, e | FailsAt(size, passes, k, e)
          ensures FlushRun(size, passes) == (FlushFailed(e), TotalProgress(passes[..k]))
        {
          FailsAtCons(size, passes, k - 1, e);
        }
      }
    }
  }

  /** Waiting for a busy socket changes nothing, wherever in the flush it happens. */
  lemma {:induction false} RetryDropped(size: nat, before: seq<SendPass>, pass: SendPass, after: seq<SendPass>)
    requires SendRetried(pass)
    ensures FlushRun(size, before + [pass] + after) == FlushRun(size, before + after)
    decreases |before|
  {
    if before == [] {
      assert ([] + [pass] + after)[1..] == after && [] + after == after;
    } else {
      assert (before + [pass] + after)[1..] == before[1..] + [pass] + after;
      assert (before + after)[1..] == before[1..] + after;
      if size > 0 && !before[0].Fatal() {
        RetryDropped(size - Min(before[0].Progress(), size), before[1..], pass, after);
      }
    }
  }

  /** The peer takes nothing before the first fatal pass, if there is one. */
  predicate Quiet(passes: seq<SendPass>) {
    passes == [] || passes[0].Fatal() || (passes[0].Progress() == 0 && Quiet(passes[1..]))
  }

  /** A flush that does not succeed has sent nothing exactly when its passes are quiet. */
  lemma {:induction false} NothingSentIff(size: nat, passes: seq<SendPass>)
    requires !FlushRun(size, passes).0.Flushed?
    ensures FlushRun(size, passes).1 == 0 <==> Quiet(passes)
    decreases |passes|
  {
    if passes != [] && !passes[0].Fatal() {
      NothingSentIff(size - Min(passes[0].Progress(), size), passes[1..]);
    }
  }

  // ------------------------------------------------------------------ what a writer sees

  /** One call by a writer with the oracle's answers to its flush, if it flushes. */
  datatype WriteCall =
    | Put(c: Byte, passes: seq<SendPass>)
    | Sync(passes: seq<SendPass>)
    | SetBuf(isNull: bool, n: int)

  datatype Outcome = Succeeded | Failed | Unfinished

  /** The output side as a value: what the kernel has taken, what is pending, and how
      much may be pending. */
  datatype Pipe = Pipe(wire: seq<Byte>, area: seq<Byte>, room: nat)
  {
    function Output(): seq<Byte> { wire + area }

    /** Sends `pending`; once all of it is sent, `area` is what is pending next. */
    function Flush(pending: seq<Byte>, passes: seq<SendPass>, next: seq<Byte>): (Pipe, Outcome) {
      FlushSucceedsIff(|pending|, passes);
      var (end, sent) := FlushRun(|pending|, passes);
      match end
      case Flushed => (Pipe(wire + pending, next, room), Succeeded)
      case FlushFailed(_) => (Pipe(wire + pending[..sent], area, room), Failed)
      case FlushWaiting => (Pipe(wire + pending[..sent], area, room), Unfinished)
    }

    function Step(call: WriteCall): (Pipe, Outcome) {
      match call
      case Put(c, passes) =>
        if |area| < room then (Pipe(wire, area + [c], room), Succeeded)
        else if room == 0 then Flush([c], passes, area)
        else Flush(area, passes, [c])
      case Sync(passes) => Flush(area, passes, [])
      case SetBuf(isNull, n) => (if area == [] && isNull && n == 0 then Pipe(wire, area, 0) else this, Succeeded)
    }
  }

  /** The calls one after the other, the failed ones included; after a call that has not
      come back there is none. */
  function PipeRun(p: Pipe, calls: seq<WriteCall>): Pipe
    decreases |calls|
  {
    if calls == [] then p
    else
      var (q, outcome) := p.Step(calls[0]);
      if outcome.Unfinished? then q else PipeRun(q, calls[1..])
  }

  /** The bytes of the puts that succeeded. */
  function Accepted(p: Pipe, calls: seq<WriteCall>): seq<Byte>
    decreases |calls|
  {
    if calls == [] then []
    else
      var (q, outcome) := p.Step(calls[0]);
      if outcome.Unfinished? then []
      else (if calls[0].Put? && outcome.Succeeded? then [calls[0].c] else []) + Accepted(q, calls[1..])
  }

  /** No call that failed, or has not come back, has sent anything. */
  predicate NothingResent(p: Pipe, calls: seq<WriteCall>)
    decreases |calls|
  {
    calls == []
    || var (q, outcome) := p.Step(calls[0]);
       && (outcome.Succeeded? || Quiet(calls[0].passes))
       && (outcome.Unfinished? || NothingResent(q, calls[1..]))
  }

  /** What a call adds to the output: the byte it accepts, and a second copy of whatever
      it sent of the pending bytes if it did not succeed. */
  lemma {:induction false} StepOutput(p: Pipe, call: WriteCall)
    requires |p.area| <= p.room
    ensures var (q, outcome) := p.Step(call);
      && |q.area| <= q.room
      && (outcome.Succeeded? ==> q.Output() == p.Output() + (if call.Put? then [call.c] else []))
      && (!outcome.Succeeded? ==>
            && !call.SetBuf? && q.area == p.area
            && p.wire <= q.wire <= p.Output()
            && |q.Output()| >= |p.Output()|
            && (q == p <==> Quiet(call.passes))
            && (|q.Output()| == |p.Output()| <==> Quiet(call.passes)))
  {
    if !call.SetBuf? {
      var pending := if call.Put? && p.room == 0 then [call.c] else p.area;
      FlushSucceedsIff(|pending|, call.passes);
      if !FlushRun(|pending|, call.passes).0.Flushed? {
        NothingSentIff(|pending|, call.passes);
      }
      if p.room == 0 {
        assert p.area == [];
      }
    }
  }

  /** Bytes are sent only when the buffer is full, or when a flush is asked for, and then
      all of them; an unbuffered byte is sent at once. */
  lemma {:induction false} SendsOnlyWhenFull(p: Pipe, call: WriteCall)
    requires |p.area| <= p.room && p.Step(call).1.Succeeded?
    ensures var q := p.Step(call).0;
      match call
      case Put(c, _) =>
        if |p.area| < p.room then q == Pipe(p.wire, p.area + [c], p.room)
        else if p.room > 0 then q == Pipe(p.Output(), [c], p.room)
        else q == Pipe(p.wire + [c], [], 0)
      case Sync(_) => q == Pipe(p.Output(), [], p.room)
      case SetBuf(isNull, n) =>
        q == if isNull && n == 0 && p.area == [] then Pipe(p.wire, [], 0) else p
  {
  }

  /** Exactly once over whole runs, failed calls and their retries included. The output is
      never shorter than what was accepted; and it is what was accepted, in order, with no
      byte repeated, exactly when no call that failed had sent anything first. */
  lemma {:induction false} ExactlyOnceIff(p: Pipe, calls: seq<WriteCall>)
    requires |p.area| <= p.room
    ensures var q := PipeRun(p, calls);
      && |q.area| <= q.room
      && |q.Output()| >= |p.Output()| + |Accepted(p, calls)|
      && (NothingResent(p, calls) ==> q.Output() == p.Output() + Accepted(p, calls))
      && (!NothingResent(p, calls) ==> |q.Output()| > |p.Output()| + |Accepted(p, calls)|)
    decreases |calls|
  {
    if calls == [] {
      assert p.Output() + [] == p.Output();
    } else {
      var (q, outcome) := p.Step(calls[0]);
      StepOutput(p, calls[0]);
      if outcome.Unfinished? {
        assert p.Output() + [] == p.Output();
      } else {
        ExactlyOnceIff(q, calls[1..]);
        var first := if calls[0].Put? && outcome.Succeeded? then [calls[0].c] else [];
        assert p.Output() + (first + Accepted(q, calls[1..])) == (p.Output() + first) + Accepted(q, calls[1..]);
      }
    }
  }

  /** `a` is what is left of `b` when some elements are crossed out. */
  ghost predicate Subsequence(a: seq<Byte>, b: seq<Byte>)
    decreases |b|
  {
    a == [] || (b != [] && (Subsequence(a, b[1..]) || (a[0] == b[0] && Subsequence(a[1..], b[1..]))))
  }

  lemma {:induction false} SubsequenceInserted(x: seq<Byte>, y: seq<Byte>, m: seq<Byte>)
    ensures Subsequence(x + y, x + m + y)
    decreases |x| + |m| + |y|
  {
    if x != [] {
      SubsequenceInserted(x[1..], y, m);
      assert (x + y)[1..] == x[1..] + y && (x + m + y)[1..] == x[1..] + m + y;
    } else if m != [] {
      SubsequenceInserted(x, y, m[1..]);
      assert x + y == y && (x + m + y)[1..] == x + m[1..] + y;
    } else if y != [] {
      SubsequenceInserted(x, y[1..], m);
      assert (x + y)[1..] == x + y[1..] && (x + m + y)[1..] == x + m + y[1..];
    }
  }

  lemma {:induction false} SubsequenceTransitive(a: seq<Byte>, b: seq<Byte>, c: seq<Byte>)
    requires Subsequence(a, b) && Subsequence(b, c)
    ensures Subsequence(a, c)
    decreases |c|
  {
    if a != [] {
      if Subsequence(b, c[1..]) {
        SubsequenceTransitive(a, b, c[1..]);
      } else if Subsequence(a, b[1..]) {
        SubsequenceTransitive(a, b[1..], c[1..]);
      } else {
        SubsequenceTransitive(a[1..], b[1..], c[1..]);
      }
    }
  }

  lemma {:induction false} SubsequenceTaken(out: seq<Byte>, taken: seq<Byte>, rest: seq<Byte>)
    ensures Subsequence(out + (taken + rest), (out + taken) + rest)
  {
    SubsequenceInserted(out + taken, rest, []);
    assert (out + taken) + [] + rest == (out + taken) + rest == out + (taken + rest);
  }

  lemma {:induction false} SubsequenceResent(wire: seq<Byte>, again: seq<Byte>, area: seq<Byte>, rest: seq<Byte>)
    ensures Subsequence((wire + area) + ([] + rest), ((wire + again) + area) + rest)
  {
    SubsequenceInserted(wire, area + rest, again);
    assert wire + (area + rest) == (wire + area) + ([] + rest);
    assert wire + again + (area + rest) == ((wire + again) + area) + rest;
  }

  lemma {:induction false} StepLosesNothing(p: Pipe, call: WriteCall, rest: seq<Byte>)
    requires |p.area| <= p.room
    ensures var (q, outcome) := p.Step(call);
      var taken := if call.Put? && outcome.Succeeded? then [call.c] else [];
      Subsequence(p.Output() + (taken + rest), q.Output() + rest)
  {
    StepOutput(p, call);
    var (q, outcome) := p.Step(call);
    if outcome.Succeeded? {
      SubsequenceTaken(p.Output(), if call.Put? then [call.c] else [], rest);
    } else {
      SubsequenceResent(p.wire, q.wire[|p.wire|..], p.area, rest);
      assert p.wire + q.wire[|p.wire|..] == q.wire;
    }
  }

  /** Nothing accepted is ever lost, whatever fails: crossing out what was sent twice
      leaves the accepted bytes, all of them and in order. */
  lemma {:induction false} NothingLost(p: Pipe, calls: seq<WriteCall>)
    requires |p.area| <= p.room
    ensures Subsequence(p.Output() + Accepted(p, calls), PipeRun(p, calls).Output())
    decreases |calls|
  {
    if calls == [] {
      SubsequenceInserted(p.Output(), [], []);
      assert p.Output() + [] + [] == p.Output() + [] == p.Output();
    } else {
      var (q, outcome) := p.Step(calls[0]);
      var rest := if outcome.Unfinished? then [] else Accepted(q, calls[1..]);
      StepLosesNothing(p, calls[0], rest);
      if outcome.Unfinished? {
        assert q.Output() + [] == q.Output() && [] + rest == [];
      } else {
        StepOutput(p, calls[0]);
        NothingLost(q, calls[1..]);
        SubsequenceTransitive(p.Output() + Accepted(p, calls), q.Output() + rest, PipeRun(p, calls).Output());
      }
    }
  }

  /** Up to the first call that fails after sending, the wire carries a prefix of what was
      accepted, that call included. */
  lemma {:induction false} FailingCallSendsPrefix(p: Pipe, calls: seq<WriteCall>, call: WriteCall)
    requires |p.area| <= p.room && NothingResent(p, calls)
    requires !PipeRun(p, calls).Step(call).1.Succeeded?
    ensures PipeRun(p, calls).wire <= PipeRun(p, calls).Step(call).0.wire <= p.Output() + Accepted(p, calls)
  {
    ExactlyOnceIff(p, calls);
    StepOutput(PipeRun(p, calls), call);
  }

  /** A flush that fails and the one that then succeeds put on the wire what the first one
      had sent and then everything pending, from its beginning. */
  lemma {:induction false} RetryResends(p: Pipe, k: nat, e: ErrorCode, first: seq<SendPass>, second: seq<SendPass>)
    requires FailsAt(|p.area|, first, k, e)
    requires FlushRun(|p.area|, second).0.Flushed?
    ensures var q := PipeRun(p, [Sync(first), Sync(second)]);
      && TotalProgress(first[..k]) < |p.area|
      && q.wire == p.wire + p.area[..TotalProgress(first[..k])] + p.area
      && q.area == []
  {
    FlushFailsIff(|p.area|, first);
    var calls := [Sync(first), Sync(second)];
    var failed := Pipe(p.wire + p.area[..TotalProgress(first[..k])], p.area, p.room);
    assert p.Step(calls[0]) == (failed, Failed);
    assert PipeRun(p, calls) == PipeRun(failed, [Sync(second)]);
    assert failed.Step(Sync(second)) == (Pipe(failed.wire + p.area, [], p.room), Succeeded);
    assert [Sync(second)][1..] == [];
  }

  // ------------------------------------------------------------------ filling

  /** One pass of the fill loop; no data means end of file. */
  datatype ReceivePass = ReceivePass(expired: bool, failed: bool, data: seq<Byte>, receiveError: ErrorCode,
                                     poll: int, pollError: ErrorCode)

  datatype FillEnd = Filled(data: seq<Byte>) | FillFailed(error: ErrorCode) | FillWaiting

  /** How a fill ends: the first pass that is not a successful wait decides, and one
      `recv` gives at most what fits behind the putback margin. */
  function FillRun(passes: seq<ReceivePass>): (end: FillEnd)
    ensures end.Filled? ==> 0 < |end.data| <= BUFFER_SIZE - PUTBACK_MAX
    ensures end.Filled? ==> exists i :: 0 <= i < |passes| && end.data <= passes[i].data
  {
    if passes == [] then FillWaiting
    else
      var pass := passes[0];
      if pass.expired then FillFailed(Expired)
      else if !pass.failed then
        if pass.data == [] then FillFailed(EndOfFile)
        else Filled(pass.data[..Min(|pass.data|, BUFFER_SIZE - PUTBACK_MAX)])
      else if !pass.receiveError.Retry() then FillFailed(pass.receiveError)
      else if pass.poll < 0 then FillFailed(pass.pollError)
      else
        var rest := FillRun(passes[1..]);
        assert rest.Filled? ==> exists i :: 0 <= i < |passes[1..]| && rest.data <= passes[1..][i].data;
        rest
  }

  /** The socket had nothing yet, and has become readable. */
  predicate ReceiveRetried(pass: ReceivePass) {
    && !pass.expired && pass.failed && pass.poll >= 0
    && (pass.receiveError == WouldBlock || pass.receiveError == TryAgain)
  }

  /** The fill gets this data in this pass. */
  predicate Receives(pass: ReceivePass, data: seq<Byte>) {
    && !pass.expired && !pass.failed && pass.data != []
    && data == pass.data[..Min(|pass.data|, BUFFER_SIZE - PUTBACK_MAX)]
  }

  /** The fill fails in this pass, with this error. */
  predicate ReceiveFailsWith(pass: ReceivePass, e: ErrorCode) {
    if pass.expired then e == Expired
    else if !pass.failed then pass.data == [] && e == EndOfFile
    else if pass.receiveError != WouldBlock && pass.receiveError != TryAgain then e == pass.receiveError
    else pass.poll < 0 && e == pass.pollError
  }

  /** Every pass before pass `k` was a wait for data. */
  ghost predicate WaitsUntil(passes: seq<ReceivePass>, k: nat) {
    k <= |passes| && forall i :: 0 <= i < k ==> ReceiveRetried(passes[i])
  }

  lemma {:induction false} WaitsNext(passes: seq<ReceivePass>, k: nat)
    requires passes != [] && ReceiveRetried(passes[0])
    ensures WaitsUntil(passes, k + 1) <==> WaitsUntil(passes[1..], k)
  {
    assert forall i :: 0 <= i < |passes| - 1 ==> passes[1..][i] == passes[i + 1];
    assert forall i :: 0 < i < |passes| ==> passes[i] == passes[1..][i - 1];
  }

  /** The first pass that is not a wait for data decides how a fill ends, and how. */
  lemma {:induction false} FillDecided(passes: seq<ReceivePass>, k: nat)
    requires WaitsUntil(passes, k) && k < |passes| && !ReceiveRetried(passes[k])
    ensures forall data :: FillRun(passes) == Filled(data) <==> Receives(passes[k], data)
    ensures forall e :: FillRun(passes) == FillFailed(e) <==> ReceiveFailsWith(passes[k], e)
    decreases k
  {
    if k > 0 {
      WaitsNext(passes, k - 1);
      FillDecided(passes[1..], k - 1);
    }
  }

  lemma {:induction false} FillWaits(passes: seq<ReceivePass>)
    ensures FillRun(passes) == FillWaiting <==> WaitsUntil(passes, |passes|)
    ensures !WaitsUntil(passes, |passes|) ==> exists k: nat :: WaitsUntil(passes, k) && k < |passes| && !ReceiveRetried(passes[k])
    decreases |passes|
  {
    if passes != [] {
      if ReceiveRetried(passes[0]) {
        WaitsNext(passes, |passes| - 1);
        FillWaits(passes[1..]);
        if k: nat :| WaitsUntil(passes[1..], k) && k < |passes[1..]| && !ReceiveRetried(passes[1..][k]) {
          WaitsNext(passes, k);
        }
      } else {
        assert WaitsUntil(passes, 0);
      }
    }
  }

  /** A fill delivers exactly what the first pass that is not a wait for data received. */
  lemma {:induction false} FilledIff(passes: seq<ReceivePass>, data: seq<Byte>)
    ensures FillRun(passes) == Filled(data)
       <==> exists k: nat :: WaitsUntil(passes, k) && k < |passes| && Receives(passes[k], data)
  {
    FillWaits(passes);
    if k: nat :| WaitsUntil(passes, k) && k < |passes| && !ReceiveRetried(passes[k]) {
      FillDecided(passes, k);
    }
    forall k: nat | WaitsUntil(passes, k) && k < |passes| && Receives(passes[k], data) ensures FillRun(passes) == Filled(data) {
      FillDecided(passes, k);
    }
  }

  /** ... and fails exactly with the error of that pass. */
  lemma {:induction false} FillFailsIff(passes: seq<ReceivePass>, e: ErrorCode)
    ensures FillRun(passes) == FillFailed(e)
       <==> exists k: nat :: WaitsUntil(passes, k) && k < |passes| && ReceiveFailsWith(passes[k], e)
  {
    FillWaits(passes);
    if k: nat :| WaitsUntil(passes, k) && k < |passes| && !ReceiveRetried(passes[k]) {
      FillDecided(passes, k);
    }
    forall k: nat | WaitsUntil(passes, k) && k < |passes| && ReceiveFailsWith(passes[k], e)
      ensures FillRun(passes) == FillFailed(e)
    {
      FillDecided(passes, k);
    }
  }

  // ------------------------------------------------------------------ connecting

  /** What the clock, socket and kernel answer for one endpoint. `established` is the
      truth about the connection, which the loop can only infer. */
  datatype Attempt = Attempt(
    expired: bool,
    openError: ErrorCode,
    connectError: ErrorCode,
    poll: int,
    pollError: ErrorCode,
    optionFailed: bool,
    optionError: ErrorCode,
    socketError: ErrorCode,
    established: bool)
  {
    predicate Pending() { connectError.InProgress? || connectError.WouldBlock? }

    /** The answers fit together: error codes are set on failure, and a poll that
        finds the socket ready makes SO_ERROR tell the truth. */
    predicate Consistent() {
      && (expired || openError != Clear ==> !established)
      && (!expired ==> AnswersFit())
    }

    predicate AnswersFit() {
      && (openError == Clear && connectError == Clear ==> established)
      && (openError == Clear && connectError != Clear && !Pending() ==> !established)
      && (poll < 0 ==> pollError != Clear)
      && (optionFailed ==> optionError != Clear)
      && (openError == Clear && Pending() ==>
            if poll > 0 && !optionFailed then socketError == Clear <==> established else !established)
    }

    /** The wait for the connection timed out, and SO_ERROR has nothing to report yet. */
    predicate TimedOutQuietly() {
      !expired && openError == Clear && Pending() && poll == 0 && !optionFailed && socketError == Clear
    }
  }

  datatype AttemptEnd = Next(error: ErrorCode) | Stop(error: ErrorCode)

  function EndOf(a: Attempt): AttemptEnd {
    if a.expired then Stop(Expired)
    else if a.openError != Clear then Next(a.openError)
    else if a.connectError == Clear then Stop(Clear)
    else if !a.Pending() then Next(a.connectError)
    else if a.poll < 0 then Next(a.pollError)
    else if a.optionFailed then Stop(a.optionError)
    else if a.socketError == Clear then Stop(Clear)
    else Next(a.socketError)
  }

  /** The loop stopped after `tried` endpoints, each but the last having failed. */
  ghost predicate Attempted(endpoints: seq<Attempt>, tried: nat, error: ErrorCode) {
    && tried <= |endpoints|
    && (forall i :: 0 <= i < tried - 1 ==> EndOf(endpoints[i]).Next?)
    && (if endpoints == [] then error == NotFound
        else tried > 0 && error == EndOf(endpoints[tried - 1]).error)
    && (tried < |endpoints| ==> tried > 0 && EndOf(endpoints[tried - 1]).Stop?)
  }

  /** Asking for SO_ERROR failed. */
  predicate OptionUnread(a: Attempt) {
    !a.expired && a.openError == Clear && a.Pending() && a.poll >= 0 && a.optionFailed
  }

  /** The loop ends at such an endpoint, and at no other. */
  predicate Halts(a: Attempt) {
    a.expired || a.established || a.TimedOutQuietly() || OptionUnread(a)
  }

  /** What the loop reports if this is the last endpoint it tries. */
  predicate Reports(a: Attempt, e: ErrorCode) {
    if a.expired then e == Expired
    else if a.established || a.TimedOutQuietly() then e == Clear
    else if a.openError != Clear then e == a.openError
    else if a.connectError != InProgress && a.connectError != WouldBlock then e == a.connectError
    else if a.poll < 0 then e == a.pollError
    else if a.optionFailed then e == a.optionError
    else e == a.socketError
  }

  lemma {:induction false} EndInFields(a: Attempt)
    requires a.Consistent()
    ensures EndOf(a).Stop? <==> Halts(a)
    ensures Reports(a, EndOf(a).error)
    ensures forall e, f :: Reports(a, e) && Reports(a, f) ==> e == f
  {
  }

  /** The loop goes on past exactly the endpoints that refuse, fail to open, or fail while
      waiting; it ends at the first that expires, connects, times out quietly or does not
      tell its SO_ERROR, or with the list. What it reports is that of its last endpoint. */
  lemma {:induction false} TriesUntilHalt(endpoints: seq<Attempt>, tried: nat, error: ErrorCode)
    requires forall a :: a in endpoints ==> a.Consistent()
    requires Attempted(endpoints, tried, error)
    ensures tried == 0 <==> endpoints == []
    ensures forall i :: 0 <= i < tried - 1 ==> !Halts(endpoints[i])
    ensures 0 < tried < |endpoints| ==> Halts(endpoints[tried - 1])
    ensures if endpoints == [] then error == NotFound else Reports(endpoints[tried - 1], error)
  {
    forall i | 0 <= i < tried
      ensures (EndOf(endpoints[i]).Stop? <==> Halts(endpoints[i])) && Reports(endpoints[i], EndOf(endpoints[i]).error)
    {
      assert endpoints[i] in endpoints;
      EndInFields(endpoints[i]);
    }
  }

  lemma {:induction false} ReportsClearIff(a: Attempt, e: ErrorCode)
    requires a.Consistent() && Reports(a, e)
    ensures e == Clear <==> Halts(a) && !a.expired && !OptionUnread(a)
    ensures a.established ==> Halts(a) && !a.expired && !OptionUnread(a)
  {
  }

  /** The first endpoint at which the loop ends. */
  ghost predicate HaltsFirstAt(endpoints: seq<Attempt>, i: nat) {
    i < |endpoints| && Halts(endpoints[i]) && forall j :: 0 <= j < i ==> !Halts(endpoints[j])
  }

  /** Over the whole list: success is reported exactly when an endpoint connects, or times
      out quietly, and none before it ends the loop; and a connection is made exactly when
      an endpoint can be connected to and none before it expires, times out quietly or
      does not tell its SO_ERROR. */
  lemma {:induction false} ConnectSucceedsIff(endpoints: seq<Attempt>, tried: nat, error: ErrorCode)
    requires forall a :: a in endpoints ==> a.Consistent()
    requires Attempted(endpoints, tried, error)
    ensures error == Clear <==>
      exists i: nat :: HaltsFirstAt(endpoints, i) && !endpoints[i].expired && !OptionUnread(endpoints[i])
    ensures (exists i :: 0 <= i < tried && endpoints[i].established) <==>
      exists i: nat :: HaltsFirstAt(endpoints, i) && endpoints[i].established
  {
    TriesUntilHalt(endpoints, tried, error);
    if tried > 0 {
      var last := endpoints[tried - 1];
      assert last in endpoints;
      ReportsClearIff(last, error);
      assert Halts(last) ==> HaltsFirstAt(endpoints, tried - 1);
      assert forall i: nat :: HaltsFirstAt(endpoints, i) ==> i == tried - 1;
    }
  }

  /** A clear error code means a connection - and a connection a clear error code -
      exactly when the last wait did not time out with SO_ERROR still zero. In that
      one case the loop reports success without a connection. Either way every
      endpoint before the last had failed. */
  lemma {:induction false} ClearMeansConnectedIff(endpoints: seq<Attempt>, tried: nat, error: ErrorCode)
    requires forall a :: a in endpoints ==> a.Consistent()
    requires Attempted(endpoints, tried, error)
    ensures (error == Clear <==> exists i :: 0 <= i < tried && endpoints[i].established)
       <==> !(tried > 0 && endpoints[tried - 1].TimedOutQuietly())
    ensures forall i :: 0 <= i < tried - 1 ==> !endpoints[i].established
  {
    forall i | 0 <= i < tried ensures endpoints[i].Consistent() {
      assert endpoints[i] in endpoints;
    }
    if tried > 0 {
      var last := endpoints[tried - 1];
      assert error == Clear <==> last.established || last.TimedOutQuietly();
    }
  }

  /** Such a run exists: one endpoint, still connecting when the wait times out. */
  lemma QuietTimeoutReportsSuccess()
    ensures var a := Attempt(false, Clear, InProgress, 0, Clear, false, Clear, Clear, false);
      a.Consistent() && Attempted([a], 1, Clear) && !a.established
  {
  }

  // ------------------------------------------------------------------ the class

  class BasicSocketStreamBuf {
    var getBuffer: array<Byte>
    var putBuffer: array<Byte>
    var gptr: nat
    var egptr: nat
    var pptr: nat
    var epptr: nat
    var error: ErrorCode
    /** Every byte the kernel has taken from, and given to, this object. */
    ghost var wire: seq<Byte>
    ghost var received: seq<Byte>

    ghost predicate Valid()
      reads this
    {
      && getBuffer != putBuffer
      && getBuffer.Length == BUFFER_SIZE
      && putBuffer.Length in {0, BUFFER_SIZE}
      && PUTBACK_MAX <= gptr <= egptr <= BUFFER_SIZE
      && pptr <= epptr == putBuffer.Length
    }

    predicate Buffered()
      reads this
    {
      putBuffer.Length != 0
    }

    /** Accepted and not yet sent. */
    function PutArea(): seq<Byte>
      reads this, putBuffer
      requires Valid()
    {
      putBuffer[..pptr]
    }

    /** Received and not yet read. */
    function GetArea(): seq<Byte>
      reads this, getBuffer
      requires Valid()
    {
      getBuffer[gptr..egptr]
    }

    ghost function Sending(): Pipe
      reads this, putBuffer
      requires Valid()
    {
      Pipe(wire, PutArea(), putBuffer.Length)
    }

    constructor ()
      ensures Valid() && Buffered() && fresh(getBuffer) && fresh(putBuffer)
      ensures Sending() == Pipe([], [], BUFFER_SIZE)
      ensures received == [] && GetArea() == [] && error == Clear
    {
      getBuffer := new Byte[BUFFER_SIZE](_ => 0);
      putBuffer := new Byte[BUFFER_SIZE](_ => 0);
      gptr, egptr := PUTBACK_MAX, PUTBACK_MAX;
      pptr, epptr := 0, BUFFER_SIZE;
      error := Clear;
      wire, received := [], [];
    }

    /** The flush loop over `out`. */
    method SendAll(out: seq<Byte>, passes: seq<SendPass>) returns (end: FlushEnd, ghost sent: nat)
      modifies this`wire, this`error
      ensures (end, sent) == FlushRun(|out|, passes) && sent <= |out|
      ensures wire == old(wire) + out[..sent]
      ensures end.FlushFailed? ==> error == end.error
    {
      var rest := out;
      var i := 0;
      sent := 0;
      while |rest| > 0
        invariant sent <= |out| && rest == out[sent..] && i <= |passes|
        invariant wire == old(wire) + out[..sent]
        invariant FlushRun(|out|, passes) == var (e, n) := FlushRun(|rest|, passes[i..]); (e, sent + n)
        decreases |passes| - i
      {
        if i == |passes| {
          return FlushWaiting, sent;
        }
        var pass := passes[i];
        assert passes[i..][1..] == passes[i + 1..];
        i := i + 1;
        if pass.expired {
          error := Expired;
          return FlushFailed(error), sent;
        }
        if pass.sent > 0 {
          var bytes := Min(pass.sent, |rest|);
          error := Clear;
          wire := wire + rest[..bytes];
          assert out[..sent] + rest[..bytes] == out[..sent + bytes];
          sent := sent + bytes;
          rest := rest[bytes..];
          continue;
        }
        error := pass.ErrorAfterSend();
        if !error.Retry() {
          return FlushFailed(error), sent;
        }
        if pass.poll < 0 {
          error := pass.pollError;
          return FlushFailed(error), sent;
        }
        error := Clear;
      }
      end := Flushed;
    }

    /** Sends what is pending, then takes `c` in. On success exactly the pending bytes
        are on the wire and the put area holds `c`, or nothing for eof. On failure, or
        while waiting, a proper prefix of them is, the put area is as before and `c`
        was not accepted. */
    method Overflow(c: IntType, passes: seq<SendPass>) returns (r: Reply)
      requires Valid()
      modifies this`wire, this`error, this`pptr, putBuffer
      ensures Valid() && GetArea() == old(GetArea())
      ensures var pending := if old(Buffered()) then old(PutArea()) else if c == EOF then [] else [c];
        var (end, sent) := FlushRun(|pending|, passes);
        && sent <= |pending|
        && wire == old(wire) + pending[..sent]
        && r == (match end case Flushed => Returned(NotEof(c)) case FlushFailed(_) => Returned(EOF) case FlushWaiting => Waiting)
        && (end.Flushed? ==> sent == |pending| && PutArea() == if c != EOF && Buffered() then [c] else [])
        && (!end.Flushed? ==> sent < |pending| && PutArea() == old(PutArea()))
        && (end.FlushFailed? ==> error == end.error)
    {
      var out;
      if !Buffered() {
        if c == EOF {
          return Returned(NotEof(c));
        }
        out := [c];
      } else {
        out := putBuffer[..pptr];
      }
      FlushSucceedsIff(|out|, passes);
      var end;
      ghost var sent;
      end, sent := SendAll(out, passes);
      assert out[..|out|] == out;
      if end.FlushWaiting? {
        return Waiting;
      }
      if end.FlushFailed? {
        return Returned(EOF);
      }
      if Buffered() {
        pptr := 0;
        if c == EOF {
          return Returned(NotEof(c));
        }
        putBuffer[pptr] := c;
        pptr := pptr + 1;
      }
      r := Returned(c);
    }

    method Sync(passes: seq<SendPass>) returns (r: Reply)
      requires Valid()
      modifies this`wire, this`error, this`pptr, putBuffer
      ensures Valid() && GetArea() == old(GetArea())
      ensures var (p, outcome) := old(Sending()).Step(WriteCall.Sync(passes));
        Sending() == p && r == match outcome case Succeeded => Returned(0) case Failed => Returned(EOF) case Unfinished => Waiting
      ensures r == Returned(0) ==> wire == old(wire) + old(PutArea()) && PutArea() == []
      ensures r != Returned(0) ==> PutArea() == old(PutArea()) && old(wire) <= wire < old(wire) + old(PutArea())
    {
      r := Overflow(EOF, passes);
      ghost var area := old(PutArea());
      assert area[..|area|] == area;
      assert wire <= old(wire) + area;
    }

    /** The inherited `sputc`. */
    method Sputc(c: Byte, passes: seq<SendPass>) returns (r: Reply)
      requires Valid()
      modifies this`wire, this`error, this`pptr, putBuffer
      ensures Valid() && GetArea() == old(GetArea())
      ensures var (p, outcome) := old(Sending()).Step(Put(c, passes));
        Sending() == p && r == match outcome case Succeeded => Returned(c) case Failed => Returned(EOF) case Unfinished => Waiting
    {
      if pptr < epptr {
        putBuffer[pptr] := c;
        pptr := pptr + 1;
        return Returned(c);
      }
      r := Overflow(c, passes);
      ghost var pending := if Buffered() then old(PutArea()) else [c];
      assert pending[..|pending|] == pending;
    }

    /** Goes unbuffered if nothing is pending and that is what is asked; says whether
        it did. */
    method Setbuf(isNull: bool, n: int) returns (done: bool)
      requires Valid()
      modifies this`putBuffer, this`pptr, this`epptr, this`wire, this`error, putBuffer
      ensures Valid() && GetArea() == old(GetArea())
      ensures Sending() == old(Sending()).Step(SetBuf(isNull, n)).0
      ensures done <==> old(PutArea()) == [] && isNull && n == 0
      ensures done ==> !Buffered() && fresh(putBuffer)
      ensures !done ==> putBuffer == old(putBuffer)
    {
      if pptr == 0 && isNull && n == 0 {
        putBuffer := new Byte[0];
        pptr, epptr := 0, 0;
        var _ := Sync([]);
        return true;
      }
      return false;
    }

    /** Refills an empty get area past the putback margin with what one `recv` gives. */
    method Underflow(passes: seq<ReceivePass>) returns (r: Reply)
      requires Valid()
      modifies this`received, this`error, this`gptr, this`egptr, getBuffer
      ensures Valid() && Sending() == old(Sending())
      ensures old(GetArea()) != [] ==> r == Returned(EOF) && received == old(received) && GetArea() == old(GetArea())
      ensures old(GetArea()) == [] ==> received == old(received) + GetArea()
      ensures old(GetArea()) == [] ==>
        match FillRun(passes)
        case Filled(data) => r == Returned(data[0]) && GetArea() == data && gptr == PUTBACK_MAX
        case FillFailed(e) => r == Returned(EOF) && GetArea() == [] && error == e
        case FillWaiting => r == Waiting && GetArea() == []
    {
      if gptr != egptr {
        return Returned(EOF);
      }
      for i := 0 to |passes|
        invariant unchanged(`gptr, `egptr, `received, getBuffer)
        invariant FillRun(passes) == FillRun(passes[i..])
      {
        var pass := passes[i];
        assert passes[i..][1..] == passes[i + 1..];
        if pass.expired {
          error := Expired;
          return Returned(EOF);
        }
        var bytes := if pass.failed then -1 else Min(|pass.data|, BUFFER_SIZE - PUTBACK_MAX);
        if bytes > 0 {
          error := Clear;
          Take(pass.data[..bytes]);
          return Returned(getBuffer[gptr]);
        }
        if bytes == 0 {
          error := EndOfFile;
          return Returned(EOF);
        }
        error := pass.receiveError;
        if !error.Retry() {
          return Returned(EOF);
        }
        if pass.poll < 0 {
          error := pass.pollError;
          return Returned(EOF);
        }
        error := Clear;
      }
      r := Waiting;
    }

    /** What the kernel writes past the putback margin becomes the get area. */
    method Take(data: seq<Byte>)
      requires Valid() && |data| <= BUFFER_SIZE - PUTBACK_MAX
      modifies this`received, this`gptr, this`egptr, getBuffer
      ensures Valid() && Sending() == old(Sending())
      ensures GetArea() == data && gptr == PUTBACK_MAX && received == old(received) + data
    {
      for k := 0 to |data|
        invariant getBuffer[PUTBACK_MAX..PUTBACK_MAX + k] == data[..k]
        invariant unchanged(`received, putBuffer)
      {
        getBuffer[PUTBACK_MAX + k] := data[k];
      }
      assert data[..|data|] == data;
      received := received + data;
      gptr, egptr := PUTBACK_MAX, PUTBACK_MAX + |data|;
    }

    /** The inherited `sbumpc`. */
    method Sbumpc(passes: seq<ReceivePass>) returns (r: Reply)
      requires Valid()
      modifies this`received, this`error, this`gptr, this`egptr, getBuffer
      ensures Valid() && Sending() == old(Sending())
      ensures old(received) <= received
      ensures var read := if r.Returned? && r.c != EOF then [r.c] else [];
        read + GetArea() == old(GetArea()) + received[|old(received)|..]
      ensures old(GetArea()) != [] ==> r == Returned(old(GetArea()[0])) && received == old(received)
    {
      if gptr == egptr {
        r := Underflow(passes);
        assert received[|old(received)|..] == GetArea();
        if r == Waiting || r.c == EOF {
          return;
        }
      }
      ghost var area := GetArea();
      r := Returned(getBuffer[gptr]);
      gptr := gptr + 1;
      assert area == [r.c] + GetArea();
    }

    /** The inherited `sgetc`: looks at the next byte and leaves it there. */
    method Sgetc(passes: seq<ReceivePass>) returns (r: Reply)
      requires Valid()
      modifies this`received, this`error, this`gptr, this`egptr, getBuffer
      ensures Valid() && Sending() == old(Sending())
      ensures old(received) <= received
      ensures GetArea() == old(GetArea()) + received[|old(received)|..]
      ensures r.Returned? && r.c != EOF <==> GetArea() != []
      ensures GetArea() != [] ==> r == Returned(GetArea()[0])
    {
      if gptr != egptr {
        return Returned(getBuffer[gptr]);
      }
      r := Underflow(passes);
    }

    /** Tries the endpoints in order. `tried` counts those it turned to. */
    method ConnectToEndpoints(endpoints: seq<Attempt>) returns (tried: nat)
      modifies this`error
      ensures tried <= |endpoints|
      ensures old(error) != Clear ==> tried == 0 && error == old(error)
      ensures old(error) == Clear ==> Attempted(endpoints, tried, error)
    {
      tried := 0;
      if error != Clear {
        return;
      }
      error := NotFound;
      while tried < |endpoints|
        invariant tried <= |endpoints|
        invariant forall i :: 0 <= i < tried ==> EndOf(endpoints[i]).Next?
        invariant error == if tried == 0 then NotFound else EndOf(endpoints[tried - 1]).error
      {
        var a := endpoints[tried];
        tried := tried + 1;
        if a.expired {
          error := Expired;
          return;
        }
        error := a.openError;
        if error != Clear {
          continue;
        }
        error := a.connectError;
        if error == Clear {
          return;
        }
        if !error.InProgress? && !error.WouldBlock? {
          continue;
        }
        error := if a.poll < 0 then a.pollError else Clear;
        if a.poll < 0 {
          continue;
        }
        error := if a.optionFailed then a.optionError else Clear;
        if a.optionFailed {
          return;
        }
        error := a.socketError;
        if error == Clear {
          return;
        }
      }
    }
  }

  // ------------------------------------------------------------------ whole runs

  method MakeWrite(sb: BasicSocketStreamBuf, call: WriteCall) returns (outcome: Outcome)
    requires sb.Valid()
    modifies sb, sb.putBuffer
    ensures sb.Valid() && (sb.putBuffer == old(sb.putBuffer) || fresh(sb.putBuffer))
    ensures sb.received == old(sb.received) && sb.GetArea() == old(sb.GetArea())
    ensures (sb.Sending(), outcome) == old(sb.Sending()).Step(call)
  {
    match call {
      case Put(c, passes) =>
        var r := sb.Sputc(c, passes);
        outcome := if r == Returned(c) then Succeeded else if r == Waiting then Unfinished else Failed;
      case Sync(passes) =>
        var r := sb.Sync(passes);
        outcome := if r == Returned(0) then Succeeded else if r == Waiting then Unfinished else Failed;
      case SetBuf(isNull, n) =>
        var _ := sb.Setbuf(isNull, n);
        outcome := Succeeded;
    }
  }

  /** Output over whole runs, under any partial sends, buffered or not, across the switch
      and past any number of failures. */
  method WriteAll(sb: BasicSocketStreamBuf, calls: seq<WriteCall>)
    requires sb.Valid()
    modifies sb, sb.putBuffer
    ensures sb.Valid() && sb.received == old(sb.received) && sb.GetArea() == old(sb.GetArea())
    ensures sb.Sending() == PipeRun(old(sb.Sending()), calls)
    ensures var accepted := old(sb.Sending()).Output() + Accepted(old(sb.Sending()), calls);
      sb.Sending().Output() == accepted <==> NothingResent(old(sb.Sending()), calls)
  {
    ghost var start := sb.Sending();
    var i := 0;
    while i < |calls|
      invariant i <= |calls|
      invariant sb.Valid() && (sb.putBuffer == old(sb.putBuffer) || fresh(sb.putBuffer))
      invariant sb.received == old(sb.received) && sb.GetArea() == old(sb.GetArea())
      invariant PipeRun(start, calls) == PipeRun(sb.Sending(), calls[i..])
    {
      var outcome := MakeWrite(sb, calls[i]);
      assert calls[i..][1..] == calls[i + 1..];
      i := i + 1;
      if outcome.Unfinished? {
        break;
      }
    }
    ExactlyOnceIff(start, calls);
  }

  lemma PartialThenFatal()
    ensures FlushRun(2, [SendPass(false, 1, Clear, 0, Clear), SendPass(false, -1, Other(0), 0, Clear)])
         == (FlushFailed(Other(0)), 1)
    ensures FlushRun(2, [SendPass(false, 2, Clear, 0, Clear)]) == (Flushed, 2)
  {
    var first := [SendPass(false, 1, Clear, 0, Clear), SendPass(false, -1, Other(0), 0, Clear)];
    assert first[1..] == [first[1]];
  }

  /** Two bytes are put; a flush sends the first and then fails; the next flush succeeds. */
  method PartialFlushRepeats() returns (sb: BasicSocketStreamBuf)
    ensures fresh(sb) && sb.Valid() && sb.PutArea() == []
    ensures sb.wire == [1, 1, 2]
  {
    var first := [SendPass(false, 1, Clear, 0, Clear), SendPass(false, -1, Other(0), 0, Clear)];
    var second := [SendPass(false, 2, Clear, 0, Clear)];
    sb := new BasicSocketStreamBuf();
    var r := sb.Sputc(1, []);
    r := sb.Sputc(2, []);
    assert sb.PutArea() == [1, 2];
    PartialThenFatal();
    r := sb.Sync(first);
    assert sb.wire == [1] && sb.PutArea() == [1, 2];
    r := sb.Sync(second);
  }

  lemma Delivered(delivered: seq<Byte>, unread: seq<Byte>, area: seq<Byte>, log: seq<Byte>, before: seq<Byte>,
                  after: seq<Byte>, read: seq<Byte>, left: seq<Byte>)
    requires log <= before <= after
    requires delivered + unread == area + before[|log|..]
    requires read + left == unread + after[|before|..]
    ensures (delivered + read) + left == area + after[|log|..]
  {
    assert after[|log|..] == before[|log|..] + after[|before|..];
    assert (delivered + read) + left == delivered + (read + left) == (delivered + unread) + after[|before|..];
  }

  /** One call by a reader with the oracle's answers to its fill, if it fills. */
  datatype ReadCall =
    | Bump(passes: seq<ReceivePass>)
    | Peek(passes: seq<ReceivePass>)
    | Refill(passes: seq<ReceivePass>)

  /** What one call delivers. Looking ahead or refilling delivers nothing. */
  method MakeRead(sb: BasicSocketStreamBuf, call: ReadCall) returns (delivered: seq<Byte>)
    requires sb.Valid()
    modifies sb`received, sb`error, sb`gptr, sb`egptr, sb.getBuffer
    ensures sb.Valid() && sb.Sending() == old(sb.Sending())
    ensures old(sb.received) <= sb.received
    ensures delivered + sb.GetArea() == old(sb.GetArea()) + sb.received[|old(sb.received)|..]
    ensures if call.Bump? then |delivered| <= 1 else delivered == []
  {
    delivered := [];
    match call {
      case Bump(passes) =>
        var r := sb.Sbumpc(passes);
        delivered := if r.Returned? && r.c != EOF then [r.c] else [];
      case Peek(passes) =>
        var _ := sb.Sgetc(passes);
      case Refill(passes) =>
        var _ := sb.Underflow(passes);
    }
  }

  /** Input over whole runs: the bytes delivered to the reader followed by the unread
      ones are what was unread at the start followed by everything received since,
      whatever the receive sizes, retries, timeouts and ends of file, and however the
      reader looks ahead or refills in between. */
  method ReadAll(sb: BasicSocketStreamBuf, calls: seq<ReadCall>) returns (delivered: seq<Byte>)
    requires sb.Valid()
    modifies sb`received, sb`error, sb`gptr, sb`egptr, sb.getBuffer
    ensures sb.Valid() && sb.Sending() == old(sb.Sending()) && old(sb.received) <= sb.received
    ensures delivered + sb.GetArea() == old(sb.GetArea()) + sb.received[|old(sb.received)|..]
  {
    ghost var area, log := sb.GetArea(), sb.received;
    delivered := [];
    for i := 0 to |calls|
      invariant sb.Valid() && sb.Sending() == old(sb.Sending())
      invariant log <= sb.received
      invariant delivered + sb.GetArea() == area + sb.received[|log|..]
    {
      ghost var unread, before := sb.GetArea(), sb.received;
      var read := MakeRead(sb, calls[i]);
      Delivered(delivered, unread, area, log, before, sb.received, read, sb.GetArea());
      delivered := delivered + read;
    }
  }
}
