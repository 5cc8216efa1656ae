/**
 * Bounded capture of what a process writes, for every way the bytes may be cut into chunks
 * (tools/run_formal.py, tools/live_secure_zenoh.py).
 */
module BoundedCapture {
  import opened Bytes

  const CHUNK := 64 * 1024
  const STDERR_TAIL := 4000

  function Min(a: int, b: int): int { if a < b then a else b }

  function Max(a: int, b: int): int { if a > b then a else b }

  /** What a read of at most `size` bytes returns at `pos` when `ready` bytes have arrived; nothing only at the end. */
  function ReadAt(stream: seq<Byte>, pos: nat, ready: nat, size: nat): (chunk: seq<Byte>)
    requires pos <= |stream| && size > 0
    ensures chunk == [] <==> pos == |stream|
    ensures |chunk| <= size && pos + |chunk| <= |stream| && chunk == stream[pos..pos + |chunk|]
  {
    stream[pos..pos + Min(Max(1, Min(ready, size)), |stream| - pos)]
  }

  /** The first min(limit, |s|) bytes. */
  function Head(s: seq<Byte>, limit: nat): seq<Byte> {
    if |s| <= limit then s else s[..limit]
  }

  /** The last min(limit, |s|) bytes. */
  function Tail(s: seq<Byte>, limit: nat): seq<Byte> {
    if |s| <= limit then s else s[|s| - limit..]
  }

  /** Trimming after each chunk keeps what trimming once at the end would. */
  lemma TailOfTail(a: seq<Byte>, b: seq<Byte>, limit: nat)
    ensures Tail(Tail(a, limit) + b, limit) == Tail(a + b, limit)
  {
  }

  // ----- Writing all of a payload -----

  /** How much of a payload the first n writes put out, each at most what is left. */
  function PutOut(total: nat, written: nat -> int, n: nat): nat {
    if n == 0 then 0 else
      var before := PutOut(total, written, n - 1);
      if written(n - 1) < 1 || before >= total then before else Min(before + written(n - 1), total)
  }

  /**
   * `_write_all`: `written(k)` is what the k-th write reports, at most what it was given. The n writes made put
   * out a prefix in order; it is the whole payload unless the last write, and only that one, made no progress.
   */
  method WriteAll(payload: seq<Byte>, written: nat -> int) returns (ok: bool, out: seq<Byte>, ghost n: nat)
    ensures out <= payload && |out| == PutOut(|payload|, written, n)
    ensures ok <==> out == payload
    ensures ok <==> forall k :: 0 <= k < n ==> written(k) >= 1
    ensures !ok ==> n > 0 && written(n - 1) < 1 && forall k :: 0 <= k < n - 1 ==> written(k) >= 1
  {
    var view, k := payload, 0;
    out, n := [], 0;
    while view != []
      invariant out + view == payload && |out| == PutOut(|payload|, written, k)
      invariant n == k && forall j :: 0 <= j < k ==> written(j) >= 1
      decreases |view|
    {
      var w := Min(written(k), |view|);
      n := k + 1;
      if w < 1 {
        return false, out, n;
      }
      out, view, k := out + view[..w], view[w..], k + 1;
    }
    ok := true;
  }

  // ----- One stream, cut off at a limit -----

  /** One turn of the select loop: has the deadline passed, what became readable, has the leader exited. */
  datatype Turn = Turn(expired: bool, readable: Option<nat>, leaderGone: bool)

  datatype Termination = EXITED | OUTPUT_LIMIT | TIMEOUT | DESCENDANT_PIPE_TIMEOUT

  /** How much of the stream the first n turns have captured; a turn after the deadline reads nothing. */
  function Reached(stream: seq<Byte>, turns: nat -> Turn, limit: nat, n: nat): (at: nat)
    ensures at <= |stream| && at <= limit
  {
    if n == 0 then 0 else
      var at := Reached(stream, turns, limit, n - 1);
      var turn := turns(n - 1);
      if turn.expired || turn.readable.None? then at
      else at + Min(limit - at, |ReadAt(stream, at, turn.readable.value, ReadSize(limit - at))|)
  }

  /** One byte more than may still be kept, so that an overrun shows. */
  function ReadSize(allowance: nat): nat { Max(1, Min(CHUNK, allowance + 1)) }

  /** What the turn reads when it reads anything. */
  function TurnChunk(stream: seq<Byte>, turns: nat -> Turn, limit: nat, k: nat): (chunk: seq<Byte>)
    requires turns(k).readable.Some?
    ensures chunk == [] <==> Reached(stream, turns, limit, k) == |stream|
    ensures Reached(stream, turns, limit, k) + |chunk| <= |stream|
    ensures chunk == stream[Reached(stream, turns, limit, k)..Reached(stream, turns, limit, k) + |chunk|]
  {
    var at := Reached(stream, turns, limit, k);
    ReadAt(stream, at, turns(k).readable.value, ReadSize(limit - at))
  }

  /** Turn k lets the loop go on: in time, and with nothing read or something that fits. */
  predicate GoesOn(stream: seq<Byte>, turns: nat -> Turn, limit: nat, k: nat) {
    !turns(k).expired
    && (turns(k).readable.Some? ==>
          var chunk := TurnChunk(stream, turns, limit, k);
          chunk != [] && |chunk| <= limit - Reached(stream, turns, limit, k))
  }

  predicate LeaderGone(turns: nat -> Turn, n: nat) { exists k: nat :: k < n && turns(k).leaderGone }

  /** What turn k, the last one made, is like when the loop ends this way. */
  predicate EndsAs(stream: seq<Byte>, turns: nat -> Turn, limit: nat, k: nat, t: Termination) {
    match t
    case EXITED => !turns(k).expired && turns(k).readable.Some? && TurnChunk(stream, turns, limit, k) == []
    case OUTPUT_LIMIT =>
      !turns(k).expired && turns(k).readable.Some?
      && |TurnChunk(stream, turns, limit, k)| > limit - Reached(stream, turns, limit, k)
    case TIMEOUT => turns(k).expired && !LeaderGone(turns, k)
    case DESCENDANT_PIPE_TIMEOUT => turns(k).expired && LeaderGone(turns, k)
  }

  lemma TurnReads(stream: seq<Byte>, turns: nat -> Turn, limit: nat, k: nat)
    ensures var at, next := Reached(stream, turns, limit, k), Reached(stream, turns, limit, k + 1);
      next == if turns(k).expired || turns(k).readable.None? then at
              else at + Min(limit - at, |TurnChunk(stream, turns, limit, k)|)
  {
  }

  /**
   * The capture loop of `_run_bounded`, over the n turns it makes. The deadline passes for good by turn `late`.
   * Every turn but the last lets the loop go on and the last one ends it as reported: past the deadline, at the
   * end of the stream, or above the limit. Unless the deadline passed, exactly the first min(limit, total) bytes
   * are captured, and the limit is reported when there were more.
   */
  method CaptureBounded(stream: seq<Byte>, turns: nat -> Turn, limit: nat, ghost late: nat)
    returns (captured: seq<Byte>, consumed: nat, termination: Termination, ghost n: nat)
    requires forall k :: k >= late ==> turns(k).expired
    ensures n > 0 && forall k: nat :: k < n - 1 ==> GoesOn(stream, turns, limit, k)
    ensures EndsAs(stream, turns, limit, n - 1, termination)
    ensures captured == stream[..Reached(stream, turns, limit, n)] && consumed == |captured|
    ensures termination in {TIMEOUT, DESCENDANT_PIPE_TIMEOUT} <==> turns(n - 1).expired
    ensures !turns(n - 1).expired ==> captured == Head(stream, limit) && (termination == OUTPUT_LIMIT <==> |stream| > limit)
  {
    hide Reached, LeaderGone, ReadAt;
    captured, consumed, termination := [], 0, EXITED;
    var open, leaderExited, k := true, false, 0;
    CaptureStart(stream, turns, limit);
    while open
      invariant consumed == |captured| == Reached(stream, turns, limit, k) && captured == stream[..consumed]
      invariant open ==> termination == EXITED && (leaderExited <==> LeaderGone(turns, k))
      invariant open ==> forall j: nat :: j < k ==> GoesOn(stream, turns, limit, j)
      invariant !open ==> k > 0 && EndsAs(stream, turns, limit, k - 1, termination)
      invariant !open ==> forall j: nat :: j < k - 1 ==> GoesOn(stream, turns, limit, j)
      decreases if open then 1 else 0, late - k
    {
      var turn := turns(k);
      TurnReads(stream, turns, limit, k);
      LeaderStep(turns, k);
      k := k + 1;
      if turn.expired {
        termination := if leaderExited then DESCENDANT_PIPE_TIMEOUT else TIMEOUT;
        open := false;
      } else if turn.readable.Some? {
        var allowance := limit - consumed;
        var chunk := ReadAt(stream, consumed, turn.readable.value, ReadSize(allowance));
        assert chunk == TurnChunk(stream, turns, limit, k - 1);
        if chunk == [] {
          open := false;
        } else {
          var accepted := if |chunk| <= allowance then chunk else chunk[..allowance];
          captured, consumed := captured + accepted, consumed + |accepted|;
          if |chunk| > |accepted| {
            termination, open := OUTPUT_LIMIT, false;
          }
        }
      }
      leaderExited := leaderExited || turn.leaderGone;
    }
    n := k;
    EndMeans(stream, turns, limit, k - 1, termination);
    assert stream[..|stream|] == stream;
  }

  lemma EndMeans(stream: seq<Byte>, turns: nat -> Turn, limit: nat, k: nat, t: Termination)
    requires EndsAs(stream, turns, limit, k, t)
    ensures t == EXITED ==> Reached(stream, turns, limit, k + 1) == |stream| <= limit
    ensures t == OUTPUT_LIMIT ==> Reached(stream, turns, limit, k + 1) == limit < |stream|
    ensures t in {TIMEOUT, DESCENDANT_PIPE_TIMEOUT} <==> turns(k).expired
  {
    TurnReads(stream, turns, limit, k);
  }

  lemma CaptureStart(stream: seq<Byte>, turns: nat -> Turn, limit: nat)
    ensures Reached(stream, turns, limit, 0) == 0 && !LeaderGone(turns, 0)
  {
  }

  lemma LeaderStep(turns: nat -> Turn, k: nat)
    ensures LeaderGone(turns, k + 1) <==> LeaderGone(turns, k) || turns(k).leaderGone
  {
    if LeaderGone(turns, k) || turns(k).leaderGone {
      var j: nat :| j <= k && turns(j).leaderGone;
      assert j < k + 1;
    }
  }

  // ----- Two streams, the head of one and the tail of the other -----

  /** One turn of `run_bytes`: whether the deadline has passed, and which streams have how much to read. */
  datatype Select = Select(expired: bool, out: Option<nat>, err: Option<nat>)

  datatype Outcome =
    | TimedOut
    | StdoutLimit
    | Failed(code: int, tail: seq<Byte>)
    | Completed(code: int, stdout: seq<Byte>, stderr: seq<Byte>)

  /** A stdout chunk: as much of it as the limit leaves room for, and whether that was not all of it. */
  method TakeHead(ghost before: seq<Byte>, stdout: seq<Byte>, chunk: seq<Byte>, limit: nat) returns (longer: seq<Byte>, exceeded: bool)
    requires stdout == Head(before, limit) && chunk != []
    ensures longer == Head(before + chunk, limit)
    ensures exceeded <==> |before + chunk| > limit
  {
    var available := limit - |stdout|;
    if |chunk| > available {
      return stdout + chunk[..Max(available, 0)], true;
    }
    return stdout + chunk, false;
  }

  /** Where the loop stands in both streams, and whether it gave up waiting. */
  datatype Progress = Progress(outAt: nat, errAt: nat, outOpen: bool, errOpen: bool, timedOut: bool)

  const START := Progress(0, 0, true, true, false)

  /** The wait of this turn is bounded: nothing has gone wrong so far. */
  predicate Bounded(s: Progress, limit: nat) { !s.timedOut && s.outAt <= limit }

  /** The deadline has passed, or the bounded wait finds no open stream readable. */
  predicate Silent(s: Progress, turn: Select) {
    turn.expired || !((s.outOpen && turn.out.Some?) || (s.errOpen && turn.err.Some?))
  }

  /** Which streams the turn reads; a wait without deadline always finds one. */
  function ReadsOut(s: Progress, turn: Select): bool {
    s.outOpen && (turn.out.Some? || !(s.errOpen && turn.err.Some?))
  }

  function ReadsErr(s: Progress, turn: Select): bool {
    s.errOpen && (turn.err.Some? || !s.outOpen)
  }

  function Amount(ready: Option<nat>): nat { if ready.Some? then ready.value else 1 }

  function Advance(stdoutAll: seq<Byte>, stderrAll: seq<Byte>, limit: nat, s: Progress, turn: Select): (r: Progress)
    requires s.outAt <= |stdoutAll| && s.errAt <= |stderrAll|
    ensures r.outAt <= |stdoutAll| && r.errAt <= |stderrAll|
  {
    var timedOut := s.timedOut || (Bounded(s, limit) && Silent(s, turn));
    if Bounded(s, limit) && !turn.expired && timedOut then s.(timedOut := true) else
      var out := if ReadsOut(s, turn) then |ReadAt(stdoutAll, s.outAt, Amount(turn.out), CHUNK)| else 0;
      var err := if ReadsErr(s, turn) then |ReadAt(stderrAll, s.errAt, Amount(turn.err), CHUNK)| else 0;
      Progress(s.outAt + out, s.errAt + err,
               s.outOpen && (ReadsOut(s, turn) ==> out > 0), s.errOpen && (ReadsErr(s, turn) ==> err > 0), timedOut)
  }

  function After(stdoutAll: seq<Byte>, stderrAll: seq<Byte>, turns: nat -> Select, limit: nat, n: nat): (r: Progress)
    ensures r.outAt <= |stdoutAll| && r.errAt <= |stderrAll|
  {
    if n == 0 then START
    else Advance(stdoutAll, stderrAll, limit, After(stdoutAll, stderrAll, turns, limit, n - 1), turns(n - 1))
  }

  /** The turn of a loop that waits with a deadline and finds nothing in time for it. */
  lemma AdvanceWaits(stdoutAll: seq<Byte>, stderrAll: seq<Byte>, limit: nat, s: Progress, turn: Select)
    requires s.outAt <= |stdoutAll| && s.errAt <= |stderrAll|
    requires Bounded(s, limit) && !turn.expired && !(s.outOpen && turn.out.Some?) && !(s.errOpen && turn.err.Some?)
    ensures Advance(stdoutAll, stderrAll, limit, s, turn) == s.(timedOut := true)
  {
  }

  /** Any other turn reads the streams that are ready, or the first open one. */
  lemma AdvanceReads(stdoutAll: seq<Byte>, stderrAll: seq<Byte>, limit: nat, s: Progress, turn: Select, out: bool, err: bool)
    requires s.outAt <= |stdoutAll| && s.errAt <= |stderrAll| && !Closed(s)
    requires var ready := (s.outOpen && turn.out.Some?) || (s.errOpen && turn.err.Some?);
      && (Bounded(s, limit) && !turn.expired ==> ready)
      && out == (if ready then s.outOpen && turn.out.Some? else s.outOpen)
      && err == (if ready then s.errOpen && turn.err.Some? else !s.outOpen)
    ensures var outChunk, errChunk :=
        ReadAt(stdoutAll, s.outAt, Amount(turn.out), CHUNK), ReadAt(stderrAll, s.errAt, Amount(turn.err), CHUNK);
      Advance(stdoutAll, stderrAll, limit, s, turn) ==
      Progress(s.outAt + (if out then |outChunk| else 0), s.errAt + (if err then |errChunk| else 0),
               s.outOpen && (out ==> outChunk != []), s.errOpen && (err ==> errChunk != []),
               s.timedOut || (Bounded(s, limit) && turn.expired))
  {
    hide ReadAt;
  }

  predicate Closed(s: Progress) { !s.outOpen && !s.errOpen }

  /** Time ran out exactly when some turn that was made waited with a deadline and stayed silent. */
  lemma {:induction false} TimedOutIff(stdoutAll: seq<Byte>, stderrAll: seq<Byte>, turns: nat -> Select, limit: nat, n: nat)
    ensures After(stdoutAll, stderrAll, turns, limit, n).timedOut <==>
            exists k: nat :: k < n && SilentTurn(stdoutAll, stderrAll, turns, limit, k)
  {
    if n > 0 {
      TimedOutIff(stdoutAll, stderrAll, turns, limit, n - 1);
      if SilentTurn(stdoutAll, stderrAll, turns, limit, n - 1) {
        assert After(stdoutAll, stderrAll, turns, limit, n).timedOut;
      }
    }
  }

  predicate SilentTurn(stdoutAll: seq<Byte>, stderrAll: seq<Byte>, turns: nat -> Select, limit: nat, k: nat) {
    var s := After(stdoutAll, stderrAll, turns, limit, k);
    Bounded(s, limit) && Silent(s, turns(k))
  }

  /**
   * The select loop of `run_bytes`, over the n turns it makes. It drains both streams to their ends, also after
   * it killed the process, and terminates without help from the clock: a wait without deadline always finds an
   * open stream readable. It gives up waiting exactly when one of its turns stayed silent.
   */
  method CaptureStreams(stdoutAll: seq<Byte>, stderrAll: seq<Byte>, turns: nat -> Select, limit: nat)
    returns (stdout: seq<Byte>, stderrTail: seq<Byte>, timedOut: bool, limitExceeded: bool, ghost n: nat)
    ensures stdout == Head(stdoutAll, limit)
    ensures limitExceeded <==> |stdoutAll| > limit
    ensures stderrTail == Tail(stderrAll, 4000)
    ensures timedOut <==> exists k: nat :: k < n && SilentTurn(stdoutAll, stderrAll, turns, limit, k)
    ensures Closed(After(stdoutAll, stderrAll, turns, limit, n))
    ensures forall k: nat :: k < n ==> !Closed(After(stdoutAll, stderrAll, turns, limit, k))
  {
    hide Head, Tail, SilentTurn, Advance, After, ReadAt;
    assert After(stdoutAll, stderrAll, turns, limit, 0) == START by { StartsAt(stdoutAll, stderrAll, turns, limit); }
    stdout, stderrTail, timedOut, limitExceeded := [], [], false, false;
    EmptyHeadTail(limit);
    var outOpen, errOpen, k := true, true, 0;
    var outAt: nat, errAt: nat := 0, 0;
    while outOpen || errOpen
      invariant After(stdoutAll, stderrAll, turns, limit, k) == Progress(outAt, errAt, outOpen, errOpen, timedOut)
      invariant outAt <= |stdoutAll| && errAt <= |stderrAll|
      invariant stdout == Head(stdoutAll[..outAt], limit)
      invariant limitExceeded <==> outAt > limit
      invariant stderrTail == Tail(stderrAll[..errAt], STDERR_TAIL)
      invariant !outOpen ==> outAt == |stdoutAll|
      invariant !errOpen ==> errAt == |stderrAll|
      invariant forall j: nat :: j < k ==> !Closed(After(stdoutAll, stderrAll, turns, limit, j))
      decreases |stdoutAll| - outAt, |stderrAll| - errAt, outOpen, errOpen, !timedOut
    {
      var turn := turns(k);
      ghost var s := Progress(outAt, errAt, outOpen, errOpen, timedOut);
      AfterOneMore(stdoutAll, stderrAll, turns, limit, k);
      k := k + 1;
      if !timedOut && !limitExceeded && turn.expired {
        timedOut := true;
      }
      var outReady, errReady := outOpen && turn.out.Some?, errOpen && turn.err.Some?;
      if !outReady && !errReady {
        if !timedOut && !limitExceeded {
          AdvanceWaits(stdoutAll, stderrAll, limit, s, turn);
          timedOut := true;
          continue;
        }
        outReady, errReady := outOpen, !outOpen;
      }
      AdvanceReads(stdoutAll, stderrAll, limit, s, turn, outReady, errReady);
      if outReady {
        var chunk := ReadAt(stdoutAll, outAt, Amount(turn.out), CHUNK);
        if chunk == [] {
          outOpen := false;
        } else {
          stdout, limitExceeded := TakeHead(stdoutAll[..outAt], stdout, chunk, limit);
          assert stdoutAll[..outAt] + chunk == stdoutAll[..outAt + |chunk|];
          outAt := outAt + |chunk|;
        }
      }
      if errReady {
        var chunk := ReadAt(stderrAll, errAt, Amount(turn.err), CHUNK);
        if chunk == [] {
          errOpen := false;
        } else {
          stderrTail := TakeTail(stderrAll[..errAt], stderrTail, chunk);
          assert stderrAll[..errAt] + chunk == stderrAll[..errAt + |chunk|];
          errAt := errAt + |chunk|;
        }
      }
    }
    assert stdoutAll[..|stdoutAll|] == stdoutAll && stderrAll[..|stderrAll|] == stderrAll;
    n := k;
    TimedOutIff(stdoutAll, stderrAll, turns, limit, n);
  }

  lemma StartsAt(stdoutAll: seq<Byte>, stderrAll: seq<Byte>, turns: nat -> Select, limit: nat)
    ensures After(stdoutAll, stderrAll, turns, limit, 0) == START
  {
  }

  lemma AfterOneMore(stdoutAll: seq<Byte>, stderrAll: seq<Byte>, turns: nat -> Select, limit: nat, k: nat)
    ensures After(stdoutAll, stderrAll, turns, limit, k + 1) ==
            Advance(stdoutAll, stderrAll, limit, After(stdoutAll, stderrAll, turns, limit, k), turns(k))
  {
  }

  /** A stderr chunk: appended, then all but the last bytes deleted. */
  method TakeTail(ghost before: seq<Byte>, tail: seq<Byte>, chunk: seq<Byte>) returns (longer: seq<Byte>)
    requires tail == Tail(before, STDERR_TAIL)
    ensures longer == Tail(before + chunk, STDERR_TAIL)
  {
    TailOfTail(before, chunk, STDERR_TAIL);
    longer := tail + chunk;
    if |longer| > STDERR_TAIL {
      longer := longer[|longer| - STDERR_TAIL..];
    }
  }

  lemma EmptyHeadTail(limit: nat)
    ensures Head([], limit) == [] && Tail([], STDERR_TAIL) == []
  {
  }

  /**
   * `run_bytes` after the loop: it raises a timeout exactly when one of the n turns made stayed silent, and
   * otherwise what it returns is everything on stdout; it raises rather than cut it short.
   */
  method RunBytes(stdoutAll: seq<Byte>, stderrAll: seq<Byte>, turns: nat -> Select, limit: nat, code: int, check: bool)
    returns (r: Outcome, ghost n: nat)
    ensures Closed(After(stdoutAll, stderrAll, turns, limit, n))
    ensures forall k: nat :: k < n ==> !Closed(After(stdoutAll, stderrAll, turns, limit, k))
    ensures r == TimedOut <==> exists k: nat :: k < n && SilentTurn(stdoutAll, stderrAll, turns, limit, k)
    ensures r == StdoutLimit <==> r != TimedOut && |stdoutAll| > limit
    ensures r.Failed? <==> r != TimedOut && |stdoutAll| <= limit && check && code != 0
    ensures r.Failed? ==> r == Failed(code, Tail(stderrAll, 4000))
    ensures r.Completed? ==> r == Completed(code, stdoutAll, Tail(stderrAll, 4000)) && |stdoutAll| <= limit
  {
    hide SilentTurn, After;
    var stdout, tail, timedOut, limitExceeded, turnsMade := CaptureStreams(stdoutAll, stderrAll, turns, limit);
    n := turnsMade;
    if timedOut {
      return TimedOut, n;
    }
    if limitExceeded {
      return StdoutLimit, n;
    }
    if check && code != 0 {
      return Failed(code, tail), n;
    }
    return Completed(code, stdout, tail), n;
  }
}
