/** The bounded capture of a command's two output pipes: for every chunking and interleaving
    of their reads, each buffer keeps the first bytes of its own stream. */
module Captures {
  import opened Words

  const RAW_MAX := 32 * 1024
  const DISCARD := 4096

  /** What one turn of the loop finds. In `Ready`, a number means the pipe is readable: the
      read gives at most that many bytes, or fails if it is not positive. */
  datatype Found =
    | TimeUp
    | CancelAsked
    | Interrupted
    | SelectFailed
    | Quiet
    | Ready(out: Readable, err: Readable)

  datatype Readable = NotReady | Gives(k: int)

  datatype End = BothClosed | TimedOut | Cancelled

  /** A pipe as its reader sees it: how much of the stream was read, and whether it is open. */
  datatype Pipe = Pipe(read: nat, open: bool)

  function Min(a: int, b: int): int { if a < b then a else b }

  /** How much of what was read is kept. */
  function Kept(read: nat): nat { Min(read, RAW_MAX) }

  /** The room a read is given: the rest of the buffer, or a scratch area once it is full. */
  function Room(read: nat): (n: nat)
    ensures n > 0
  {
    if Kept(read) < RAW_MAX then RAW_MAX - Kept(read) else DISCARD
  }

  /** What a read returns: no more than was asked for, given, or left; zero at the end. */
  function Returns(stream: seq<byte>, read: nat, k: int): int
    requires read <= |stream|
  {
    if k <= 0 then k else Min(k, Min(Room(read), |stream| - read))
  }

  function ReadPipe(stream: seq<byte>, p: Pipe, r: Readable): (p': Pipe)
    requires p.read <= |stream|
    ensures p.read <= p'.read <= |stream|
  {
    if !p.open || r.NotReady? then p
    else
      var n := Returns(stream, p.read, r.k);
      if n <= 0 then p.(open := false) else p.(read := p.read + n)
  }

  datatype State = State(out: Pipe, err: Pipe)

  const START := State(Pipe(0, true), Pipe(0, true))

  ghost predicate Within(st: State, out: seq<byte>, err: seq<byte>)
  {
    st.out.read <= |out| && st.err.read <= |err|
  }

  /** The whole loop on a script of turns; past the last one the deadline has passed. */
  function Drive(turns: seq<Found>, out: seq<byte>, err: seq<byte>, st: State): (State, End)
    requires Within(st, out, err)
    decreases |turns|
  {
    if !st.out.open && !st.err.open then (st, BothClosed)
    else if turns == [] then (st, TimedOut)
    else
      match turns[0]
      case TimeUp => (st, TimedOut)
      case CancelAsked => (st, Cancelled)
      case SelectFailed => (st, TimedOut)
      case Ready(o, e) => Drive(turns[1..], out, err, State(ReadPipe(out, st.out, o), ReadPipe(err, st.err, e)))
      case _ => Drive(turns[1..], out, err, st)
  }

  /** A buffer that holds the kept part of its stream. */
  ghost predicate Holds(buffer: array<byte>, stream: seq<byte>, read: nat)
    reads buffer
  {
    buffer.Length == RAW_MAX + 1 && read <= |stream| && buffer[..Kept(read)] == stream[..Kept(read)]
  }

  /** One pipe's half of the loop body. */
  method ReadInto(buffer: array<byte>, stream: seq<byte>, p: Pipe, r: Readable) returns (p': Pipe)
    requires Holds(buffer, stream, p.read)
    modifies buffer
    ensures p' == ReadPipe(stream, p, r) && Holds(buffer, stream, p'.read)
  {
    p' := p;
    if !p.open || r.NotReady? {
      return;
    }
    var length := Kept(p.read);
    var n := Returns(stream, p.read, r.k);
    if n <= 0 {
      p' := p.(open := false);
      return;
    }
    p' := p.(read := p.read + n);
    if length < RAW_MAX {
      for i := 0 to n
        invariant buffer[..length + i] == stream[..length + i]
      {
        buffer[length + i] := stream[length + i];
      }
    }
  }

  /** The capture loop and its two terminators. Whatever the schedule, each buffer ends up
      with the first min(read, 32768) bytes of its own stream and a NUL behind them. */
  method Capture(turns: seq<Found>, out: seq<byte>, err: seq<byte>)
    returns (outBuffer: array<byte>, outLength: nat, errBuffer: array<byte>, errLength: nat, end: End)
    ensures var (st, how) := Drive(turns, out, err, START);
            end == how && outLength == Kept(st.out.read) && errLength == Kept(st.err.read)
    ensures outBuffer.Length == errBuffer.Length == RAW_MAX + 1 && outLength <= |out| && errLength <= |err|
    ensures outBuffer[..outLength + 1] == out[..outLength] + [0]
    ensures errBuffer[..errLength + 1] == err[..errLength] + [0]
  {
    outBuffer, errBuffer := new byte[RAW_MAX + 1], new byte[RAW_MAX + 1];
    var st := START;
    end := BothClosed;
    var i := 0;
    while st.out.open || st.err.open
      invariant i <= |turns| && Within(st, out, err) && end.BothClosed?
      invariant Holds(outBuffer, out, st.out.read) && Holds(errBuffer, err, st.err.read)
      invariant Drive(turns[i..], out, err, st) == Drive(turns, out, err, START)
      decreases |turns| - i
    {
      if i == |turns| || turns[i].TimeUp? {
        end := TimedOut;
        break;
      }
      if turns[i].CancelAsked? {
        end := Cancelled;
        break;
      }
      if turns[i].SelectFailed? {
        end := TimedOut;
        break;
      }
      assert turns[i..][1..] == turns[i + 1..];
      if turns[i].Ready? {
        var o := ReadInto(outBuffer, out, st.out, turns[i].out);
        var e := ReadInto(errBuffer, err, st.err, turns[i].err);
        st := State(o, e);
      }
      i := i + 1;
    }
    outLength, errLength := Kept(st.out.read), Kept(st.err.read);
    outBuffer[outLength] := 0;
    errBuffer[errLength] := 0;
  }

  /** The first turn that stops the loop, if one does. */
  function FirstStop(turns: seq<Found>): Found
  {
    if turns == [] then TimeUp
    else if turns[0].TimeUp? || turns[0].CancelAsked? || turns[0].SelectFailed? then turns[0]
    else FirstStop(turns[1..])
  }

  /** How the loop ends. With both pipes closed it looks at no further turn; otherwise it was
      cancelled exactly when a request to cancel stopped it, and timed out for the clock or a
      failed select. */
  lemma {:induction false} EndMeans(turns: seq<Found>, out: seq<byte>, err: seq<byte>, st: State)
    requires Within(st, out, err)
    ensures var (st', how) := Drive(turns, out, err, st);
            (how.BothClosed? <==> !st'.out.open && !st'.err.open) &&
            (how.Cancelled? ==> FirstStop(turns) == CancelAsked) &&
            (how.TimedOut? ==> FirstStop(turns) == TimeUp || FirstStop(turns) == SelectFailed)
    decreases |turns|
  {
    if turns != [] && (st.out.open || st.err.open) {
      match turns[0]
      case Ready(o, e) =>
        EndMeans(turns[1..], out, err, State(ReadPipe(out, st.out, o), ReadPipe(err, st.err, e)));
      case Interrupted => EndMeans(turns[1..], out, err, st);
      case Quiet => EndMeans(turns[1..], out, err, st);
      case _ =>
    }
  }

  /** What each read keeps: the first 32768 bytes of what was read. */
  lemma KeptIs(read: nat)
    ensures Kept(read) == if read < 32768 then read else 32768
  {
  }

  /** No read of the schedule fails. */
  ghost predicate Sound(turns: seq<Found>)
  {
    forall i :: 0 <= i < |turns| && turns[i].Ready? ==>
      (turns[i].out.Gives? ==> turns[i].out.k > 0) && (turns[i].err.Gives? ==> turns[i].err.k > 0)
  }

  /** A pipe is closed only at the end of its stream. */
  ghost predicate ClosedAtEnd(stream: seq<byte>, p: Pipe) { !p.open ==> p.read == |stream| }

  lemma {:induction false} EndOfStreams(turns: seq<Found>, out: seq<byte>, err: seq<byte>, st: State)
    requires Within(st, out, err) && Sound(turns) && ClosedAtEnd(out, st.out) && ClosedAtEnd(err, st.err)
    ensures var (st', how) := Drive(turns, out, err, st);
            Within(st', out, err) && (how.BothClosed? ==> st'.out.read == |out| && st'.err.read == |err|)
    decreases |turns|
  {
    if turns != [] && (st.out.open || st.err.open) {
      match turns[0]
      case Ready(o, e) =>
        EndOfStreams(turns[1..], out, err, State(ReadPipe(out, st.out, o), ReadPipe(err, st.err, e)));
      case Interrupted => EndOfStreams(turns[1..], out, err, st);
      case Quiet => EndOfStreams(turns[1..], out, err, st);
      case _ =>
    }
  }

  /** The schedule does not matter: any two that run to the end of both pipes without a failed
      read capture the same, the first 32768 bytes of each stream. */
  lemma ScheduleDoesNotMatter(turns: seq<Found>, other: seq<Found>, out: seq<byte>, err: seq<byte>)
    requires Sound(turns) && Sound(other)
    requires Drive(turns, out, err, START).1.BothClosed? && Drive(other, out, err, START).1.BothClosed?
    ensures Kept(Drive(turns, out, err, START).0.out.read) == Min(|out|, RAW_MAX)
    ensures Kept(Drive(turns, out, err, START).0.err.read) == Min(|err|, RAW_MAX)
    ensures Drive(turns, out, err, START).0.out.read == Drive(other, out, err, START).0.out.read
    ensures Drive(turns, out, err, START).0.err.read == Drive(other, out, err, START).0.err.read
  {
    EndOfStreams(turns, out, err, START);
    EndOfStreams(other, out, err, START);
  }
}
