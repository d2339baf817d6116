// Non-blocking pipes to an owned child, with the child's behaviour as a script of events.
module OwnedPipes {
  import opened Basics
  import opened Bytes

  const READ_CHUNK: nat := 8192
  const READS_PER_TURN: nat := 8
  const WRITE_CHUNK: nat := 65536

  // An empty chunk is the end of the stream.
  datatype ReadEvent = Chunk(bytes: Data) | NotReady | Interrupted | ReadFailed

  datatype ReadOutcome = Got(bytes: Data) | TryLater | TryAgain | ReadError

  // A finished script stands for a child that stays silent with the pipe open.
  datatype Stream = Stream(open: bool, events: seq<ReadEvent>)

  datatype WriteEvent = Accept(count: nat) | Full | WriteInterrupted | BrokenPipe | WriteFailed

  // `received` is what the child has been given.
  datatype Sink = Sink(open: bool, events: seq<WriteEvent>, received: Data)

  datatype WriteOutcome = Wrote(count: nat) | WriteLater | PipeBroken | WriteError

  // Everything the child still says before the end of the stream or a failed read.
  function Said(events: seq<ReadEvent>): Data {
    if events == [] then []
    else match events[0]
      case Chunk(bytes) => if bytes == [] then [] else bytes + Said(events[1..])
      case ReadFailed => []
      case _ => Said(events[1..])
  }

  // No read and no write on these ever fails.
  ghost predicate Readable(s: Stream) { ReadFailed !in s.events }

  ghost predicate Writable(s: Sink) {
    s.open && forall e :: e in s.events ==> (e.Accept? && e.count > 0) || e == Full || e == WriteInterrupted
  }

  function Remaining(s: Stream): Data { if s.open then Said(s.events) else [] }

  // One read of at most `limit` bytes; the rest of a larger chunk stays in the pipe.
  function ReadSome(s: Stream, limit: nat): (r: (ReadOutcome, Stream))
    requires limit > 0
    ensures r.1.open == s.open
    ensures r.0.Got? ==> Said(s.events) == r.0.bytes + Said(r.1.events) && |r.0.bytes| <= limit
    ensures r.0.Got? && r.0.bytes == [] ==> Said(s.events) == []
    ensures r.0.ReadError? ==> Said(s.events) == []
    ensures r.0.TryLater? || r.0.TryAgain? ==> Said(r.1.events) == Said(s.events)
    ensures Readable(s) ==> Readable(r.1) && !r.0.ReadError?
  {
    if s.events == [] then (TryLater, s)
    else
      var rest := s.events[1..];
      match s.events[0]
      case Chunk(bytes) =>
        if bytes == [] then (Got([]), s)
        else if |bytes| <= limit then (Got(bytes), s.(events := rest))
        else
          assert ([Chunk(bytes[limit..])] + rest)[1..] == rest;
          assert bytes == bytes[..limit] + bytes[limit..];
          assert Said(s.events) == bytes[..limit] + (bytes[limit..] + Said(rest));
          (Got(bytes[..limit]), s.(events := [Chunk(bytes[limit..])] + rest))
      case NotReady => (TryLater, s.(events := rest))
      case Interrupted => (TryAgain, s.(events := rest))
      case ReadFailed => (ReadError, s)
  }

  // What one bounded drain does to a pipe and its buffer: nothing is lost, reordered or read
  // past the end, and a pipe closes only at the end of its stream.
  ghost predicate Drains(before: Stream, after: Stream, had: Data, bytes: Data, times: nat) {
    && had <= bytes
    && |bytes| - |had| <= times * 8192
    && had + Remaining(before) == bytes + Remaining(after)
    && (after.open ==> before.open)
  }

  datatype Drained = Drained(pipe: Stream, bytes: Data, failed: bool)

  // One read of a drain either ends it or leaves the pipe and the bytes so far.
  datatype DrainStep = Stops(drained: Drained) | GoesOn(pipe: Stream, bytes: Data)

  function DrainOnce(s: Stream, had: Data): DrainStep {
    var (outcome, next) := ReadSome(s, READ_CHUNK);
    match outcome
    case Got(chunk) => if chunk == [] then Stops(Drained(next.(open := false), had, false))
      else GoesOn(next, had + chunk)
    case TryLater => Stops(Drained(next, had, false))
    case TryAgain => GoesOn(next, had)
    case ReadError => Stops(Drained(s, had, true))
  }

  // Reads until nothing is ready, the stream ends, a read fails, or the reads are used up.
  function DrainFrom(s: Stream, had: Data, times: nat): Drained
    decreases times, s
  {
    if !s.open || times == 0 then Drained(s, had, false)
    else
      match DrainOnce(s, had)
      case Stops(drained) => drained
      case GoesOn(next, bytes) => DrainFrom(next, bytes, times - 1)
  }

  ghost predicate DrainsTo(s: Stream, had: Data, times: nat, d: Drained) { DrainFrom(s, had, times) == d }

  lemma Regroup(a: Data, b: Data, c: Data)
    ensures (a + b) + c == a + (b + c)
  {
  }

  // One read loses nothing.
  lemma OnceDrains(s: Stream, had: Data)
    requires s.open
    ensures match DrainOnce(s, had)
            case Stops(d) => Drains(s, d.pipe, had, d.bytes, 0) && (d.failed ==> Remaining(d.pipe) == [])
            case GoesOn(next, bytes) => Drains(s, next, had, bytes, 1)
  {
    var (outcome, next) := ReadSome(s, READ_CHUNK);
    if outcome.Got? {
      Regroup(had, outcome.bytes, Remaining(next));
      assert had <= had + outcome.bytes;
    }
  }

  lemma DrainsOn(a: Stream, b: Stream, c: Stream, had: Data, mid: Data, bytes: Data, times: nat)
    requires times > 0 && Drains(a, b, had, mid, 1) && Drains(b, c, mid, bytes, times - 1)
    ensures Drains(a, c, had, bytes, times)
  {
  }

  lemma {:induction false} DrainLosesNothing(s: Stream, had: Data, times: nat, d: Drained)
    requires DrainsTo(s, had, times, d)
    ensures Drains(s, d.pipe, had, d.bytes, times) && (d.failed ==> Remaining(d.pipe) == [])
    decreases times
  {
    if s.open && times > 0 {
      OnceDrains(s, had);
      match DrainOnce(s, had)
      case Stops(_) =>
      case GoesOn(next, bytes) =>
        DrainLosesNothing(next, bytes, times - 1, d);
        DrainsOn(s, next, d.pipe, had, bytes, d.bytes, times);
    }
  }

  // Reads are limited so that a child that never stops writing cannot starve the loop.
  method DrainPipe(pipe: Stream, had: Data) returns (after: Stream, bytes: Data, failed: bool)
    ensures Drained(after, bytes, failed) == DrainFrom(pipe, had, 8)
    ensures Drains(pipe, after, had, bytes, 8)
    ensures !pipe.open ==> !failed && after == pipe && bytes == had
    ensures failed ==> Remaining(after) == []
    ensures Readable(pipe) ==> Readable(after) && !failed
  {
    after, bytes, failed := pipe, had, false;
    ghost var whole := DrainFrom(pipe, had, READS_PER_TURN);
    DrainLosesNothing(pipe, had, READS_PER_TURN, whole);
    if !pipe.open { return; }
    var turn := 0;
    while turn < READS_PER_TURN
      invariant turn <= READS_PER_TURN && after.open
      invariant DrainsTo(after, bytes, READS_PER_TURN - turn, whole)
      invariant Readable(pipe) ==> Readable(after)
    {
      var (outcome, next) := ReadSome(after, READ_CHUNK);
      match outcome {
        case Got(chunk) =>
          if chunk == [] {
            after := next.(open := false);
            return;
          }
          bytes := bytes + chunk;
        case TryLater =>
          after := next;
          return;
        case TryAgain =>
        case ReadError =>
          return after, bytes, true;
      }
      after := next;
      turn := turn + 1;
    }
  }

  predicate Quiet(events: seq<ReadEvent>) { events == [] || events[0] == NotReady }

  lemma DrainQuiet(s: Stream, had: Data)
    requires s.open && Quiet(s.events)
    ensures DrainFrom(s, had, 8) ==
              Drained(s.(events := if s.events == [] then [] else s.events[1..]), had, false)
  {
  }

  // A chunk that is ready is read whole, up to where the pipe falls silent.
  lemma DrainReady(s: Stream, had: Data, chunk: Data)
    requires s.open && s.events != [] && s.events[0] == Chunk(chunk) && Quiet(s.events[1..])
             && 0 < |chunk| <= 8192
    ensures var d := DrainFrom(s, had, 8); d.bytes == had + chunk && d.pipe.open && !d.failed
  {
    var next := ReadSome(s, READ_CHUNK).1;
    assert DrainFrom(s, had, READS_PER_TURN) == DrainFrom(next, had + chunk, READS_PER_TURN - 1);
    assert DrainFrom(next, had + chunk, READS_PER_TURN - 1).bytes == had + chunk;
  }

  // One write of at most |offered| bytes.
  function WriteSome(s: Sink, offered: Data): (r: (WriteOutcome, Sink))
    ensures r.1.open == s.open
    ensures r.0.Wrote? ==> r.0.count <= |offered| && r.1.received == s.received + offered[..r.0.count]
    ensures !r.0.Wrote? ==> r.1.received == s.received
    ensures Writable(s) && offered != [] ==> Writable(r.1) && (r.0.WriteLater? || (r.0.Wrote? && r.0.count > 0))
  {
    if s.events == [] then (WriteLater, s)
    else
      var next := s.(events := s.events[1..]);
      assert s.events[0] in s.events;
      match s.events[0]
      case Accept(count) =>
        var n := Min(count, |offered|);
        (Wrote(n), next.(received := s.received + offered[..n]))
      case Full => (WriteLater, next)
      case WriteInterrupted => (WriteLater, next)
      case BrokenPipe => (PipeBroken, next)
      case WriteFailed => (WriteError, next)
  }

  // How much of what is left one write gives to a child that would take this much.
  function Taken(count: nat, left: nat): nat { Min(count, Min(left, 65536)) }

  // How much of what is left the child takes in these many writes to the pipe.
  function Given(s: Sink, left: nat, times: nat): (r: nat)
    ensures r <= left
    decreases times
  {
    if !s.open || s.events == [] || left == 0 || times == 0 then 0
    else
      var next := s.(events := s.events[1..]);
      match s.events[0]
      case Accept(count) => Taken(count, left) + Given(next, left - Taken(count, left), times - 1)
      case BrokenPipe => 0
      case _ => Given(next, left, times - 1)
  }

  // After one more write the child takes as much as it would have without stopping there.
  ghost predicate GivesOn(before: Sink, after: Sink, left: nat, given: nat) {
    && given <= left
    && forall times: nat {:trigger Given(after, left - given, times)} ::
         Given(before, left, times + 1) == given + Given(after, left - given, times)
  }

  // What is given to the child does not change how it goes on.
  lemma {:induction false} GivenIgnoresReceived(s: Sink, received: Data, left: nat, times: nat)
    ensures Given(s.(received := received), left, times) == Given(s, left, times)
    decreases times
  {
    if s.open && s.events != [] && left > 0 && times > 0 {
      var next := s.(events := s.events[1..]);
      match s.events[0]
      case Accept(count) => GivenIgnoresReceived(next, received, left - Taken(count, left), times - 1);
      case BrokenPipe =>
      case _ => GivenIgnoresReceived(next, received, left, times - 1);
    }
  }

  // What one write gives.
  function GivenNow(s: Sink, left: nat): nat {
    if s.events != [] && s.events[0].Accept? then Taken(s.events[0].count, left) else 0
  }

  lemma WriteGives(before: Sink, after: Sink, left: nat, given: nat)
    requires before.open && given <= left && given == GivenNow(before, left)
    requires after.events == if before.events == [] then [] else before.events[1..]
    requires after.open <==> given < left && !(before.events != [] && before.events[0].BrokenPipe?)
    ensures GivesOn(before, after, left, given)
  {
    forall times: nat {:trigger Given(after, left - given, times)}
      ensures Given(before, left, times + 1) == given + Given(after, left - given, times)
    {
      if before.events != [] && after.open {
        var next := before.(events := before.events[1..]);
        GivenIgnoresReceived(next, after.received, left - given, times);
        assert next.(received := after.received) == after;
      }
    }
  }

  // The child's input is a prefix of what was to be written, however the writes are cut; the
  // pipe closes when the input is complete or the child has closed its end.
  method WriteChildStdin(pipe: Sink, input: Data, written: nat) returns (after: Sink, now: nat, failed: bool)
    requires written <= |input|
    ensures written <= now <= |input| && now - written <= 65536
    ensures after.received == pipe.received + input[written..now]
    ensures !pipe.open ==> after == pipe && now == written && !failed
    ensures after.open ==> now < |input| || failed
    ensures pipe.open && !after.open ==> now == |input| || now == written
    ensures pipe.open && pipe.events != [] ==>
              match pipe.events[0]
              case Accept(count) => now == written + Taken(count, |input| - written) && !failed
              case BrokenPipe => !after.open && !failed
              case WriteFailed => failed
              case _ => now == written && !failed
    ensures pipe.open && pipe.events == [] ==> now == written && !failed
    ensures !failed ==> GivesOn(pipe, after, |input| - written, now - written)
  {
    after, now, failed := pipe, written, false;
    if !pipe.open { return; }
    var end := Min(|input|, written + WRITE_CHUNK);
    var (outcome, next) := WriteSome(pipe, input[written..end]);
    after := next;
    match outcome {
      case Wrote(count) =>
        now := written + count;
        assert input[written..end][..count] == input[written..now];
      case WriteLater =>
      case PipeBroken => after := after.(open := false);
      case WriteError => return after, now, true;
    }
    if now == |input| { after := after.(open := false); }
    WriteGives(pipe, after, |input| - written, now - written);
  }
}
