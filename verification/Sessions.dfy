// A request/response session over an owned child: one request, a fixed number of lines back.
// Any failure closes it for good, since a half-read protocol cannot be resumed.
module Sessions {
  import opened Basics
  import opened Bytes
  import opened OwnedPipes

  datatype Failure =
    | Closed | Invalid | Cancelled | TimedOut | BadData | EndOfOutput | InputClosed | NothingWritten | PipeFailed
    | PollFailed

  // What one turn before the deadline observes: the cause is only looked at again as repeated
  // when the command may finalize after it.
  datatype Moment = Moment(cancelled: bool, repeated: bool, polled: bool)

  function Lines(bytes: Data): nat {
    if bytes == [] then 0 else (if bytes[0] == NEWLINE then 1 else 0) + Lines(bytes[1..])
  }

  // The lines of an answer are its newline bytes.
  lemma {:induction false} LinesAre(bytes: Data)
    ensures Lines(bytes) == multiset(bytes)[10]
  {
    if bytes != [] {
      LinesAre(bytes[1..]);
      assert bytes == [bytes[0]] + bytes[1..];
    }
  }

  lemma {:induction false} LinesConcat(a: Data, b: Data)
    ensures Lines(a + b) == Lines(a) + Lines(b)
  {
    if a == [] {
      assert a + b == b;
    } else {
      assert (a + b)[1..] == a[1..] + b;
      LinesConcat(a[1..], b);
    }
  }

  // The three pipes. The child's input records what the child has been given.
  datatype Ends = Ends(stdin: Sink, stdout: Stream, stderr: Stream)

  // Exactly the requested lines, each ended by a newline, and nothing after the last.
  predicate Framed(response: Data, lines: nat) {
    response != [] && response[|response| - 1] == NEWLINE && Lines(response) == lines
  }

  // One call of write; a closed input or a write of nothing is an error.
  method WriteRequest(stdin: Sink, request: Data, written: nat) returns (after: Sink, now: nat, error: Option<Failure>)
    requires written <= |request|
    ensures written <= now <= |request|
    ensures after.received == stdin.received + request[written..now] && after.open == stdin.open
    ensures written == |request| ==> error.None? && after == stdin
    ensures written < |request| && !stdin.open ==> error == Some(InputClosed)
    ensures error.Some? ==> now == written && error.value in {InputClosed, NothingWritten, PipeFailed}
    ensures Writable(stdin) ==> Writable(after) && error.None?
    ensures written < |request| && stdin.open && stdin.events != [] && stdin.events[0].Accept?
            && stdin.events[0].count > 0 ==>
              now == written + Taken(stdin.events[0].count, |request| - written)
  {
    after, now, error := stdin, written, None;
    if written == |request| { return; }
    if !stdin.open { return after, now, Some(InputClosed); }
    var end := Min(|request|, written + WRITE_CHUNK);
    var (outcome, next) := WriteSome(stdin, request[written..end]);
    after := next;
    match outcome {
      case Wrote(count) =>
        assert request[written..end][..count] == request[written..written + count];
        if count == 0 { return after, now, Some(NothingWritten); }
        now := written + count;
      case WriteLater =>
      case PipeBroken => error := Some(PipeFailed);
      case WriteError => error := Some(PipeFailed);
    }
  }

  // Which way bytes moved, in order, during one exchange.
  datatype Io = Asked | Heard

  // One answered request. The first bytes to move were the request's.
  datatype Reply = Reply(request: Data, lines: nat, response: Data, moves: seq<Io>)

  ghost predicate Answers(r: Reply) {
    Framed(r.response, r.lines) && r.moves != [] && r.moves[0] == Asked
  }

  // The progress of one exchange.
  datatype Progress = Progress(written: nat, response: Data, lines: nat, moves: seq<Io>)

  const UNBEGUN: Progress := Progress(0, [], 0, [])

  ghost predicate Asking(before: Ends, stdin: Sink, request: Data, p: Progress) {
    && p.written <= |request|
    && stdin.received == before.stdin.received + request[..p.written]
    && p.lines == Lines(p.response)
    && (p.moves == [] <==> p.written == 0 && p.response == [])
    && (p.moves != [] && p.moves[0] == Heard ==> p.written == 0)
  }

  ghost predicate Hearing(before: Ends, stdout: Stream, p: Progress) {
    Remaining(before.stdout) == p.response + Remaining(stdout)
  }

  ghost predicate Consistent(before: Ends, now: Ends, request: Data, p: Progress) {
    Asking(before, now.stdin, request, p) && Hearing(before, now.stdout, p)
  }

  // Why an exchange failed. Bad data is output before the request, or too much of it; the
  // other causes blame the pipes.
  ghost predicate Explains(before: Ends, request: Data, lines: nat, p: Progress, error: Failure) {
    match error
    case BadData =>
      && p.response != [] && p.response <= Remaining(before.stdout)
      && (p.written == 0 || Lines(p.response) >= lines)
      && !(Framed(p.response, lines) && p.written == |request|)
    case EndOfOutput => p.response == Remaining(before.stdout) && Lines(p.response) < lines
    case _ => error in {InputClosed, NothingWritten, PipeFailed} && !Sound(before)
  }

  // The pipes can be used without an error.
  ghost predicate Sound(ends: Ends) { Writable(ends.stdin) && Readable(ends.stdout) && Readable(ends.stderr) }

  // A child that takes the request at once, says nothing before it, and replies in one piece.
  predicate TakesAll(stdin: Sink, request: Data) {
    && stdin.open && stdin.events != [] && stdin.events[0].Accept?
    && stdin.events[0].count >= |request| && |request| <= 65536
  }

  predicate RepliesWith(stdout: Stream, lines: nat) {
    && stdout.open && stdout.events != [] && stdout.events[0].Chunk?
    && |stdout.events[0].bytes| <= 8192 && Framed(stdout.events[0].bytes, lines)
    && Quiet(stdout.events[1..])
  }

  predicate Cooperative(e: Ends, request: Data, lines: nat) {
    && TakesAll(e.stdin, request)
    && e.stdout.events != [] && e.stdout.events[0] == NotReady
    && RepliesWith(e.stdout.(events := e.stdout.events[1..]), lines)
  }

  datatype Turned = Going | Done | Failing(error: Failure)

  // Output that is already there before the request is unsolicited and ends the session.
  method Unsolicited(before: Ends, ends: Ends, p: Progress)
    returns (stdout: Stream, next: Progress, error: Option<Failure>)
    requires Hearing(before, ends.stdout, p)
    ensures Hearing(before, stdout, next) && next.written == p.written
    ensures error.None? ==> next == p
    ensures error.Some? ==> error.value in {PipeFailed, BadData} && p.written == 0
    ensures error == Some(BadData) ==> next.response != []
    ensures Readable(ends.stdout) ==> Readable(stdout) && error != Some(PipeFailed)
    ensures p.written == 0 && p.response == [] && ends.stdout.open && ends.stdout.events != []
            && ends.stdout.events[0] == NotReady ==>
              error.None? && stdout == ends.stdout.(events := ends.stdout.events[1..])
    ensures error.None? ==> Remaining(stdout) == Remaining(ends.stdout)
    ensures error.None? && p.written == 0 ==> p.response == []
    ensures p.written > 0 ==> error.None? && stdout == ends.stdout
    ensures p.written == 0 && p.response != [] ==> error.Some?
  {
    stdout, next, error := ends.stdout, p, None;
    if p.written == 0 {
      var response, failed;
      if stdout.open && Quiet(stdout.events) { DrainQuiet(stdout, p.response); }
      stdout, response, failed := DrainPipe(stdout, p.response);
      next := p.(response := response);
      NothingRead(Remaining(stdout));
      NothingRead(Remaining(ends.stdout));
      error := if failed then Some(PipeFailed) else if response != [] then Some(BadData) else None;
    }
  }

  // More of the request has been received.
  lemma Onward(received: Data, origin: Data, request: Data, from: nat, to: nat)
    requires from <= to <= |request| && received == origin + request[..from]
    ensures received + request[from..to] == origin + request[..to]
  {
    Regroup(origin, request[..from], request[from..to]);
    assert request[..from] + request[from..to] == request[..to];
  }

  method Ask(before: Ends, stdin: Sink, request: Data, p: Progress)
    returns (after: Sink, next: Progress, error: Option<Failure>)
    requires Asking(before, stdin, request, p) && (p.written == 0 ==> p.response == [])
    ensures Asking(before, after, request, next) && (next.written == 0 ==> next.response == [])
    ensures next.response == p.response
    ensures error.Some? ==> error.value in {InputClosed, NothingWritten, PipeFailed}
    ensures Writable(stdin) ==> Writable(after) && error.None?
    ensures p.written == 0 && request != [] && TakesAll(stdin, request) ==> next.written == |request| && error.None?
  {
    var now;
    after, now, error := WriteRequest(stdin, request, p.written);
    Onward(stdin.received, before.stdin.received, request, p.written, now);
    next := p.(written := now, moves := if now > p.written then p.moves + [Asked] else p.moves);
  }

  // The reply is complete only when exactly the requested lines have come after the whole request.
  method Judge(before: Ends, stdin: Sink, stdout: Stream, request: Data, lines: nat, p: Progress, response: Data)
    returns (next: Progress, turned: Turned)
    requires Asking(before, stdin, request, p) && request != [] && lines > 0
    requires p.response <= response && Remaining(before.stdout) == response + Remaining(stdout)
    ensures !turned.Failing? ==> Asking(before, stdin, request, next) && Hearing(before, stdout, next)
    ensures turned.Failing? ==> Explains(before, request, lines, next, turned.error)
    ensures next.response == response
    ensures turned.Done? <==> Framed(response, lines) && p.written == |request|
    ensures turned.Done? ==> next.written == |request| && next.moves[0] == Asked
    ensures turned.Going? ==> next.lines < lines && stdout.open
  {
    var arrived := response[|p.response|..];
    assert response == p.response + arrived;
    LinesConcat(p.response, arrived);
    var moves := if arrived == [] then p.moves else p.moves + [Heard];
    next := Progress(p.written, response, p.lines + Lines(arrived), moves);
    if next.lines >= lines {
      turned := if Framed(response, lines) && next.written == |request| then Done else Failing(BadData);
    } else {
      turned := if stdout.open then Going else Failing(EndOfOutput);
    }
  }

  method Listen(before: Ends, ends: Ends, request: Data, lines: nat, p: Progress)
    returns (stdout: Stream, next: Progress, turned: Turned)
    requires Consistent(before, ends, request, p) && request != [] && lines > 0
    requires Sound(before) ==> Readable(ends.stdout)
    ensures !turned.Failing? ==> Asking(before, ends.stdin, request, next) && Hearing(before, stdout, next)
    ensures turned.Failing? ==> Explains(before, request, lines, next, turned.error)
    ensures Sound(before) ==> Readable(stdout)
    ensures turned.Done? ==> next.written == |request| && Framed(next.response, lines) && next.moves[0] == Asked
    ensures turned.Going? ==> next.lines < lines && stdout.open
    ensures p.response == [] && p.written == |request| && RepliesWith(ends.stdout, lines) ==>
              turned.Done? && next.response == ends.stdout.events[0].bytes
  {
    var response, failed;
    stdout, response, failed := Hear(ends.stdout, lines, p.response);
    if failed { return stdout, p, Failing(PipeFailed); }
    next, turned := Judge(before, ends.stdin, stdout, request, lines, p, response);
  }

  // What came with nothing read leaves all the rest.
  lemma NothingRead(rest: Data)
    ensures [] + rest == rest
  {
  }

  method Hear(pipe: Stream, lines: nat, had: Data) returns (after: Stream, bytes: Data, failed: bool)
    ensures had <= bytes && had + Remaining(pipe) == bytes + Remaining(after)
    ensures Readable(pipe) ==> Readable(after) && !failed
    ensures had == [] && RepliesWith(pipe, lines) ==> bytes == pipe.events[0].bytes && !failed
  {
    if RepliesWith(pipe, lines) { DrainReady(pipe, had, pipe.events[0].bytes); }
    after, bytes, failed := DrainPipe(pipe, had);
  }

  method Discard(pipe: Stream) returns (after: Stream, failed: bool)
    ensures Readable(pipe) ==> Readable(after) && !failed
  {
    var dropped;
    after, dropped, failed := DrainPipe(pipe, []);
  }

  // One turn of an exchange, up to the poll. Diagnostics are drained and dropped.
  method ExchangeTurn(before: Ends, ends: Ends, request: Data, lines: nat, p: Progress)
    returns (after: Ends, next: Progress, turned: Turned)
    requires Consistent(before, ends, request, p) && request != [] && lines > 0
    requires Sound(before) ==> Sound(ends)
    ensures Sound(before) ==> Sound(after)
    ensures turned.Failing? ==> Explains(before, request, lines, next, turned.error)
    ensures !turned.Failing? ==> Consistent(before, after, request, next)
    ensures turned.Done? ==> next.written == |request| && Framed(next.response, lines) && next.moves[0] == Asked
    ensures turned.Going? ==> next.lines < lines && after.stdout.open
    ensures p.written == 0 && p.response != [] ==> turned.Failing?
    ensures p.written == 0 && p.response == [] && Cooperative(ends, request, lines) && Readable(ends.stderr) ==>
              turned.Done? && next.response == ends.stdout.events[1].bytes
  {
    after := ends;
    var stdout, error;
    stdout, next, error := Unsolicited(before, ends, p);
    after := after.(stdout := stdout);
    if error.Some? { return after, next, Failing(error.value); }
    var stdin;
    stdin, next, error := Ask(before, ends.stdin, request, p);
    after := Ends(stdin, stdout, ends.stderr);
    if error.Some? { return after, next, Failing(error.value); }
    var stderr, failed := Discard(ends.stderr);
    after := Ends(stdin, stdout, stderr);
    if failed { return after, next, Failing(PipeFailed); }
    stdout, next, turned := Listen(before, after, request, lines, next);
    after := Ends(stdin, stdout, stderr);
  }

  // The replies given so far are a prefix of the child's output. While the session is open
  // they are exactly what has left that output, and its input has received exactly the
  // requests, in order.
  ghost predicate Recorded(origin: Ends, ends: Ends, replies: seq<Reply>, alive: bool) {
    && (forall i {:trigger Answers(replies[i])} :: 0 <= i < |replies| ==> Answers(replies[i]))
    && Responses(replies) <= Remaining(origin.stdout)
    && (alive ==> Remaining(origin.stdout) == Responses(replies) + Remaining(ends.stdout))
    && (alive ==> ends.stdin.received == origin.stdin.received + Requests(replies))
  }

  lemma Recording(origin: Ends, ends: Ends, after: Ends, replies: seq<Reply>, r: Reply)
    requires Recorded(origin, ends, replies, true) && Answers(r)
    requires Remaining(ends.stdout) == r.response + Remaining(after.stdout)
    requires after.stdin.received == ends.stdin.received + r.request
    ensures Recorded(origin, after, replies + [r], true)
  {
    ResponsesAppend(replies, r);
    Regroup(Responses(replies), r.response, Remaining(after.stdout));
    Regroup(origin.stdin.received, Requests(replies), r.request);
    var longer := replies + [r];
    forall i | 0 <= i < |longer| ensures Answers(longer[i]) { assert i < |replies| ==> Answers(replies[i]); }
  }

  class CommandSession {
    const finalizes: bool
    var alive: bool
    var ends: Ends
    ghost var replies: seq<Reply>
    ghost const origin: Ends

    ghost predicate Valid() reads this { Recorded(origin, ends, replies, alive) }

    constructor (finalizes: bool, ends: Ends)
      ensures Valid() && alive && this.ends == ends && origin == ends && replies == [] && this.finalizes == finalizes
    {
      this.finalizes, this.alive, this.ends := finalizes, true, ends;
      this.replies, this.origin := [], ends;
    }

    // The moments are the turns that begin before this exchange's deadline; the late one finds
    // it passed, and still looks at cancellation first.
    method ExchangeLines(request: Data, lines: nat, cancelledAtStart: bool, moments: seq<Moment>, late: Moment)
      returns (result: Result<Data, Failure>)
      requires Valid()
      modifies this
      ensures Valid()
      ensures !old(alive) ==> result == Err(Closed)
      ensures result.Ok? ==>
                old(alive) && alive && |replies| == |old(replies)| + 1
                && replies == old(replies) + [Reply(request, lines, result.value, replies[|replies| - 1].moves)]
      ensures result.Ok? ==> ends.stdin.received == old(ends.stdin.received) + request
      ensures result.Ok? ==> Remaining(old(ends).stdout) == result.value + Remaining(ends.stdout)
      ensures result.Err? ==> !alive && replies == old(replies)
      ensures old(alive) && request != [] && lines > 0 && result.Err? ==>
                Excused(result.error, old(ends), request, lines, moments, late, finalizes && cancelledAtStart)
      ensures old(alive) && Proceeds(old(ends), request, lines, moments, finalizes && cancelledAtStart) ==>
                result == Ok(old(ends).stdout.events[1].bytes)
    {
      var after, p;
      result, after, p := Exchange(request, lines, cancelledAtStart, moments, late);
      match result {
        case Err(_) => alive := false;
        case Ok(response) =>
          var reply := Reply(request, lines, response, p.moves);
          Recording(origin, ends, after, replies, reply);
          ends, replies := after, replies + [reply];
      }
    }

    method Exchange(request: Data, lines: nat, cancelledAtStart: bool, moments: seq<Moment>, late: Moment)
      returns (result: Result<Data, Failure>, after: Ends, p: Progress)
      ensures !alive ==> result == Err(Closed)
      ensures alive && (request == [] || lines == 0) ==> result == Err(Invalid)
      ensures result.Ok? ==> alive && Answers(Reply(request, lines, result.value, p.moves))
      ensures result.Ok? ==> after.stdin.received == ends.stdin.received + request
      ensures result.Ok? ==> Remaining(ends.stdout) == result.value + Remaining(after.stdout)
      ensures alive && request != [] && lines > 0 && result.Err? ==>
                FailsFor(result.error, ends, request, lines, p, moments, late, finalizes && cancelledAtStart)
      ensures alive && Proceeds(ends, request, lines, moments, finalizes && cancelledAtStart) ==>
                result == Ok(ends.stdout.events[1].bytes)
    {
      after, p := ends, UNBEGUN;
      if !alive { return Err(Closed), after, p; }
      if request == [] || lines == 0 { return Err(Invalid), after, p; }
      result, after, p := ExchangeTurns(ends, request, lines, moments, late, finalizes && cancelledAtStart);
    }
  }

  lemma ConsistentAtStart(ends: Ends, request: Data)
    ensures Consistent(ends, ends, request, UNBEGUN)
  {
    NothingRead(Remaining(ends.stdout));
    assert ends.stdin.received + request[..0] == ends.stdin.received;
  }

  // Turn after turn, until one settles the exchange or the deadline has passed.
  method ExchangeTurns(ends: Ends, request: Data, lines: nat, moments: seq<Moment>, late: Moment, finalizing: bool)
    returns (result: Result<Data, Failure>, after: Ends, p: Progress)
    requires request != [] && lines > 0
    ensures result.Ok? ==> Answers(Reply(request, lines, result.value, p.moves))
    ensures result.Ok? ==> after.stdin.received == ends.stdin.received + request
    ensures result.Ok? ==> Remaining(ends.stdout) == result.value + Remaining(after.stdout)
    ensures result.Err? ==> FailsFor(result.error, ends, request, lines, p, moments, late, finalizing)
    ensures Proceeds(ends, request, lines, moments, finalizing) ==> result == Ok(ends.stdout.events[1].bytes)
  {
    after, p := ends, UNBEGUN;
    ConsistentAtStart(ends, request);
    var n := 0;
    while n < |moments|
      invariant 0 <= n <= |moments|
      invariant Consistent(ends, after, request, p)
      invariant Sound(ends) ==> Sound(after)
      invariant n == 0 ==> after == ends && p == UNBEGUN
      invariant n > 0 ==> !(Cooperative(ends, request, lines) && Readable(ends.stderr))
      invariant PassedTo(moments, n, finalizing)
    {
      if moments[n].cancelled && (!finalizing || moments[n].repeated) {
        assert Cancels(moments[n], finalizing);
        return Err(Cancelled), after, p;
      }
      var turned;
      after, p, turned := ExchangeTurn(ends, after, request, lines, p);
      match turned {
        case Failing(error) => return Err(error), after, p;
        case Done =>
          Answered(ends, after, request, lines, p);
          return Ok(p.response), after, p;
        case Going =>
          if !moments[n].polled { return Err(PollFailed), after, p; }
      }
      n := n + 1;
    }
    AllPassed(moments, finalizing);
    var cancelled := late.cancelled && (!finalizing || late.repeated);
    return if cancelled then Err(Cancelled) else Err(TimedOut), after, p;
  }

  lemma Answered(before: Ends, after: Ends, request: Data, lines: nat, p: Progress)
    requires Consistent(before, after, request, p)
    requires p.written == |request| && Framed(p.response, lines) && p.moves != [] && p.moves[0] == Asked
    ensures Answers(Reply(request, lines, p.response, p.moves))
    ensures after.stdin.received == before.stdin.received + request
  {
    assert request[..p.written] == request;
  }

  // Every failure has its cause: a cancelling turn, a failed poll, no turn left before the
  // deadline, or one of the above.
  ghost predicate FailsFor(e: Failure, before: Ends, request: Data, lines: nat, p: Progress, moments: seq<Moment>,
                           late: Moment, finalizing: bool) {
    match e
    case Cancelled => Cancels(late, finalizing) || exists m :: m in moments && Cancels(m, finalizing)
    case PollFailed => exists m :: m in moments && !m.polled
    case TimedOut => !Cancels(late, finalizing) && forall m :: m in moments ==> Passes(m, finalizing)
    case _ => Explains(before, request, lines, p, e)
  }

  ghost predicate Excused(e: Failure, before: Ends, request: Data, lines: nat, moments: seq<Moment>, late: Moment,
                          finalizing: bool) {
    exists p :: FailsFor(e, before, request, lines, p, moments, late, finalizing)
  }

  // A valid request to a cooperative child, with a turn before the deadline and no cancellation.
  predicate Proceeds(e: Ends, request: Data, lines: nat, moments: seq<Moment>, finalizing: bool) {
    && request != [] && lines > 0
    && moments != [] && !Cancels(moments[0], finalizing)
    && Cooperative(e, request, lines) && ReadFailed !in e.stderr.events
  }

  predicate Cancels(m: Moment, finalizing: bool) { m.cancelled && (!finalizing || m.repeated) }

  predicate Passes(m: Moment, finalizing: bool) { !Cancels(m, finalizing) && m.polled }

  ghost predicate PassedTo(moments: seq<Moment>, n: nat, finalizing: bool)
    requires n <= |moments|
  {
    forall k {:trigger Passes(moments[k], finalizing)} :: 0 <= k < n ==> Passes(moments[k], finalizing)
  }

  lemma AllPassed(moments: seq<Moment>, finalizing: bool)
    requires PassedTo(moments, |moments|, finalizing)
    ensures forall m :: m in moments ==> Passes(m, finalizing)
  {
  }

  function Responses(replies: seq<Reply>): Data {
    if replies == [] then [] else Responses(replies[..|replies| - 1]) + replies[|replies| - 1].response
  }

  function Requests(replies: seq<Reply>): Data {
    if replies == [] then [] else Requests(replies[..|replies| - 1]) + replies[|replies| - 1].request
  }

  lemma ResponsesAppend(replies: seq<Reply>, r: Reply)
    ensures Responses(replies + [r]) == Responses(replies) + r.response
    ensures Requests(replies + [r]) == Requests(replies) + r.request
  {
    assert (replies + [r])[..|replies|] == replies;
  }
}
