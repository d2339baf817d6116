// The loop that owns one child: it drains both output pipes, feeds the input, forwards a
// cancellation, escalates, and always kills the group before it reaps the leader.
module OwnedRuns {
  import opened Basics
  import opened Bytes
  import opened Cancellation
  import opened Supervisor
  import opened OwnedPipes

  // What the system answers during one turn. An absent completion is a failed wait.
  datatype Observation = Observation(
    now: int,
    signal: Option<int>,
    repeatedEarly: bool,
    completion: Option<bool>,
    repeatedLate: bool,
    later: int,
    polled: bool)

  datatype Pipes = Pipes(stdout: Stream, stderr: Stream, stdin: Sink)

  datatype Ending =
    | Finished(stdout: Data, stderr: Data, calls: seq<Call>)
    | Failed(calls: seq<Call>)
    | Unfinished

  function SightOf(o: Observation): Sight {
    Sight(o.now, o.signal, o.repeatedEarly, o.completion == Some(true), o.repeatedLate)
  }

  function TurnOf(o: Observation, pipesClosed: bool): Turn {
    Turn(SightOf(o), pipesClosed, o.later)
  }

  // The turns were taken on the first observations, in order.
  ghost predicate TakenFrom(turns: seq<Turn>, observed: seq<Observation>) {
    && |turns| <= |observed|
    && forall n :: 0 <= n < |turns| ==> turns[n] == TurnOf(observed[n], turns[n].pipesClosed)
  }

  // SIGKILL always reaches the group while the unreaped leader still pins its identity, and
  // nothing is signalled after the wait.
  function KillThenReap(calls: seq<Call>): (r: seq<Call>)
    ensures |r| >= 2 && r[|r| - 1] == Reap && r[|r| - 2] == CleanUp
  {
    calls + [CleanUp, Reap]
  }

  // The whole log of a run: at most one forward, each continued, and one wait, at the end.
  ghost predicate Orderly(calls: seq<Call>) {
    && ForwardsIn(calls) <= 1
    && ContinuesAfterForwards(calls)
    && forall i :: 0 <= i < |calls| && calls[i] == Reap ==> i == |calls| - 1
  }

  lemma LoggedIsOrderly(c: Control)
    requires Logged(c)
    ensures Orderly(KillThenReap(c.calls))
  {
    ForwardsAppend(c.calls, CleanUp);
    ForwardsAppend(c.calls + [CleanUp], Reap);
    AppendCall(c.calls, CleanUp);
    AppendCall(c.calls + [CleanUp], Reap);
    assert KillThenReap(c.calls) == c.calls + [CleanUp] + [Reap];
  }

  lemma ReapsOnceAtTheEnd(k: Command, turns: seq<Turn>)
    ensures Orderly(KillThenReap(After(k, turns).calls))
  {
    KeepsDiscipline(k, turns);
    LoggedIsOrderly(After(k, turns));
  }

  // The input pipe closes when a cancellation is forwarded and when the leader's completion
  // starts the clock.
  predicate ClosesInput(before: Control, after: Control) {
    (after.forwarded && !before.forwarded) || (after.completed && before.stopping.None?)
  }

  ghost predicate Fed(stdin: Sink, input: Data, written: nat) {
    written <= |input| && stdin.received == input[..written]
  }

  // Everything read so far, and what is still in the pipes, is what the child says.
  ghost predicate Collected(pipes: Pipes, after: Pipes, stdout: Data, stderr: Data) {
    && Remaining(pipes.stdout) == stdout + Remaining(after.stdout)
    && Remaining(pipes.stderr) == stderr + Remaining(after.stderr)
  }

  // The input pipe stays closed once the command is stopping.
  ghost predicate InputStopped(c: Control, stdin: Sink) {
    c.stopping.Some? || c.forwarded ==> !stdin.open
  }

  // The loop is still going after these turns, and this is its state.
  ghost predicate At(k: Command, turns: seq<Turn>, observed: seq<Observation>, c: Control) {
    c == After(k, turns) && Running(k, turns) && TakenFrom(turns, observed)
  }

  // The loop ended with its last turn.
  ghost predicate EndedBy(k: Command, turns: seq<Turn>, calls: seq<Call>) {
    && turns != []
    && Running(k, turns[..|turns| - 1])
    && Ends(After(k, turns), turns[|turns| - 1])
    && calls == KillThenReap(After(k, turns).calls)
  }

  // A system error ended the loop: during the turn after these, before or after its
  // escalation, or after these turns while polling.
  ghost predicate Aborted(k: Command, turns: seq<Turn>, observed: seq<Observation>, calls: seq<Call>) {
    || calls == KillThenReap(After(k, turns).calls)
    || (|turns| < |observed|
        && var t := SightOf(observed[|turns|]);
           || calls == KillThenReap(ForwardStep(k, After(k, turns), t).calls)
           || calls == KillThenReap(Step(k, After(k, turns), t).calls))
  }

  function FedBefore(fed: seq<nat>, n: nat): nat
    requires n <= |fed|
  {
    if n == 0 then 0 else fed[n - 1]
  }

  // A turn after which the command is stopping has written nothing.
  ghost predicate NothingFed(k: Command, turns: seq<Turn>, fed: seq<nat>, n: nat) {
    n < |turns| && n < |fed| && IsStopping(After(k, turns[..n + 1])) ==> fed[n] == FedBefore(fed, n)
  }

  predicate IsStopping(c: Control) { c.stopping.Some? || c.forwarded }

  // The child's input grows turn by turn, and stops when the command is stopping.
  ghost predicate FedUntilStopping(k: Command, turns: seq<Turn>, fed: seq<nat>, input: Data, stdin: Sink) {
    && |fed| == |turns| && Fed(stdin, input, FedBefore(fed, |fed|))
    && forall n: nat {:trigger NothingFed(k, turns, fed, n)} :: NothingFed(k, turns, fed, n)
  }

  // Until then each turn has given the child what that many writes give.
  ghost predicate GivenBy(k: Command, turns: seq<Turn>, fed: seq<nat>, input: Data, first: Sink, n: nat) {
    n < |turns| && n < |fed| && !IsStopping(After(k, turns[..n + 1])) ==> fed[n] == Given(first, |input|, n + 1)
  }

  ghost predicate FedWhileGoing(k: Command, turns: seq<Turn>, fed: seq<nat>, input: Data, first: Sink) {
    forall n: nat {:trigger GivenBy(k, turns, fed, input, first, n)} :: GivenBy(k, turns, fed, input, first, n)
  }

  // The writes to come give what is left of the first pipe's.
  ghost predicate Goes(first: Sink, input: Data, n: nat, s: Sink, written: nat) {
    && written <= |input|
    && forall times: nat {:trigger Given(s, |input| - written, times)} ::
         Given(first, |input|, n + times) == written + Given(s, |input| - written, times)
  }

  lemma GoesOn(first: Sink, input: Data, n: nat, s: Sink, written: nat, after: Sink, now: nat)
    requires Goes(first, input, n, s, written) && written <= now <= |input|
    requires GivesOn(s, after, |input| - written, now - written)
    ensures Goes(first, input, n + 1, after, now) && now == Given(first, |input|, n + 1)
  {
    var left := |input| - now;
    forall times: nat {:trigger Given(after, left, times)}
      ensures Given(first, |input|, n + 1 + times) == now + Given(after, left, times)
    {
      assert |input| - written - (now - written) == left;
      assert Given(s, |input| - written, times + 1) == now - written + Given(after, left, times);
      assert n + 1 + times == n + (times + 1);
    }
    assert Given(after, left, 0) == 0 && n + 1 + 0 == n + 1;
  }

  // Paced observations of which enough follow the leader's completion.
  ghost predicate Outlasts(observed: seq<Observation>, i: nat, gap: int, least: int) {
    && i < |observed| && observed[i].completion == Some(true) && gap >= 0 && least > 0
    && (forall n :: 0 <= n < |observed| ==> observed[n].now <= observed[n].later)
    && (forall n :: 0 < n < |observed| ==> observed[n - 1].now + least <= observed[n].now <= observed[n - 1].now + gap)
    && (|observed| - 1 - i) * least >= 850 * MILLISECOND + 3 * gap
  }

  // Whatever the child and its descendants do, the loop does not outlive such observations.
  lemma NotOutlived(k: Command, observed: seq<Observation>, turns: seq<Turn>, i: nat, gap: int, least: int)
    requires TakenFrom(turns, observed) && |turns| == |observed| && Running(k, turns)
    ensures !Outlasts(observed, i, gap, least)
  {
    if Outlasts(observed, i, gap, least) {
      assert turns[i] == TurnOf(observed[i], turns[i].pipesClosed);
      TurnsAfterCompletion(k, turns, i, gap, least);
      assert false;
    }
  }

  method RunOwnedProcess(k: Command, pipes: Pipes, input: Data, observed: seq<Observation>)
    returns (ending: Ending, after: Pipes, ghost turns: seq<Turn>, ghost fed: seq<nat>)
    requires pipes.stdin.received == []
    ensures TakenFrom(turns, observed)
    ensures after.stdin.received <= input
    ensures ending.Finished? ==>
              EndedBy(k, turns, ending.calls) && Collected(pipes, after, ending.stdout, ending.stderr)
    ensures ending.Finished? && turns[|turns| - 1].pipesClosed ==>
              ending.stdout == Remaining(pipes.stdout) && ending.stderr == Remaining(pipes.stderr)
    ensures ending.Finished? && Kill !in After(k, turns).calls ==>
              ending.stdout == Remaining(pipes.stdout) && ending.stderr == Remaining(pipes.stderr)
    ensures ending.Finished? ==> Obeys(k, turns, ending.calls)
    ensures ending.Failed? ==> Running(k, turns) && Aborted(k, turns, observed, ending.calls)
    ensures ending.Unfinished? ==> Running(k, turns) && |turns| == |observed|
    ensures !ending.Failed? ==> FedUntilStopping(k, turns, fed, input, after.stdin)
    ensures !ending.Failed? ==> FedWhileGoing(k, turns, fed, input, pipes.stdin)
    ensures forall i, gap, least {:trigger Outlasts(observed, i, gap, least)} ::
              Outlasts(observed, i, gap, least) ==> !ending.Unfinished?
  {
    ending, after, turns, fed := TakeTurns(k, pipes, input, observed);
    if ending.Finished? { FinishedObeys(k, turns, ending.calls); }
  }

  // The whole log answers what the turns saw, and only a kill ends the loop with a pipe open.
  lemma FinishedObeys(k: Command, turns: seq<Turn>, calls: seq<Call>)
    requires EndedBy(k, turns, calls)
    ensures Obeys(k, turns, calls)
    ensures Kill !in After(k, turns).calls ==> turns[|turns| - 1].pipesClosed
  {
    RunObeys(k, turns);
    KillsAre(k, turns);
  }

  method TakeTurns(k: Command, pipes: Pipes, input: Data, observed: seq<Observation>)
    returns (ending: Ending, after: Pipes, ghost turns: seq<Turn>, ghost fed: seq<nat>)
    requires pipes.stdin.received == []
    ensures TakenFrom(turns, observed)
    ensures after.stdin.received <= input
    ensures ending.Finished? ==>
              EndedBy(k, turns, ending.calls) && Collected(pipes, after, ending.stdout, ending.stderr)
    ensures ending.Finished? && turns[|turns| - 1].pipesClosed ==>
              ending.stdout == Remaining(pipes.stdout) && ending.stderr == Remaining(pipes.stderr)
    ensures ending.Failed? ==> Running(k, turns) && Aborted(k, turns, observed, ending.calls)
    ensures ending.Unfinished? ==> Running(k, turns) && |turns| == |observed|
    ensures !ending.Failed? ==> FedUntilStopping(k, turns, fed, input, after.stdin)
    ensures !ending.Failed? ==> FedWhileGoing(k, turns, fed, input, pipes.stdin)
    ensures forall i, gap, least {:trigger Outlasts(observed, i, gap, least)} ::
              Outlasts(observed, i, gap, least) ==> !ending.Unfinished?
  {
    var c, moved, written := STARTED, Moved(pipes, [], []), 0;
    turns, fed, after := [], [], pipes;
    KeptAtStart(k, pipes, input);
    var n := 0;
    while n < |observed|
      invariant 0 <= n <= |observed| && |turns| == n && At(k, turns, observed, c)
      invariant Kept(k, pipes, input, turns, fed, c, moved) && written == FedBefore(fed, |fed|)
      invariant after == moved.pipes
    {
      var o := observed[n];
      if !c.completed && o.completion.None? {
        return Failed(KillThenReap(ForwardStep(k, c, SightOf(o)).calls)), after, turns, fed;
      }
      var next, t, failed;
      next, moved, written, t, failed := TakeTurn(k, pipes, input, observed, o, c, moved, written, turns, fed);
      after := moved.pipes;
      if failed { return Failed(KillThenReap(next.calls)), after, turns, fed; }
      turns, fed := turns + [t], fed + [written];
      if Ends(next, t) { return Finished(moved.stdout, moved.stderr, KillThenReap(next.calls)), after, turns, fed; }
      if !o.polled { return Failed(KillThenReap(next.calls)), after, turns, fed; }
      c := next;
      n := n + 1;
    }
    forall i: nat, gap, least | Outlasts(observed, i, gap, least) ensures false {
      NotOutlived(k, observed, turns, i, gap, least);
    }
    ending := Unfinished;
  }

  // One turn: the signals that its step sends, then the pipes.
  method TakeTurn(k: Command, ghost pipes: Pipes, input: Data, ghost observed: seq<Observation>, o: Observation,
                  c: Control, moved: Moved, written: nat, ghost turns: seq<Turn>, ghost fed: seq<nat>)
    returns (next: Control, after: Moved, now: nat, t: Turn, failed: bool)
    requires |turns| < |observed| && o == observed[|turns|] && At(k, turns, observed, c)
    requires Kept(k, pipes, input, turns, fed, c, moved) && written == FedBefore(fed, |fed|)
    ensures next == Step(k, c, SightOf(o)) && t == TurnOf(o, PipesClosed(after.pipes))
    ensures after.pipes.stdin.received <= input
    ensures !failed ==> Kept(k, pipes, input, turns + [t], fed + [now], next, after)
    ensures !failed ==> Taken(k, turns + [t], observed, next, t)
    ensures !failed && t.pipesClosed ==>
              after.stdout == Remaining(pipes.stdout) && after.stderr == Remaining(pipes.stderr)
  {
    next := Step(k, c, SightOf(o));
    after, now, failed := Exchange(moved, ClosesInput(c, next), input, written);
    t := TurnOf(o, PipesClosed(after.pipes));
    if !failed {
      AfterLast(k, turns, t);
      TurnTaken(k, turns, observed, next, t);
      KeptOn(k, pipes, input, turns, fed, c, t, moved, after, now);
    }
  }

  lemma KeptAtStart(k: Command, pipes: Pipes, input: Data)
    requires pipes.stdin.received == []
    ensures Kept(k, pipes, input, [], [], STARTED, Moved(pipes, [], []))
  {
  }

  // What the loop has moved through its pipes agrees with the turns it took.
  ghost predicate Kept(k: Command, pipes: Pipes, input: Data, turns: seq<Turn>, fed: seq<nat>, c: Control,
                       moved: Moved) {
    && FedUntilStopping(k, turns, fed, input, moved.pipes.stdin)
    && FedWhileGoing(k, turns, fed, input, pipes.stdin)
    && InputStopped(c, moved.pipes.stdin)
    && (!IsStopping(c) ==> Goes(pipes.stdin, input, |turns|, moved.pipes.stdin, FedBefore(fed, |fed|)))
    && Collected(pipes, moved.pipes, moved.stdout, moved.stderr)
  }

  lemma KeptOn(k: Command, pipes: Pipes, input: Data, turns: seq<Turn>, fed: seq<nat>, c: Control, t: Turn,
               before: Moved, moved: Moved, now: nat)
    requires Kept(k, pipes, input, turns, fed, c, before) && c == After(k, turns)
    requires Exchanges(before, moved, ClosesInput(c, Step(k, c, t.seen)), input, FedBefore(fed, |fed|), now)
    ensures Kept(k, pipes, input, turns + [t], fed + [now], Step(k, c, t.seen), moved)
    ensures PipesClosed(moved.pipes) ==>
              moved.stdout == Remaining(pipes.stdout) && moved.stderr == Remaining(pipes.stderr)
  {
    AfterLast(k, turns, t);
    ClosedWhenStopping(k, c, t.seen, before.pipes.stdin, moved.pipes.stdin);
    FedOneTurn(k, turns, t, fed, now, input, before.pipes.stdin, moved.pipes.stdin);
    StillGoing(k, turns, t, fed, now, input, pipes.stdin, before.pipes.stdin, moved.pipes.stdin);
    StillCollected(pipes, before.pipes, moved, before.stdout, before.stderr);
  }

  lemma FedOneTurn(k: Command, turns: seq<Turn>, t: Turn, fed: seq<nat>, now: nat, input: Data, before: Sink,
                   after: Sink)
    requires FedUntilStopping(k, turns, fed, input, before) && Fed(after, input, now)
    requires IsStopping(After(k, turns + [t])) ==> now == FedBefore(fed, |fed|)
    ensures FedUntilStopping(k, turns + [t], fed + [now], input, after)
  {
    var longer, more := turns + [t], fed + [now];
    forall n: nat ensures NothingFed(k, longer, more, n) {
      assert NothingFed(k, turns, fed, n);
      if n < |turns| {
        assert longer[..n + 1] == turns[..n + 1];
      } else if n == |turns| {
        assert longer[..n + 1] == longer;
      }
    }
  }

  lemma StillGoing(k: Command, turns: seq<Turn>, t: Turn, fed: seq<nat>, now: nat, input: Data, first: Sink,
                   before: Sink, after: Sink)
    requires |fed| == |turns| && FedWhileGoing(k, turns, fed, input, first)
    requires var c, next := After(k, turns), After(k, turns + [t]);
             && next == Step(k, c, t.seen)
             && (!IsStopping(c) ==> Goes(first, input, |turns|, before, FedBefore(fed, |fed|)))
             && (!ClosesInput(c, next) ==>
                   && FedBefore(fed, |fed|) <= now <= |input|
                   && GivesOn(before, after, |input| - FedBefore(fed, |fed|), now - FedBefore(fed, |fed|)))
    ensures FedWhileGoing(k, turns + [t], fed + [now], input, first)
    ensures !IsStopping(After(k, turns + [t])) ==> Goes(first, input, |turns| + 1, after, now)
  {
    var longer, more, next := turns + [t], fed + [now], After(k, turns + [t]);
    if !IsStopping(next) { GoesOn(first, input, |turns|, before, FedBefore(fed, |fed|), after, now); }
    forall n: nat ensures GivenBy(k, longer, more, input, first, n) {
      assert GivenBy(k, turns, fed, input, first, n);
      if n < |turns| {
        assert longer[..n + 1] == turns[..n + 1];
      } else if n == |turns| {
        assert longer[..n + 1] == longer;
      }
    }
  }

  predicate PipesClosed(p: Pipes) { !p.stdout.open && !p.stderr.open }

  // After its last turn the loop either is over or goes on.
  ghost predicate Taken(k: Command, turns: seq<Turn>, observed: seq<Observation>, c: Control, last: Turn) {
    && TakenFrom(turns, observed)
    && (Ends(c, last) ==> EndedBy(k, turns, KillThenReap(c.calls)))
    && (!Ends(c, last) ==> At(k, turns, observed, c))
  }

  lemma TurnTaken(k: Command, turns: seq<Turn>, observed: seq<Observation>, next: Control, t: Turn)
    requires Running(k, turns) && TakenFrom(turns, observed) && |turns| < |observed|
    requires t == TurnOf(observed[|turns|], t.pipesClosed)
    requires next == After(k, turns + [t])
    ensures Taken(k, turns + [t], observed, next, t)
  {
    assert (turns + [t])[..|turns|] == turns;
    if !Ends(next, t) { StillRunning(k, turns, t); }
  }

  lemma ClosedWhenStopping(k: Command, c: Control, t: Sight, stdin: Sink, after: Sink)
    requires InputStopped(c, stdin)
    requires ClosesInput(c, Step(k, c, t)) || !stdin.open ==> !after.open
    ensures InputStopped(Step(k, c, t), after)
    ensures IsStopping(Step(k, c, t)) ==> ClosesInput(c, Step(k, c, t)) || !stdin.open
  {
  }

  lemma StillCollected(pipes: Pipes, before: Pipes, moved: Moved, stdout: Data, stderr: Data)
    requires Collected(pipes, before, stdout, stderr)
    requires Drains(before.stdout, moved.pipes.stdout, stdout, moved.stdout, 8)
    requires Drains(before.stderr, moved.pipes.stderr, stderr, moved.stderr, 8)
    ensures Collected(pipes, moved.pipes, moved.stdout, moved.stderr)
    ensures PipesClosed(moved.pipes) ==>
              moved.stdout == Remaining(pipes.stdout) && moved.stderr == Remaining(pipes.stderr)
  {
  }

  lemma StillRunning(k: Command, before: seq<Turn>, t: Turn)
    requires Running(k, before) && !Ends(After(k, before + [t]), t)
    ensures Running(k, before + [t])
  {
    var turns := before + [t];
    forall n | 0 < n <= |turns| ensures !Ends(After(k, turns[..n]), turns[n - 1]) {
      if n < |turns| {
        assert turns[..n] == before[..n];
      } else {
        assert turns[..n] == turns;
      }
    }
  }

  datatype Moved = Moved(pipes: Pipes, stdout: Data, stderr: Data)

  // One turn's pipe work: both outputs drain, and the input is fed unless it is closed.
  ghost predicate Exchanges(before: Moved, after: Moved, closeInput: bool, input: Data, written: nat, now: nat) {
    && Fed(after.pipes.stdin, input, now)
    && (closeInput || !before.pipes.stdin.open ==> now == written && !after.pipes.stdin.open)
    && (!closeInput ==>
          written <= now && GivesOn(before.pipes.stdin, after.pipes.stdin, |input| - written, now - written))
    && Drains(before.pipes.stdout, after.pipes.stdout, before.stdout, after.stdout, 8)
    && Drains(before.pipes.stderr, after.pipes.stderr, before.stderr, after.stderr, 8)
  }

  lemma FedMore(input: Data, from: nat, to: nat)
    requires from <= to <= |input|
    ensures input[..to] == input[..from] + input[from..to]
    ensures input[..from] <= input
  {
  }

  method Exchange(before: Moved, closeInput: bool, input: Data, written: nat)
    returns (after: Moved, now: nat, failed: bool)
    requires Fed(before.pipes.stdin, input, written)
    ensures Fed(after.pipes.stdin, input, now)
    ensures !failed ==> Exchanges(before, after, closeInput, input, written, now)
  {
    var pipes := before.pipes;
    var stdin := if closeInput then pipes.stdin.(open := false) else pipes.stdin;
    now := written;
    var out, outBytes, outFailed := DrainPipe(pipes.stdout, before.stdout);
    after := Moved(Pipes(out, pipes.stderr, stdin), outBytes, before.stderr);
    if outFailed { return after, now, true; }
    var err, errBytes, errFailed := DrainPipe(pipes.stderr, before.stderr);
    after := Moved(Pipes(out, err, stdin), outBytes, errBytes);
    if errFailed { return after, now, true; }
    var sink, sent, writeFailed := WriteChildStdin(stdin, input, written);
    FedMore(input, written, sent);
    return Moved(Pipes(out, err, sink), outBytes, errBytes), sent, writeFailed;
  }
}
