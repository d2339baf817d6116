// The owned-process supervisor: forward a cancellation, terminate, kill and reap, with every
// wait bounded. Time is counted in nanoseconds.
module Supervisor {
  import opened Basics
  import opened Cancellation

  const MILLISECOND: int := 1_000_000
  const FORWARD_GRACE: int := 350 * MILLISECOND
  const LEADER_GRACE: int := 50 * MILLISECOND
  const KILL_GRACE: int := 100 * MILLISECOND

  // Signals sent to the pinned group, and the wait that ends its identity.
  datatype Call = Forward(signal: int) | Continue | Terminate | Kill | CleanUp | Reap

  // What is fixed when the child starts: finalizing means that a cancellation had already
  // come and the command may finalize after it.
  datatype Command = Command(purpose: Purpose, finalizing: bool)

  datatype Control = Control(
    stopping: Option<int>,
    terminated: bool,
    killed: Option<int>,
    forwarded: bool,
    completed: bool,
    calls: seq<Call>)

  const STARTED: Control := Control(None, false, None, false, false, [])

  // What one turn of the loop sees before it escalates, in order: the clock, the recorded
  // cause, whether a second signal has come (sampled twice), and the leader's state.
  datatype Sight = Sight(now: int, signal: Option<int>, repeatedEarly: bool, leaderDone: bool, repeatedLate: bool)

  // Then whether both output pipes have reached their end, and the clock again.
  datatype Turn = Turn(seen: Sight, pipesClosed: bool, later: int)

  // ----- One turn ----------------------------------------------------------

  function ForwardStep(k: Command, c: Control, t: Sight): Control {
    if t.signal.Some? && !c.forwarded && (!k.finalizing || t.repeatedEarly) then
      c.(forwarded := true,
         stopping := if k.purpose != Recording then Some(t.now + FORWARD_GRACE) else c.stopping,
         calls := c.calls + [Forward(t.signal.value), Continue])
    else c
  }

  function CompleteStep(c: Control, t: Sight): Control {
    var d := c.(completed := c.completed || t.leaderDone);
    if d.stopping.None? && d.completed then d.(stopping := Some(t.now + LEADER_GRACE)) else d
  }

  function EscalateStep(c: Control, t: Sight): Control {
    if c.killed.None? && t.repeatedLate then
      c.(killed := Some(t.now), calls := c.calls + [Kill])
    else if c.stopping.Some? && t.now >= c.stopping.value && c.killed.None? then
      if c.terminated then
        c.(killed := Some(t.now), calls := c.calls + [Kill])
      else
        c.(terminated := true,
           stopping := Some(t.now + if c.forwarded then FORWARD_GRACE else LEADER_GRACE),
           calls := c.calls + [Terminate])
    else c
  }

  function Step(k: Command, c: Control, t: Sight): Control {
    EscalateStep(CompleteStep(ForwardStep(k, c, t), t), t)
  }

  // The loop ends once the leader is done and its pipes have closed, or soon after a kill.
  predicate Ends(c: Control, t: Turn) {
    (c.completed && t.pipesClosed)
    || (c.killed.Some? && (t.pipesClosed || t.later - c.killed.value >= KILL_GRACE))
  }

  // ----- Whole runs --------------------------------------------------------

  function After(k: Command, turns: seq<Turn>): Control {
    if turns == [] then STARTED else Step(k, After(k, turns[..|turns| - 1]), turns[|turns| - 1].seen)
  }

  // The loop is still going after every one of these turns.
  ghost predicate Running(k: Command, turns: seq<Turn>) {
    forall n :: 0 < n <= |turns| ==> !Ends(After(k, turns[..n]), turns[n - 1])
  }

  // Turns follow each other within the gap, and the clock never goes back.
  ghost predicate Paced(turns: seq<Turn>, gap: int) {
    && (forall n :: 0 <= n < |turns| ==> turns[n].seen.now <= turns[n].later)
    && (forall n :: 0 < n < |turns| ==> turns[n - 1].seen.now <= turns[n].seen.now <= turns[n - 1].seen.now + gap)
  }

  lemma AfterLast(k: Command, turns: seq<Turn>, t: Turn)
    ensures After(k, turns + [t]) == Step(k, After(k, turns), t.seen)
  {
    assert (turns + [t])[..|turns|] == turns;
  }

  lemma AfterPrefix(k: Command, turns: seq<Turn>, n: nat)
    requires 0 < n <= |turns|
    ensures After(k, turns[..n]) == Step(k, After(k, turns[..n - 1]), turns[n - 1].seen)
  {
    assert turns[..n][..n - 1] == turns[..n - 1];
  }

  // ----- Signal discipline -------------------------------------------------

  function ForwardsIn(calls: seq<Call>): nat {
    if calls == [] then 0 else ForwardsIn(calls[..|calls| - 1]) + if calls[|calls| - 1].Forward? then 1 else 0
  }

  lemma ForwardsAppend(calls: seq<Call>, call: Call)
    ensures ForwardsIn(calls + [call]) == ForwardsIn(calls) + if call.Forward? then 1 else 0
  {
    assert (calls + [call])[..|calls|] == calls;
  }

  // Every forwarded signal is followed by a continue, so a stopped group can act on it.
  ghost predicate ContinuedAt(calls: seq<Call>, i: nat) {
    i < |calls| && calls[i].Forward? ==> i + 1 < |calls| && calls[i + 1] == Continue
  }

  ghost predicate ContinuesAfterForwards(calls: seq<Call>) {
    forall i: nat {:trigger ContinuedAt(calls, i)} :: ContinuedAt(calls, i)
  }

  ghost predicate SawRepeat(turns: seq<Turn>) {
    exists n :: 0 <= n < |turns| && turns[n].seen.repeatedLate
  }

  ghost predicate SawEarlyRepeat(turns: seq<Turn>) {
    exists n :: 0 <= n < |turns| && turns[n].seen.repeatedEarly
  }

  ghost predicate SawDone(turns: seq<Turn>) {
    exists n :: 0 <= n < |turns| && turns[n].seen.leaderDone
  }

  // The signals sent so far agree with the flags: one forward at most, one SIGTERM at most
  // before one SIGKILL, and no wait.
  ghost predicate LogOf(calls: seq<Call>, forwarded: bool, terminated: bool, killed: bool) {
    && ForwardsIn(calls) == (if forwarded then 1 else 0)
    && ContinuesAfterForwards(calls)
    && CleanUp !in calls && Reap !in calls
    && (terminated <==> Terminate in calls)
    && (killed <==> Kill in calls)
    && KillIsLast(calls)
  }

  ghost predicate Logged(c: Control) { LogOf(c.calls, c.forwarded, c.terminated, c.killed.Some?) }

  // After SIGKILL no SIGTERM and no second SIGKILL follows.
  ghost predicate SpareAfterKill(calls: seq<Call>, i: nat, j: nat) {
    i < j < |calls| && calls[i] == Kill ==> calls[j] != Kill && calls[j] != Terminate
  }

  ghost predicate KillIsLast(calls: seq<Call>) {
    forall i: nat, j: nat {:trigger SpareAfterKill(calls, i, j)} :: SpareAfterKill(calls, i, j)
  }

  ghost predicate Disciplined(k: Command, turns: seq<Turn>, c: Control) {
    Logged(c) && Justified(k, turns, c)
  }

  ghost predicate Justified(k: Command, turns: seq<Turn>, c: Control) {
    && (c.completed <==> SawDone(turns))
    && (c.terminated ==> c.stopping.Some?)
    && (c.completed ==> c.stopping.Some?)
    // SIGKILL waits for the SIGTERM grace period unless a second signal came
    && (c.killed.Some? ==> c.terminated || SawRepeat(turns))
    // a recording is never escalated while its leader still writes its output
    && (k.purpose == Recording && c.stopping.Some? ==> SawDone(turns))
    && (k.purpose == Recording && c.killed.Some? ==> SawDone(turns) || SawRepeat(turns))
    // a finalizing command ignores the signal that came before it
    && (k.finalizing && c.forwarded ==> SawEarlyRepeat(turns))
  }

  lemma {:induction false} KeepsDiscipline(k: Command, turns: seq<Turn>)
    ensures Disciplined(k, turns, After(k, turns))
  {
    if turns != [] {
      var before, t := turns[..|turns| - 1], turns[|turns| - 1];
      KeepsDiscipline(k, before);
      ForwardLogged(k, After(k, before), t.seen);
      EscalateLogged(CompleteStep(ForwardStep(k, After(k, before), t.seen), t.seen), t.seen);
      StepJustified(k, before, After(k, before), t);
      assert before + [t] == turns;
    }
  }

  lemma Extends(before: seq<Turn>, t: Turn)
    ensures SawRepeat(before + [t]) <==> SawRepeat(before) || t.seen.repeatedLate
    ensures SawEarlyRepeat(before + [t]) <==> SawEarlyRepeat(before) || t.seen.repeatedEarly
    ensures SawDone(before + [t]) <==> SawDone(before) || t.seen.leaderDone
  {
    var turns := before + [t];
    assert turns[|before|] == t;
    assert forall n :: 0 <= n < |before| ==> turns[n] == before[n];
    if SawRepeat(before) {
      var n :| 0 <= n < |before| && before[n].seen.repeatedLate; assert turns[n].seen.repeatedLate;
    }
    if SawEarlyRepeat(before) {
      var n :| 0 <= n < |before| && before[n].seen.repeatedEarly; assert turns[n].seen.repeatedEarly;
    }
    if SawDone(before) { var n :| 0 <= n < |before| && before[n].seen.leaderDone; assert turns[n].seen.leaderDone; }
  }

  lemma StepJustified(k: Command, before: seq<Turn>, c: Control, t: Turn)
    requires Justified(k, before, c)
    ensures Justified(k, before + [t], Step(k, c, t.seen))
  {
    Extends(before, t);
  }

  // A call that needs no continue, and comes after no SIGKILL that forbids it.
  lemma AppendCall(calls: seq<Call>, call: Call)
    requires ContinuesAfterForwards(calls) && KillIsLast(calls) && !call.Forward?
    requires Kill in calls ==> call != Kill && call != Terminate
    ensures ContinuesAfterForwards(calls + [call]) && KillIsLast(calls + [call])
  {
    forall i: nat ensures ContinuedAt(calls + [call], i) { assert ContinuedAt(calls, i); }
    forall i: nat, j: nat ensures SpareAfterKill(calls + [call], i, j) { assert SpareAfterKill(calls, i, j); }
  }

  lemma AppendForward(calls: seq<Call>, signal: int, terminated: bool, killed: bool)
    requires LogOf(calls, false, terminated, killed)
    ensures LogOf(calls + [Forward(signal), Continue], true, terminated, killed)
  {
    var more := calls + [Forward(signal), Continue];
    ForwardsAppend(calls, Forward(signal));
    ForwardsAppend(calls + [Forward(signal)], Continue);
    assert more == calls + [Forward(signal)] + [Continue];
    forall i: nat ensures ContinuedAt(more, i) { assert ContinuedAt(calls, i); }
    forall i: nat, j: nat ensures SpareAfterKill(more, i, j) { assert SpareAfterKill(calls, i, j); }
  }

  lemma AppendTerminate(calls: seq<Call>, forwarded: bool)
    requires LogOf(calls, forwarded, false, false)
    ensures LogOf(calls + [Terminate], forwarded, true, false)
  {
    ForwardsAppend(calls, Terminate);
    AppendCall(calls, Terminate);
  }

  lemma AppendKill(calls: seq<Call>, forwarded: bool, terminated: bool)
    requires LogOf(calls, forwarded, terminated, false)
    ensures LogOf(calls + [Kill], forwarded, terminated, true)
  {
    ForwardsAppend(calls, Kill);
    AppendCall(calls, Kill);
  }

  lemma ForwardLogged(k: Command, c: Control, t: Sight)
    requires Logged(c)
    ensures Logged(CompleteStep(ForwardStep(k, c, t), t))
  {
    if ForwardStep(k, c, t).forwarded != c.forwarded {
      AppendForward(c.calls, t.signal.value, c.terminated, c.killed.Some?);
    }
  }

  lemma EscalateLogged(c: Control, t: Sight)
    requires Logged(c)
    ensures Logged(EscalateStep(c, t))
  {
    var e := EscalateStep(c, t);
    if e.killed != c.killed {
      AppendKill(c.calls, c.forwarded, c.terminated);
    } else if e.terminated != c.terminated {
      AppendTerminate(c.calls, c.forwarded);
    }
  }

  // ----- Signals are sent --------------------------------------------------

  // A turn that must forward: it sees a cancellation, which for a command that finalizes after
  // one has to be a second one.
  predicate SeesCancel(k: Command, t: Turn) { t.seen.signal.Some? && (!k.finalizing || t.seen.repeatedEarly) }

  ghost predicate FirstCancel(k: Command, turns: seq<Turn>, n: nat) {
    n < |turns| && SeesCancel(k, turns[n]) && forall m :: 0 <= m < n ==> !SeesCancel(k, turns[m])
  }

  // The log answers what the turns saw: the first cancellation is forwarded as the signal that
  // it was, nothing is forwarded without one, and a second signal kills.
  ghost predicate Obeys(k: Command, turns: seq<Turn>, calls: seq<Call>) {
    && (forall n: nat {:trigger FirstCancel(k, turns, n)} ::
          FirstCancel(k, turns, n) ==> Forward(turns[n].seen.signal.value) in calls)
    && ((forall n :: 0 <= n < |turns| ==> !SeesCancel(k, turns[n])) ==> forall call :: call in calls ==> !call.Forward?)
    && (SawRepeat(turns) ==> Kill in calls)
  }

  lemma {:induction false} ForwardedWhenSeen(k: Command, turns: seq<Turn>)
    ensures After(k, turns).forwarded
            <==> exists n :: 0 <= n < |turns| && turns[n].seen.signal.Some?
                             && (!k.finalizing || turns[n].seen.repeatedEarly)
  {
    if turns != [] {
      var before, last := turns[..|turns| - 1], turns[|turns| - 1];
      ForwardedWhenSeen(k, before);
      assert forall n :: 0 <= n < |before| ==> turns[n] == before[n];
      if After(k, before).forwarded {
        var n :| 0 <= n < |before| && SeesCancel(k, before[n]);
        assert SeesCancel(k, turns[n]);
      }
      if SeesCancel(k, last) { assert SeesCancel(k, turns[|turns| - 1]); }
    }
  }

  lemma {:induction false} CallsStay(k: Command, turns: seq<Turn>, n: nat)
    requires n <= |turns|
    ensures After(k, turns[..n]).calls <= After(k, turns).calls
  {
    if n < |turns| {
      assert turns[..|turns| - 1][..n] == turns[..n];
      CallsStay(k, turns[..|turns| - 1], n);
    } else {
      assert turns[..n] == turns;
    }
  }

  lemma ForwardsSignal(k: Command, turns: seq<Turn>, n: nat)
    requires FirstCancel(k, turns, n)
    ensures Forward(turns[n].seen.signal.value) in After(k, turns).calls
  {
    var before := turns[..n];
    ForwardedWhenSeen(k, before);
    forall m | 0 <= m < n ensures !SeesCancel(k, before[m]) { }
    AfterPrefix(k, turns, n + 1);
    var d := ForwardStep(k, After(k, before), turns[n].seen);
    assert d.calls[|After(k, before).calls|] == Forward(turns[n].seen.signal.value);
    StepAppends(k, After(k, before), turns[n].seen);
    CallsStay(k, turns, n + 1);
  }

  lemma StepAppends(k: Command, c: Control, t: Sight)
    ensures c.calls <= ForwardStep(k, c, t).calls <= Step(k, c, t).calls
  {
  }

  lemma {:induction false} NothingForwarded(calls: seq<Call>)
    requires ForwardsIn(calls) == 0
    ensures forall call :: call in calls ==> !call.Forward?
  {
    if calls != [] {
      NothingForwarded(calls[..|calls| - 1]);
      assert calls == calls[..|calls| - 1] + [calls[|calls| - 1]];
    }
  }

  // A turn that sees a second signal has sent SIGKILL, then or before.
  lemma RepeatKills(k: Command, turns: seq<Turn>, n: nat)
    requires n < |turns| && turns[n].seen.repeatedLate
    ensures Kill in After(k, turns).calls
  {
    AfterPrefix(k, turns, n + 1);
    KeepsDiscipline(k, turns[..n + 1]);
    CallsStay(k, turns, n + 1);
  }

  lemma RunObeys(k: Command, turns: seq<Turn>)
    ensures Obeys(k, turns, After(k, turns).calls)
  {
    var calls := After(k, turns).calls;
    forall n: nat | FirstCancel(k, turns, n) ensures Forward(turns[n].seen.signal.value) in calls {
      ForwardsSignal(k, turns, n);
    }
    ForwardedWhenSeen(k, turns);
    KeepsDiscipline(k, turns);
    if forall n :: 0 <= n < |turns| ==> !SeesCancel(k, turns[n]) {
      assert !After(k, turns).forwarded by {
        assert forall n :: 0 <= n < |turns| ==> !SeesCancel(k, turns[n]);
      }
      NothingForwarded(calls);
    }
    if SawRepeat(turns) {
      var n :| 0 <= n < |turns| && turns[n].seen.repeatedLate;
      RepeatKills(k, turns, n);
    }
  }

  // ----- Bounded shutdown --------------------------------------------------

  // Deadlines lie within one grace period of the turn that set them.
  ghost predicate Timely(c: Control, now: int) {
    match c.killed
    case Some(at) => at <= now
    case None =>
      c.stopping.Some? ==> now < c.stopping.value <= now + if c.forwarded then 350 * MILLISECOND else 50 * MILLISECOND
  }

  // Whatever the next turns observe, the loop ends before the limit.
  ghost predicate Doomed(c: Control, gap: int, limit: int) {
    match c.killed
    case Some(at) => at + 100 * MILLISECOND <= limit
    case None =>
      && c.stopping.Some?
      && var forwardedBy := if c.forwarded then c.stopping.value else c.stopping.value + gap + 350 * MILLISECOND;
      && var terminatedBy := if c.terminated then forwardedBy else forwardedBy + gap + 350 * MILLISECOND;
      && terminatedBy + gap + 100 * MILLISECOND <= limit
  }

  lemma StepTimely(k: Command, c: Control, t: Sight, now: int)
    requires Timely(c, now) && now <= t.now
    ensures Timely(Step(k, c, t), t.now)
  {
  }

  lemma StepDoomed(k: Command, c: Control, t: Sight, now: int, gap: int, limit: int)
    requires Timely(c, now) && now <= t.now <= now + gap
    requires Doomed(c, gap, limit)
    ensures Doomed(Step(k, c, t), gap, limit)
  {
  }

  lemma {:induction false} RunTimely(k: Command, turns: seq<Turn>, gap: int)
    requires Paced(turns, gap) && turns != []
    ensures Timely(After(k, turns), turns[|turns| - 1].seen.now)
  {
    var before, t := turns[..|turns| - 1], turns[|turns| - 1];
    if before == [] {
      StepTimely(k, STARTED, t.seen, t.seen.now);
    } else {
      RunTimely(k, before, gap);
      StepTimely(k, After(k, before), t.seen, before[|before| - 1].seen.now);
    }
  }

  lemma StillGoing(c: Control, t: Turn, gap: int, limit: int)
    requires gap >= 0 && Timely(c, t.seen.now) && Doomed(c, gap, limit)
    requires t.seen.now <= t.later && !Ends(c, t)
    ensures t.seen.now < limit
  {
  }

  lemma RunningBefore(k: Command, turns: seq<Turn>)
    requires Running(k, turns) && turns != []
    ensures Running(k, turns[..|turns| - 1]) && !Ends(After(k, turns), turns[|turns| - 1])
  {
    var before := turns[..|turns| - 1];
    assert turns[..|turns|] == turns;
    forall n | 0 < n <= |before| ensures !Ends(After(k, before[..n]), before[n - 1]) {
      assert before[..n] == turns[..n];
    }
  }

  lemma {:induction false} StaysDoomed(k: Command, turns: seq<Turn>, i: nat, gap: int, limit: int)
    requires Paced(turns, gap) && i < |turns|
    requires Doomed(After(k, turns[..i + 1]), gap, limit)
    ensures Doomed(After(k, turns), gap, limit)
    decreases |turns|
  {
    if i + 1 == |turns| {
      assert turns[..i + 1] == turns;
    } else {
      var before, last := turns[..|turns| - 1], turns[|turns| - 1];
      assert before[..i + 1] == turns[..i + 1];
      StaysDoomed(k, before, i, gap, limit);
      RunTimely(k, before, gap);
      StepDoomed(k, After(k, before), last.seen, before[|before| - 1].seen.now, gap, limit);
    }
  }

  // Once doomed after turn i, the loop cannot still be going at the limit.
  lemma DoomedEnds(k: Command, turns: seq<Turn>, i: nat, gap: int, limit: int)
    requires gap >= 0 && Paced(turns, gap) && Running(k, turns) && i < |turns|
    requires Doomed(After(k, turns[..i + 1]), gap, limit)
    ensures turns[|turns| - 1].seen.now < limit
  {
    StaysDoomed(k, turns, i, gap, limit);
    RunTimely(k, turns, gap);
    RunningBefore(k, turns);
    StillGoing(After(k, turns), turns[|turns| - 1], gap, limit);
  }

  lemma TimelyAt(k: Command, turns: seq<Turn>, i: nat, gap: int)
    requires Paced(turns, gap) && i < |turns|
    ensures Timely(After(k, turns[..i + 1]), turns[i].seen.now)
    ensures After(k, turns[..i + 1]) == Step(k, After(k, turns[..i]), turns[i].seen)
  {
    RunTimely(k, turns[..i + 1], gap);
    AfterPrefix(k, turns, i + 1);
  }

  lemma ForwardIsBounded(k: Command, turns: seq<Turn>, i: nat, gap: int)
    requires gap >= 0 && Paced(turns, gap) && Running(k, turns) && i < |turns|
    requires k.purpose != Recording
    requires !After(k, turns[..i]).forwarded && After(k, turns[..i + 1]).forwarded
    ensures turns[|turns| - 1].seen.now < turns[i].seen.now + 800 * MILLISECOND + 2 * gap
  {
    TimelyAt(k, turns, i, gap);
    DoomedEnds(k, turns, i, gap, turns[i].seen.now + 800 * MILLISECOND + 2 * gap);
  }

  lemma {:induction false} FirstOf(k: Command, turns: seq<Turn>, i: nat) returns (n: nat)
    requires i < |turns| && SeesCancel(k, turns[i])
    ensures n <= i && FirstCancel(k, turns, n)
  {
    n := i;
    if m :| 0 <= m < i && SeesCancel(k, turns[m]) { n := FirstOf(k, turns, m); }
  }

  // A cancellation that is seen at turn i ends a non-recording command within the two
  // forwarding graces and the kill grace, plus two gaps between turns, whatever the child does.
  lemma CancellationIsBounded(k: Command, turns: seq<Turn>, i: nat, gap: int)
    requires gap >= 0 && Paced(turns, gap) && Running(k, turns) && i < |turns|
    requires k.purpose != Recording
    requires turns[i].seen.signal.Some? && (!k.finalizing || turns[i].seen.repeatedEarly)
    ensures turns[|turns| - 1].seen.now < turns[i].seen.now + 800 * MILLISECOND + 2 * gap
  {
    var n := FirstOf(k, turns, i);
    ForwardAtFirst(k, turns, n);
    ForwardIsBounded(k, turns, n, gap);
    ClockOnly(turns[..i + 1], n, gap);
  }

  lemma ForwardAtFirst(k: Command, turns: seq<Turn>, n: nat)
    requires FirstCancel(k, turns, n)
    ensures !After(k, turns[..n]).forwarded && After(k, turns[..n + 1]).forwarded
  {
    ForwardedWhenSeen(k, turns[..n]);
    forall m | 0 <= m < n ensures !SeesCancel(k, turns[..n][m]) { }
    ForwardedWhenSeen(k, turns[..n + 1]);
    assert SeesCancel(k, turns[..n + 1][n]);
  }

  // Every command ends within a fixed bound after its leader completes, even when descendants
  // hold the pipes open for ever and even when a cancellation still arrives meanwhile.
  lemma CompletionIsBounded(k: Command, turns: seq<Turn>, i: nat, gap: int)
    requires gap >= 0 && Paced(turns, gap) && Running(k, turns) && i < |turns|
    requires turns[i].seen.leaderDone
    ensures turns[|turns| - 1].seen.now < turns[i].seen.now + 850 * MILLISECOND + 3 * gap
  {
    TimelyAt(k, turns, i, gap);
    DoomedEnds(k, turns, i, gap, turns[i].seen.now + 850 * MILLISECOND + 3 * gap);
  }

  // A second signal ends every command, recordings included, within the kill grace.
  lemma RepeatIsBounded(k: Command, turns: seq<Turn>, i: nat, gap: int)
    requires gap >= 0 && Paced(turns, gap) && Running(k, turns) && i < |turns|
    requires turns[i].seen.repeatedLate
    ensures turns[|turns| - 1].seen.now < turns[i].seen.now + 100 * MILLISECOND
  {
    TimelyAt(k, turns, i, gap);
    DoomedEnds(k, turns, i, gap, turns[i].seen.now + 100 * MILLISECOND);
  }

  // ----- When the loop ends ------------------------------------------------

  // This turn sent SIGKILL.
  ghost predicate SentKill(k: Command, turns: seq<Turn>, m: nat) {
    m < |turns| && Kill !in After(k, turns[..m]).calls && Kill in After(k, turns[..m + 1]).calls
  }

  ghost predicate KilledAt(k: Command, turns: seq<Turn>, at: int) {
    exists m: nat {:trigger SentKill(k, turns, m)} :: SentKill(k, turns, m) && turns[m].seen.now == at
  }

  lemma SentKillBefore(k: Command, turns: seq<Turn>, m: nat)
    requires turns != [] && m < |turns| - 1
    ensures SentKill(k, turns, m) <==> SentKill(k, turns[..|turns| - 1], m)
  {
    var before := turns[..|turns| - 1];
    assert turns[..m] == before[..m] && turns[..m + 1] == before[..m + 1];
  }

  lemma KillsAre(k: Command, turns: seq<Turn>)
    ensures After(k, turns).killed.Some? <==> Kill in After(k, turns).calls
  {
    KeepsDiscipline(k, turns);
  }

  // The last turn sends SIGKILL exactly when none was sent before and one has been sent now, and
  // the kill grace runs from its own time.
  lemma SentKillLast(k: Command, turns: seq<Turn>)
    requires turns != []
    ensures var before, after := After(k, turns[..|turns| - 1]), After(k, turns);
            && (SentKill(k, turns, |turns| - 1) <==> before.killed.None? && after.killed.Some?)
            && (before.killed.None? && after.killed.Some? ==> after.killed.value == turns[|turns| - 1].seen.now)
            && (before.killed.Some? ==> after.killed == before.killed)
  {
    KillsAre(k, turns[..|turns| - 1]);
    KillsAre(k, turns);
    assert turns[..|turns|] == turns;
  }

  lemma {:induction false} KilledSince(k: Command, turns: seq<Turn>, at: int)
    ensures After(k, turns).killed == Some(at) <==> KilledAt(k, turns, at)
  {
    if turns != [] {
      var n := |turns| - 1;
      var before := turns[..n];
      KilledSince(k, before, at);
      SentKillLast(k, turns);
      if KilledAt(k, before, at) {
        var m: nat :| SentKill(k, before, m) && before[m].seen.now == at;
        SentKillBefore(k, turns, m);
      }
      if KilledAt(k, turns, at) {
        var m: nat :| SentKill(k, turns, m) && turns[m].seen.now == at;
        if m < n { SentKillBefore(k, turns, m); }
      }
    }
  }

  // The loop ends exactly when both pipes have closed and the leader is done or killed, or when
  // the kill grace has passed since SIGKILL was sent.
  lemma EndsExactly(k: Command, turns: seq<Turn>)
    requires turns != []
    ensures var last := turns[|turns| - 1];
            Ends(After(k, turns), last)
            <==> (last.pipesClosed && (SawDone(turns) || Kill in After(k, turns).calls))
                 || exists m: nat {:trigger SentKill(k, turns, m)} ::
                      SentKill(k, turns, m) && last.later - turns[m].seen.now >= 100 * MILLISECOND
  {
    KeepsDiscipline(k, turns);
    var c := After(k, turns);
    if c.killed.Some? { KilledSince(k, turns, c.killed.value); }
    forall m: nat | SentKill(k, turns, m) ensures c.killed == Some(turns[m].seen.now) {
      KilledSince(k, turns, turns[m].seen.now);
    }
  }

  // ----- Graces are given --------------------------------------------------

  // What started the clock that runs now: the turn, and the grace it gave.
  datatype Cause = Cause(turn: nat, grace: int)

  // Turn i forwarded the cancellation, saw the leader done, or sent SIGTERM.
  ghost predicate Gives(k: Command, turns: seq<Turn>, c: Cause, terminated: bool) {
    && c.turn < |turns|
    && var before, after := After(k, turns[..c.turn]), After(k, turns[..c.turn + 1]);
    && (if terminated then
          && !before.terminated && after.terminated
          && c.grace == (if after.forwarded then 350 * MILLISECOND else 50 * MILLISECOND)
        else
          || (k.purpose != Recording && !before.forwarded && after.forwarded && c.grace == 350 * MILLISECOND)
          || (after.completed && c.grace == 50 * MILLISECOND))
  }

  // A running deadline lies at least the whole grace after the turn that gave it.
  ghost predicate Granted(k: Command, turns: seq<Turn>, c: Control, cause: Cause) {
    && Gives(k, turns, cause, c.terminated)
    && c.stopping.Some? && turns[cause.turn].seen.now + cause.grace <= c.stopping.value
  }

  lemma {:induction false} ClockOnly(turns: seq<Turn>, i: nat, gap: int)
    requires Paced(turns, gap) && i < |turns|
    ensures turns[i].seen.now <= turns[|turns| - 1].seen.now
    decreases |turns|
  {
    if i + 1 < |turns| { ClockOnly(turns[..|turns| - 1], i, gap); }
  }

  lemma GivesStill(k: Command, turns: seq<Turn>, t: Turn, cause: Cause, terminated: bool)
    requires Gives(k, turns, cause, terminated)
    ensures Gives(k, turns + [t], cause, terminated)
  {
    assert (turns + [t])[..cause.turn] == turns[..cause.turn];
    assert (turns + [t])[..cause.turn + 1] == turns[..cause.turn + 1];
  }

  lemma TerminatedIsStopping(k: Command, turns: seq<Turn>)
    ensures After(k, turns).terminated ==> After(k, turns).stopping.Some?
  {
    KeepsDiscipline(k, turns);
  }

  // A step that sets a deadline gives a grace.
  lemma StepGives(k: Command, b: Control, t: Sight) returns (grace: int)
    requires b.terminated ==> b.stopping.Some?
    requires var c := Step(k, b, t);
             && c.stopping.Some?
             && (b.stopping.None? || b.terminated != c.terminated || (!c.terminated && b.stopping != c.stopping))
    ensures var c := Step(k, b, t);
            && t.now + grace <= c.stopping.value
            && (if c.terminated then
                  !b.terminated && grace == (if c.forwarded then 350 * MILLISECOND else 50 * MILLISECOND)
                else
                  || (k.purpose != Recording && !b.forwarded && c.forwarded && grace == 350 * MILLISECOND)
                  || (c.completed && grace == 50 * MILLISECOND))
  {
    var c := Step(k, b, t);
    var full := c.forwarded && (c.terminated || (!b.forwarded && k.purpose != Recording));
    grace := if full then 350 * MILLISECOND else 50 * MILLISECOND;
  }

  // The turn that sets a deadline gives its grace.
  lemma NewDeadline(k: Command, before: seq<Turn>, t: Turn) returns (cause: Cause)
    requires var b, c := After(k, before), After(k, before + [t]);
             && c.stopping.Some?
             && (b.stopping.None? || b.terminated != c.terminated || (!c.terminated && b.stopping != c.stopping))
    ensures Granted(k, before + [t], After(k, before + [t]), cause)
  {
    AfterLast(k, before, t);
    TerminatedIsStopping(k, before);
    assert (before + [t])[..|before|] == before && (before + [t])[..|before| + 1] == before + [t];
    var grace := StepGives(k, After(k, before), t.seen);
    cause := Cause(|before|, grace);
  }

  // A later turn can only move that deadline on: a cancellation forwarded after SIGTERM does.
  lemma OldDeadline(k: Command, before: seq<Turn>, t: Turn, cause: Cause)
    requires var b, c := After(k, before), After(k, before + [t]);
             Granted(k, before, b, cause) && b.terminated == c.terminated && (c.terminated || b.stopping == c.stopping)
    requires before[cause.turn].seen.now <= t.seen.now
    ensures Granted(k, before + [t], After(k, before + [t]), cause)
  {
    AfterLast(k, before, t);
    GivesStill(k, before, t, cause, After(k, before).terminated);
  }

  lemma {:induction false} DeadlinesAreGranted(k: Command, turns: seq<Turn>, gap: int) returns (cause: Cause)
    requires Paced(turns, gap) && After(k, turns).stopping.Some?
    ensures Granted(k, turns, After(k, turns), cause)
  {
    var before, last := turns[..|turns| - 1], turns[|turns| - 1];
    var b, c := After(k, before), After(k, turns);
    assert before + [last] == turns;
    if b.stopping.None? || b.terminated != c.terminated || (!c.terminated && b.stopping != c.stopping) {
      cause := NewDeadline(k, before, last);
    } else {
      cause := DeadlinesAreGranted(k, before, gap);
      ClockOnly(turns, cause.turn, gap);
      OldDeadline(k, before, last, cause);
    }
  }

  // Without a second signal a turn escalates only past a deadline that an earlier turn set.
  lemma EscalatesAtDeadline(k: Command, c: Control, t: Sight)
    requires !t.repeatedLate && (Step(k, c, t).terminated != c.terminated || Step(k, c, t).killed != c.killed)
    ensures c.stopping.Some? && c.stopping.value <= t.now
  {
  }

  lemma PacedBefore(turns: seq<Turn>, t: Turn, gap: int)
    requires Paced(turns + [t], gap)
    ensures Paced(turns, gap)
  {
    assert forall n :: 0 <= n < |turns| ==> (turns + [t])[n] == turns[n];
  }

  // SIGTERM comes no sooner than the grace after the forwarded cancellation or the leader's
  // completion, and SIGKILL, without a second signal, no sooner than the grace after SIGTERM.
  lemma EscalationWaits(k: Command, turns: seq<Turn>, t: Turn, gap: int) returns (cause: Cause)
    requires Paced(turns + [t], gap) && !t.seen.repeatedLate
    requires var b, c := After(k, turns), After(k, turns + [t]); b.terminated != c.terminated || b.killed != c.killed
    ensures Gives(k, turns + [t], cause, After(k, turns).terminated)
    ensures (turns + [t])[cause.turn].seen.now + cause.grace <= t.seen.now
  {
    AfterLast(k, turns, t);
    PacedBefore(turns, t, gap);
    EscalatesAtDeadline(k, After(k, turns), t.seen);
    cause := DeadlinesAreGranted(k, turns, gap);
    GivesStill(k, turns, t, cause, After(k, turns).terminated);
  }

  // A clock that moves by at least this much each turn.
  ghost predicate Ticks(turns: seq<Turn>, least: int) {
    least > 0 && forall n :: 0 < n < |turns| ==> turns[n - 1].seen.now + least <= turns[n].seen.now
  }

  lemma {:induction false} TicksAdd(turns: seq<Turn>, i: nat, least: int)
    requires i < |turns| && Ticks(turns, least)
    ensures turns[i].seen.now + (|turns| - 1 - i) * least <= turns[|turns| - 1].seen.now
    decreases |turns|
  {
    if i + 1 < |turns| {
      TicksAdd(turns[..|turns| - 1], i, least);
      assert (|turns| - 1 - i) * least == (|turns| - 2 - i) * least + least;
    }
  }

  // So the loop itself is bounded: few turns follow a completion, and few a cancellation.
  lemma TurnsAfterCompletion(k: Command, turns: seq<Turn>, i: nat, gap: int, least: int)
    requires gap >= 0 && Paced(turns, gap) && Running(k, turns) && i < |turns|
    requires turns[i].seen.leaderDone && Ticks(turns, least)
    ensures (|turns| - 1 - i) * least < 850 * MILLISECOND + 3 * gap
  {
    CompletionIsBounded(k, turns, i, gap);
    TicksAdd(turns, i, least);
  }

  lemma TurnsAfterCancellation(k: Command, turns: seq<Turn>, i: nat, gap: int, least: int)
    requires gap >= 0 && Paced(turns, gap) && Running(k, turns) && i < |turns| && k.purpose != Recording
    requires turns[i].seen.signal.Some? && (!k.finalizing || turns[i].seen.repeatedEarly) && Ticks(turns, least)
    ensures (|turns| - 1 - i) * least < 800 * MILLISECOND + 2 * gap
  {
    CancellationIsBounded(k, turns, i, gap);
    TicksAdd(turns, i, least);
  }
}
