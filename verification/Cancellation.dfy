// Signal handlers record the first cancellation cause and count signals with two separate
// atomic steps, so several handlers can interleave between them.
module Cancellation {
  import opened Basics

  // A handler has arrived, then has tried to claim the first cause, then has been counted.
  datatype Stage = Arrived | Claimed | Counted

  datatype Handler = Handler(signal: int, stage: Stage)

  datatype World = World(first: int, signals: nat, handlers: seq<Handler>)

  datatype Action = Arrive(signal: int) | Claim(handler: nat) | Count(handler: nat)

  const QUIET: World := World(0, 0, [])

  // Zero stands for no cause yet; a claim only replaces zero.
  function Act(w: World, a: Action): World {
    match a
    case Arrive(signal) =>
      if signal == 0 then w else w.(handlers := w.handlers + [Handler(signal, Arrived)])
    case Claim(h) =>
      if h < |w.handlers| && w.handlers[h].stage == Arrived then
        w.(first := if w.first == 0 then w.handlers[h].signal else w.first,
           handlers := w.handlers[h := w.handlers[h].(stage := Claimed)])
      else w
    case Count(h) =>
      if h < |w.handlers| && w.handlers[h].stage == Claimed then
        w.(signals := w.signals + 1, handlers := w.handlers[h := w.handlers[h].(stage := Counted)])
      else w
  }

  function Run(w: World, actions: seq<Action>): World
    decreases actions
  {
    if actions == [] then w else Run(Act(w, actions[0]), actions[1..])
  }

  function SignalOf(w: World): Option<int> { if w.first == 0 then None else Some(w.first) }

  predicate RepeatedIn(w: World) { w.signals > 1 }

  function CountedHandlers(handlers: seq<Handler>): nat {
    if handlers == [] then 0 else (if handlers[0].stage == Counted then 1 else 0) + CountedHandlers(handlers[1..])
  }

  ghost predicate Consistent(w: World) {
    && w.signals == CountedHandlers(w.handlers)
    && (forall h :: 0 <= h < |w.handlers| ==> w.handlers[h].signal != 0)
    && (w.first == 0 ==> forall h :: 0 <= h < |w.handlers| ==> w.handlers[h].stage == Arrived)
    && (w.first != 0 ==> exists h ::
          0 <= h < |w.handlers| && w.handlers[h].signal == w.first && w.handlers[h].stage != Arrived)
  }

  lemma {:induction false} CountedUpdate(handlers: seq<Handler>, h: nat, x: Handler)
    requires h < |handlers|
    ensures CountedHandlers(handlers[h := x])
            == CountedHandlers(handlers)
               - (if handlers[h].stage == Counted then 1 else 0) + (if x.stage == Counted then 1 else 0)
  {
    if h > 0 {
      CountedUpdate(handlers[1..], h - 1, x);
      assert handlers[h := x][1..] == handlers[1..][h - 1 := x];
    } else {
      assert handlers[h := x][1..] == handlers[1..];
    }
  }

  lemma {:induction false} CountedAppend(handlers: seq<Handler>, x: Handler)
    ensures CountedHandlers(handlers + [x]) == CountedHandlers(handlers) + if x.stage == Counted then 1 else 0
  {
    if handlers != [] {
      assert (handlers + [x])[1..] == handlers[1..] + [x];
      CountedAppend(handlers[1..], x);
    }
  }

  lemma {:induction false} NoneCounted(handlers: seq<Handler>)
    requires CountedHandlers(handlers) > 0
    ensures exists h :: 0 <= h < |handlers| && handlers[h].stage == Counted
  {
    if handlers[0].stage != Counted {
      NoneCounted(handlers[1..]);
      var h :| 0 <= h < |handlers[1..]| && handlers[1..][h].stage == Counted;
      assert handlers[h + 1].stage == Counted;
    }
  }

  lemma ActConsistent(w: World, a: Action)
    requires Consistent(w)
    ensures Consistent(Act(w, a))
    ensures w.first != 0 ==> Act(w, a).first == w.first
    ensures w.signals <= Act(w, a).signals
  {
    var x := Act(w, a);
    match a
    case Arrive(signal) =>
      CountedAppend(w.handlers, Handler(signal, Arrived));
      if w.first != 0 && signal != 0 {
        var h :| 0 <= h < |w.handlers| && w.handlers[h].signal == w.first && w.handlers[h].stage != Arrived;
        assert x.handlers[h] == w.handlers[h];
      }
    case Claim(n) =>
      if n < |w.handlers| && w.handlers[n].stage == Arrived {
        CountedUpdate(w.handlers, n, w.handlers[n].(stage := Claimed));
        if w.first == 0 {
          assert x.handlers[n].signal == x.first;
        } else {
          var h :| 0 <= h < |w.handlers| && w.handlers[h].signal == w.first && w.handlers[h].stage != Arrived;
          assert x.handlers[h] == w.handlers[h];
        }
      }
    case Count(n) =>
      if n < |w.handlers| && w.handlers[n].stage == Claimed {
        CountedUpdate(w.handlers, n, w.handlers[n].(stage := Counted));
        var h :| 0 <= h < |w.handlers| && w.handlers[h].signal == w.first && w.handlers[h].stage != Arrived;
        assert x.handlers[h].signal == w.first && x.handlers[h].stage != Arrived;
      }
  }

  // Under any interleaving of any number of handlers the first cause, once recorded, never
  // changes, and a repeated signal implies that a cause is recorded.
  lemma {:induction false} FirstCauseIsFinal(w: World, actions: seq<Action>)
    requires Consistent(w)
    ensures Consistent(Run(w, actions))
    ensures SignalOf(w).Some? ==> SignalOf(Run(w, actions)) == SignalOf(w)
    ensures RepeatedIn(w) ==> RepeatedIn(Run(w, actions))
    ensures RepeatedIn(Run(w, actions)) ==> SignalOf(Run(w, actions)).Some?
    decreases actions
  {
    if actions != [] {
      ActConsistent(w, actions[0]);
      FirstCauseIsFinal(Act(w, actions[0]), actions[1..]);
    } else if RepeatedIn(w) {
      NoneCounted(w.handlers);
    }
  }

  // The recorded cause is a signal that really arrived.
  lemma CauseArrived(actions: seq<Action>)
    ensures var w := Run(QUIET, actions);
            w.first != 0 ==> exists h :: 0 <= h < |w.handlers| && w.handlers[h].signal == w.first
  {
    FirstCauseIsFinal(QUIET, actions);
  }

  // ----- Which commands may run after a cancellation -----------------------

  datatype Purpose = Preparation | Recording | Finalization

  // Scopes nest: preparation commands may run while any finalization scope is open.
  predicate PermitsFinalization(purpose: Purpose, depth: nat) {
    match purpose
    case Recording => false
    case Preparation => depth != 0
    case Finalization => true
  }

  // A command is refused before launch once cancelled, unless it finalizes and no second
  // signal has come.
  predicate LaunchAllowed(w: World, purpose: Purpose, depth: nat) {
    SignalOf(w).None? || (PermitsFinalization(purpose, depth) && !RepeatedIn(w))
  }

  ghost predicate TwoCounted(handlers: seq<Handler>) {
    exists g, h :: 0 <= g < h < |handlers| && handlers[g].stage == Counted && handlers[h].stage == Counted
  }

  lemma {:induction false} CountedOne(handlers: seq<Handler>, h: nat)
    requires h < |handlers| && handlers[h].stage == Counted
    ensures CountedHandlers(handlers) > 0
  {
    if h > 0 { CountedOne(handlers[1..], h - 1); }
  }

  lemma {:induction false} CountedTwo(handlers: seq<Handler>)
    ensures CountedHandlers(handlers) > 1 <==> TwoCounted(handlers)
  {
    if handlers != [] {
      var rest := handlers[1..];
      CountedTwo(rest);
      if TwoCounted(rest) {
        var g, h :| 0 <= g < h < |rest| && rest[g].stage == Counted && rest[h].stage == Counted;
        assert handlers[g + 1].stage == Counted && handlers[h + 1].stage == Counted;
      }
      if handlers[0].stage == Counted && CountedHandlers(rest) > 0 {
        NoneCounted(rest);
        var h :| 0 <= h < |rest| && rest[h].stage == Counted;
        assert handlers[h + 1].stage == Counted;
      }
      if TwoCounted(handlers) {
        var g, h :| 0 <= g < h < |handlers| && handlers[g].stage == Counted && handlers[h].stage == Counted;
        assert rest[h - 1] == handlers[h];
        CountedOne(rest, h - 1);
        if g > 0 { assert rest[g - 1] == handlers[g]; }
      }
    }
  }

  // A launch is allowed exactly while no handler has claimed the cause, or, for a command that
  // finalizes, while no two signals have been counted.
  lemma LaunchExactly(actions: seq<Action>, purpose: Purpose, depth: nat)
    ensures var w := Run(QUIET, actions);
            LaunchAllowed(w, purpose, depth) <==>
            (forall h :: 0 <= h < |w.handlers| ==> w.handlers[h].stage == Arrived)
            || ((purpose == Finalization || (purpose == Preparation && depth > 0)) && !TwoCounted(w.handlers))
  {
    FirstCauseIsFinal(QUIET, actions);
    CountedTwo(Run(QUIET, actions).handlers);
  }

  // A refusal is final: however the handlers go on, the command stays refused.
  lemma RefusalIsFinal(w: World, actions: seq<Action>, purpose: Purpose, depth: nat)
    requires Consistent(w) && !LaunchAllowed(w, purpose, depth)
    ensures !LaunchAllowed(Run(w, actions), purpose, depth)
  {
    FirstCauseIsFinal(w, actions);
  }
}
