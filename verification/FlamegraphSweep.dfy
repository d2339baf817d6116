// Flamegraph self samples: a sweep over sorted frame boundaries charges every sample
// position to its deepest covering frame.
module FlamegraphSweep {
  import opened Basics
  import opened Sorting

  const UNATTRIBUTED: string := "[unattributed]"

  // y is the rank of the frame's vertical coordinate.
  datatype Frame = Frame(name: string, start: nat, end: nat, y: int)
  {
    predicate Covers(p: nat) { start <= p < end }
  }

  // ----- What the sweep must compute ---------------------------------------

  // Frame indices from the shallowest to the deepest; equal ranks keep their input order.
  predicate Shallower(frames: seq<Frame>, inverted: bool, i: nat, j: nat) {
    if Rank(frames, i) == Rank(frames, j) then i <= j
    else if inverted then Rank(frames, i) < Rank(frames, j)
    else Rank(frames, i) > Rank(frames, j)
  }

  function Rank(frames: seq<Frame>, i: nat): int {
    if i < |frames| then frames[i].y else 0
  }

  // The deepest frame covering a position, read off the frames alone: the one with the largest
  // coordinate when the graph is inverted and with the least when not, and of equals the last.
  ghost predicate IsDeepest(frames: seq<Frame>, inverted: bool, p: nat, i: nat) {
    && i < |frames| && frames[i].start <= p < frames[i].end
    && forall j: nat {:trigger NotDeeper(frames, inverted, p, j, i)} :: NotDeeper(frames, inverted, p, j, i)
  }

  ghost predicate NotDeeper(frames: seq<Frame>, inverted: bool, p: nat, j: nat, i: nat)
    requires i < |frames|
  {
    j < |frames| && frames[j].start <= p < frames[j].end ==>
      || (frames[j].y == frames[i].y && j <= i)
      || (if inverted then frames[j].y < frames[i].y else frames[j].y > frames[i].y)
  }

  ghost predicate Uncovered(frames: seq<Frame>, p: nat) {
    forall i :: 0 <= i < |frames| ==> !frames[i].Covers(p)
  }

  ghost predicate Charged(frames: seq<Frame>, inverted: bool, p: nat, name: string) {
    (exists i: nat :: IsDeepest(frames, inverted, p, i) && frames[i].name == name)
    || (Uncovered(frames, p) && name == UNATTRIBUTED)
  }

  // How many numbers below n satisfy a predicate.
  ghost function Count(holds: nat -> bool, n: nat): nat {
    if n == 0 then 0 else Count(holds, n - 1) + if holds(n - 1) then 1 else 0
  }

  lemma {:induction false} CountRun(holds: nat -> bool, lo: nat, hi: nat, value: bool)
    requires lo <= hi && forall p :: lo <= p < hi ==> holds(p) == value
    ensures Count(holds, hi) == Count(holds, lo) + if value then hi - lo else 0
  {
    if lo < hi { CountRun(holds, lo, hi - 1, value); }
  }

  lemma {:induction false} CountSame(a: nat -> bool, b: nat -> bool, n: nat)
    requires forall p :: 0 <= p < n ==> a(p) == b(p)
    ensures Count(a, n) == Count(b, n)
  {
    if n > 0 { CountSame(a, b, n - 1); }
  }

  // How many positions below n are charged to the name.
  ghost function ChargedBelow(frames: seq<Frame>, inverted: bool, n: nat, name: string): nat {
    Count((p: nat) => Charged(frames, inverted, p, name), n)
  }

  function CountOf(counts: map<string, nat>, name: string): nat {
    if name in counts then counts[name] else 0
  }

  ghost predicate CountsBelow(frames: seq<Frame>, inverted: bool, n: nat, counts: map<string, nat>) {
    forall name {:trigger CountOf(counts, name)} :: CountOf(counts, name) == ChargedBelow(frames, inverted, n, name)
  }

  ghost predicate ChargedOnly(frames: seq<Frame>, inverted: bool, p: nat, winner: string) {
    forall name {:trigger Charged(frames, inverted, p, name)} :: Charged(frames, inverted, p, name) <==> name == winner
  }

  lemma ChargedRun(frames: seq<Frame>, inverted: bool, lo: nat, hi: nat, winner: string, name: string)
    requires lo <= hi
    requires forall p :: lo <= p < hi ==> ChargedOnly(frames, inverted, p, winner)
    ensures ChargedBelow(frames, inverted, hi, name)
            == ChargedBelow(frames, inverted, lo, name) + if name == winner then hi - lo else 0
  {
    var holds := (p: nat) => Charged(frames, inverted, p, name);
    forall p | lo <= p < hi ensures holds(p) == (name == winner) {
      assert ChargedOnly(frames, inverted, p, winner);
    }
    CountRun(holds, lo, hi, name == winner);
  }

  // ----- Events ------------------------------------------------------------

  // At equal positions an end comes before a start.
  datatype Event = Event(position: nat, starts: bool, depth: nat)

  predicate EventBefore(a: Event, b: Event) {
    a.position < b.position
    || (a.position == b.position && ((!a.starts && b.starts) || (a.starts == b.starts && a.depth <= b.depth)))
  }

  // order lists the frame indices from shallowest to deepest.
  ghost predicate DepthOrder(frames: seq<Frame>, inverted: bool, order: seq<nat>) {
    && (forall d :: 0 <= d < |order| ==> order[d] < |frames|)
    && (forall c, d :: 0 <= c < d < |order| ==> order[c] != order[d] && Shallower(frames, inverted, order[c], order[d]))
    && (forall i :: 0 <= i < |frames| ==> i in order)
  }

  ghost predicate IsEvent(frames: seq<Frame>, order: seq<nat>, e: Event) {
    && e.depth < |order| && order[e.depth] < |frames|
    && var f := frames[order[e.depth]];
    && f.start < f.end && e.position == if e.starts then f.start else f.end
  }

  ghost predicate EventsOf(frames: seq<Frame>, order: seq<nat>, events: seq<Event>) {
    && SortedBy(events, EventBefore)
    && (forall e :: e in events <==> IsEvent(frames, order, e))
    && (forall i, j :: 0 <= i < j < |events| ==> events[i] != events[j])
  }

  // ----- The active set ----------------------------------------------------

  ghost predicate Seen(events: seq<Event>, n: nat, starts: bool, d: nat) {
    exists k :: 0 <= k < n && k < |events| && events[k].depth == d && events[k].starts == starts
  }

  ghost predicate ActiveAfter(events: seq<Event>, n: nat, active: set<nat>) {
    forall d :: d in active <==> Seen(events, n, true, d) && !Seen(events, n, false, d)
  }

  lemma SeenNext(events: seq<Event>, n: nat, starts: bool, d: nat)
    requires n < |events|
    ensures Seen(events, n + 1, starts, d)
            <==> Seen(events, n, starts, d) || (events[n].depth == d && events[n].starts == starts)
  {
  }

  // An end never comes before its own start.
  lemma EndAfterStart(frames: seq<Frame>, order: seq<nat>, events: seq<Event>, n: nat)
    requires EventsOf(frames, order, events) && n < |events|
    ensures if events[n].starts then !Seen(events, n, false, events[n].depth)
              else Seen(events, n, true, events[n].depth)
  {
    var e := events[n];
    assert e in events && IsEvent(frames, order, e);
    if e.starts {
      forall k | 0 <= k < n ensures events[k].depth != e.depth || events[k].starts {
        assert events[k] in events && IsEvent(frames, order, events[k]);
        assert EventBefore(events[k], e);
      }
    } else {
      var s := Event(frames[order[e.depth]].start, true, e.depth);
      assert IsEvent(frames, order, s);
      var k :| 0 <= k < |events| && events[k] == s;
      assert k > n ==> EventBefore(e, s);
    }
  }

  lemma ActiveNext(frames: seq<Frame>, order: seq<nat>, events: seq<Event>, n: nat, active: set<nat>)
    requires EventsOf(frames, order, events) && n < |events| && ActiveAfter(events, n, active)
    ensures ActiveAfter(events, n + 1, if events[n].starts then active + {events[n].depth}
              else active - {events[n].depth})
  {
    EndAfterStart(frames, order, events, n);
    forall d ensures Seen(events, n + 1, true, d) <==>
          Seen(events, n, true, d) || (events[n].depth == d && events[n].starts) {
      SeenNext(events, n, true, d);
    }
    forall d ensures Seen(events, n + 1, false, d) <==>
          Seen(events, n, false, d) || (events[n].depth == d && !events[n].starts) {
      SeenNext(events, n, false, d);
    }
  }

  // Between two event positions the active depths are exactly the frames covering there.
  lemma ActiveCovers(frames: seq<Frame>, order: seq<nat>, events: seq<Event>, n: nat, active: set<nat>, p: nat, d: nat)
    requires EventsOf(frames, order, events) && ActiveAfter(events, n, active) && n <= |events|
    requires forall k :: 0 <= k < n ==> events[k].position <= p
    requires forall k :: n <= k < |events| ==> p < events[k].position
    requires d < |order| && order[d] < |frames|
    ensures d in active <==> frames[order[d]].Covers(p)
  {
    var f := frames[order[d]];
    var s, t := Event(f.start, true, d), Event(f.end, false, d);
    if f.Covers(p) {
      assert IsEvent(frames, order, s) && IsEvent(frames, order, t);
      var k :| 0 <= k < |events| && events[k] == s;
      assert k < n;
      forall j | 0 <= j < n && events[j].depth == d ensures events[j].starts {
        assert events[j] in events && IsEvent(frames, order, events[j]);
      }
    } else if d in active {
      var k :| 0 <= k < n && events[k].depth == d && events[k].starts;
      assert events[k] in events && IsEvent(frames, order, events[k]) && IsEvent(frames, order, t);
    }
  }

  // ----- Who is charged ----------------------------------------------------

  // The name charged while the given depths are active: the deepest one's.
  ghost predicate Winner(frames: seq<Frame>, order: seq<nat>, active: set<nat>, name: string) {
    if active == {} then name == UNATTRIBUTED
    else exists d: nat :: IsLast(active, d) && d < |order| && order[d] < |frames| && frames[order[d]].name == name
  }

  ghost predicate IsLast(active: set<nat>, d: nat) {
    d in active && forall c :: c in active ==> c <= d
  }

  lemma OnlyDeepest(frames: seq<Frame>, inverted: bool, p: nat, i: nat)
    requires IsDeepest(frames, inverted, p, i)
    ensures ChargedOnly(frames, inverted, p, frames[i].name)
  {
    forall j: nat | IsDeepest(frames, inverted, p, j) ensures j == i {
      assert NotDeeper(frames, inverted, p, j, i) && NotDeeper(frames, inverted, p, i, j);
    }
    assert frames[i].Covers(p);
  }

  lemma WinnerCharged(frames: seq<Frame>, inverted: bool, order: seq<nat>, active: set<nat>, p: nat, name: string)
    requires DepthOrder(frames, inverted, order) && Winner(frames, order, active, name)
    requires forall d :: d in active ==> d < |order|
    requires forall d :: 0 <= d < |order| ==> (d in active <==> frames[order[d]].Covers(p))
    ensures ChargedOnly(frames, inverted, p, name)
  {
    if active == {} {
      forall i | 0 <= i < |frames| ensures !frames[i].Covers(p) {
        assert i in order;
        var d :| 0 <= d < |order| && order[d] == i;
      }
      assert Uncovered(frames, p);
    } else {
      var d: nat :| IsLast(active, d) && d < |order| && order[d] < |frames| && frames[order[d]].name == name;
      forall j: nat ensures NotDeeper(frames, inverted, p, j, order[d]) {
        if j < |frames| && frames[j].Covers(p) {
          assert j in order;
          var c :| 0 <= c < |order| && order[c] == j;
          assert Shallower(frames, inverted, j, order[d]);
        }
      }
      OnlyDeepest(frames, inverted, p, order[d]);
    }
  }

  // ----- The sweep ---------------------------------------------------------

  method OrderByDepth(frames: seq<Frame>, inverted: bool) returns (order: seq<nat>)
    ensures DepthOrder(frames, inverted, order) && |order| == |frames|
  {
    var indices: seq<nat> := seq(|frames|, i requires 0 <= i < |frames| => i);
    order := Sort(indices, (i: nat, j: nat) => Shallower(frames, inverted, i, j));
    SamePermuted(indices, order);
    forall d | 0 <= d < |order| ensures order[d] < |frames| { assert order[d] in order; }
    forall i | 0 <= i < |frames| ensures i in order { assert indices[i] == i; }
  }

  method BoundaryEvents(frames: seq<Frame>, order: seq<nat>) returns (events: seq<Event>)
    requires forall d :: 0 <= d < |order| ==> order[d] < |frames|
    ensures EventsOf(frames, order, events)
  {
    var unsorted: seq<Event> := [];
    for depth := 0 to |order|
      invariant forall e :: e in unsorted <==> IsEvent(frames, order, e) && e.depth < depth
      invariant Distinct(unsorted)
    {
      var frame := frames[order[depth]];
      if frame.start < frame.end {
        unsorted := unsorted + [Event(frame.start, true, depth), Event(frame.end, false, depth)];
      }
    }
    events := Sort(unsorted, EventBefore);
    SamePermuted(unsorted, events);
  }

  // The deepest active depth, if any.
  method Deepest(active: set<nat>) returns (d: Option<nat>)
    ensures d.None? <==> active == {}
    ensures d.Some? ==> IsLast(active, d.value)
  {
    if active == {} { return None; }
    var best :| best in active;
    var rest := active - {best};
    while rest != {}
      invariant rest <= active && best in active
      invariant forall c :: c in active && c !in rest ==> c <= best
      decreases rest
    {
      var c :| c in rest;
      if c > best { best := c; }
      rest := rest - {c};
    }
    d := Some(best);
  }

  ghost predicate Sweeping(frames: seq<Frame>, inverted: bool, order: seq<nat>, events: seq<Event>, n: nat,
                           active: set<nat>, previous: nat, counts: map<string, nat>) {
    && n <= |events|
    && ActiveAfter(events, n, active)
    && (forall k :: 0 <= k < n ==> events[k].position <= previous)
    && (forall k :: n <= k < |events| ==> previous <= events[k].position)
    && CountsBelow(frames, inverted, previous, counts)
  }

  lemma ActiveInOrder(frames: seq<Frame>, order: seq<nat>, events: seq<Event>, n: nat, active: set<nat>, d: nat)
    requires EventsOf(frames, order, events) && ActiveAfter(events, n, active) && d in active && n <= |events|
    ensures d < |order| && order[d] < |frames|
  {
    var k :| 0 <= k < n && events[k].depth == d;
    assert events[k] in events && IsEvent(frames, order, events[k]);
  }

  // Charging the stretch up to the next event keeps the counts exact.
  lemma ChargeStretch(frames: seq<Frame>, inverted: bool, order: seq<nat>, events: seq<Event>, n: nat,
                      active: set<nat>, lo: nat, hi: nat, counts: map<string, nat>, name: string)
    requires DepthOrder(frames, inverted, order) && EventsOf(frames, order, events)
    requires n <= |events| && ActiveAfter(events, n, active) && lo <= hi
    requires forall k :: 0 <= k < n ==> events[k].position <= lo
    requires forall k :: n <= k < |events| ==> hi <= events[k].position
    requires CountsBelow(frames, inverted, lo, counts) && Winner(frames, order, active, name)
    ensures CountsBelow(frames, inverted, hi, counts[name := CountOf(counts, name) + (hi - lo)])
  {
    forall d | d in active ensures d < |order| { ActiveInOrder(frames, order, events, n, active, d); }
    forall p | lo <= p < hi ensures ChargedOnly(frames, inverted, p, name) {
      forall d | 0 <= d < |order| ensures d in active <==> frames[order[d]].Covers(p) {
        ActiveCovers(frames, order, events, n, active, p, d);
      }
      WinnerCharged(frames, inverted, order, active, p, name);
    }
    forall other ensures CountOf(counts[name := CountOf(counts, name) + (hi - lo)], other)
                         == ChargedBelow(frames, inverted, hi, other) {
      assert CountOf(counts, other) == ChargedBelow(frames, inverted, lo, other);
      ChargedRun(frames, inverted, lo, hi, name, other);
    }
  }

  // Charges the stretch up to the position to the deepest active frame.
  method ChargeTo(frames: seq<Frame>, inverted: bool, order: seq<nat>, ghost events: seq<Event>, ghost n: nat,
                  active: set<nat>, previous: nat, position: nat, counts: map<string, nat>)
    returns (charged: map<string, nat>)
    requires DepthOrder(frames, inverted, order) && EventsOf(frames, order, events)
    requires Sweeping(frames, inverted, order, events, n, active, previous, counts) && previous <= position
    requires forall k :: n <= k < |events| ==> position <= events[k].position
    ensures Sweeping(frames, inverted, order, events, n, active, position, charged)
  {
    var deepest := Deepest(active);
    if deepest.Some? { ActiveInOrder(frames, order, events, n, active, deepest.value); }
    var name := if deepest.Some? then frames[order[deepest.value]].name else UNATTRIBUTED;
    ChargeStretch(frames, inverted, order, events, n, active, previous, position, counts, name);
    charged := counts[name := CountOf(counts, name) + (position - previous)];
  }

  lemma NextEvent(frames: seq<Frame>, order: seq<nat>, events: seq<Event>, n: nat, total: nat)
    requires EventsOf(frames, order, events) && n < |events|
    requires forall i :: 0 <= i < |frames| ==> frames[i].start < frames[i].end ==> frames[i].end <= total
    ensures events[n].position <= total
    ensures forall k :: n <= k < |events| ==> events[n].position <= events[k].position
  {
    assert events[n] in events && IsEvent(frames, order, events[n]);
    forall k | n < k < |events| ensures events[n].position <= events[k].position {
      assert EventBefore(events[n], events[k]);
    }
  }

  // Charges what lies before the next event, then starts or ends the event's frame.
  method SweepEvent(frames: seq<Frame>, inverted: bool, order: seq<nat>, events: seq<Event>, n: nat,
                    active: set<nat>, previous: nat, counts: map<string, nat>, ghost total: nat)
    returns (nowActive: set<nat>, reached: nat, charged: map<string, nat>)
    requires DepthOrder(frames, inverted, order) && EventsOf(frames, order, events) && n < |events|
    requires forall i :: 0 <= i < |frames| ==> frames[i].end <= total
    requires Sweeping(frames, inverted, order, events, n, active, previous, counts) && previous <= total
    ensures Sweeping(frames, inverted, order, events, n + 1, nowActive, reached, charged) && reached <= total
  {
    var event := events[n];
    reached, charged := previous, counts;
    NextEvent(frames, order, events, n, total);
    if event.position > previous {
      charged := ChargeTo(frames, inverted, order, events, n, active, previous, event.position, counts);
      reached := event.position;
    }
    ActiveNext(frames, order, events, n, active);
    nowActive := if event.starts then active + {event.depth} else active - {event.depth};
  }

  method SweepEvents(frames: seq<Frame>, inverted: bool, order: seq<nat>, events: seq<Event>, ghost total: nat)
    returns (active: set<nat>, previous: nat, counts: map<string, nat>)
    requires DepthOrder(frames, inverted, order) && EventsOf(frames, order, events)
    requires forall i :: 0 <= i < |frames| ==> frames[i].end <= total
    ensures Sweeping(frames, inverted, order, events, |events|, active, previous, counts) && previous <= total
  {
    active, previous, counts := {}, 0, map[];
    SweepStarts(frames, inverted, order, events);
    for n := 0 to |events|
      invariant Sweeping(frames, inverted, order, events, n, active, previous, counts) && previous <= total
    {
      active, previous, counts := SweepEvent(frames, inverted, order, events, n, active, previous, counts, total);
    }
  }

  // Self samples: every position below the total is charged once, to the deepest frame
  // covering it or to no frame at all.
  method DeepestSamples(frames: seq<Frame>, total: nat, inverted: bool) returns (counts: map<string, nat>)
    requires forall i :: 0 <= i < |frames| ==> frames[i].end <= total
    ensures CountsBelow(frames, inverted, total, counts)
  {
    var order := OrderByDepth(frames, inverted);
    var events := BoundaryEvents(frames, order);
    var active, previous;
    active, previous, counts := SweepEvents(frames, inverted, order, events, total);
    if previous < total {
      LastStretch(frames, inverted, order, events, active, previous, total, counts);
      counts := counts[UNATTRIBUTED := CountOf(counts, UNATTRIBUTED) + (total - previous)];
    }
  }

  lemma SweepStarts(frames: seq<Frame>, inverted: bool, order: seq<nat>, events: seq<Event>)
    ensures Sweeping(frames, inverted, order, events, 0, {}, 0, map[])
  {
  }

  // After the last event nothing is active, so the rest belongs to no frame.
  lemma LastStretch(frames: seq<Frame>, inverted: bool, order: seq<nat>, events: seq<Event>,
                    active: set<nat>, previous: nat, total: nat, counts: map<string, nat>)
    requires DepthOrder(frames, inverted, order) && EventsOf(frames, order, events) && previous <= total
    requires Sweeping(frames, inverted, order, events, |events|, active, previous, counts)
    ensures CountsBelow(frames, inverted, total,
                        counts[UNATTRIBUTED := CountOf(counts, UNATTRIBUTED) + (total - previous)])
  {
    NothingActive(frames, order, events, active);
    ChargeStretch(frames, inverted, order, events, |events|, active, previous, total, counts, UNATTRIBUTED);
  }

  lemma NothingActive(frames: seq<Frame>, order: seq<nat>, events: seq<Event>, active: set<nat>)
    requires EventsOf(frames, order, events) && ActiveAfter(events, |events|, active)
    ensures active == {}
  {
    forall k | 0 <= k < |events| ensures Seen(events, |events|, false, events[k].depth) {
      var e := events[k];
      assert e in events && IsEvent(frames, order, e);
      var t := Event(frames[order[e.depth]].end, false, e.depth);
      assert IsEvent(frames, order, t) && t in events;
    }
  }

  // ----- Conservation ------------------------------------------------------

  ghost function SumOver(names: set<string>, counts: map<string, nat>): nat {
    if names == {} then 0
    else
      var name :| name in names;
      CountOf(counts, name) + SumOver(names - {name}, counts)
  }

  lemma {:induction false} SumRemove(names: set<string>, counts: map<string, nat>, name: string)
    requires name in names
    ensures SumOver(names, counts) == CountOf(counts, name) + SumOver(names - {name}, counts)
    decreases names
  {
    var pick :| pick in names && SumOver(names, counts) == CountOf(counts, pick) + SumOver(names - {pick}, counts);
    if pick != name {
      SumRemove(names - {pick}, counts, name);
      SumRemove(names - {name}, counts, pick);
      assert names - {pick} - {name} == names - {name} - {pick};
    }
  }

  // One more position charged to one name adds one to the total.
  lemma {:induction false} SumCharge(names: set<string>, before: map<string, nat>, after: map<string, nat>,
                                     winner: string)
    requires winner in names
    requires forall name :: name in names ==>
               CountOf(after, name) == CountOf(before, name) + if name == winner then 1 else 0
    ensures SumOver(names, after) == SumOver(names, before) + 1
  {
    SumRemove(names, before, winner);
    SumRemove(names, after, winner);
    SumSame(names - {winner}, before, after);
  }

  lemma {:induction false} SumSame(names: set<string>, before: map<string, nat>, after: map<string, nat>)
    requires forall name :: name in names ==> CountOf(after, name) == CountOf(before, name)
    ensures SumOver(names, after) == SumOver(names, before)
    decreases names
  {
    if names != {} {
      var name :| name in names;
      SumRemove(names, before, name);
      SumRemove(names, after, name);
      SumSame(names - {name}, before, after);
    }
  }

  // Some name is charged at every position, and no other.
  lemma SomeoneCharged(frames: seq<Frame>, inverted: bool, p: nat) returns (name: string)
    ensures ChargedOnly(frames, inverted, p, name)
  {
    var best: Option<nat> := None;
    for n := 0 to |frames|
      invariant best.None? ==> forall i :: 0 <= i < n ==> !frames[i].Covers(p)
      invariant best.Some? ==> best.value < n && frames[best.value].Covers(p)
      invariant best.Some? ==> forall i ::
                  0 <= i < n && frames[i].Covers(p) ==> Shallower(frames, inverted, i, best.value)
    {
      if frames[n].Covers(p) && (best.None? || Shallower(frames, inverted, best.value, n)) { best := Some(n); }
    }
    if best.None? {
      name := UNATTRIBUTED;
      assert Uncovered(frames, p);
    } else {
      name := frames[best.value].name;
      forall j: nat ensures NotDeeper(frames, inverted, p, j, best.value) {
        if j < |frames| && frames[j].Covers(p) { assert Shallower(frames, inverted, j, best.value); }
      }
      OnlyDeepest(frames, inverted, p, best.value);
    }
  }

  ghost function ChargedMap(frames: seq<Frame>, inverted: bool, names: set<string>, n: nat): map<string, nat> {
    map name | name in names :: ChargedBelow(frames, inverted, n, name)
  }

  ghost function ChargedTo(frames: seq<Frame>, inverted: bool, names: set<string>, n: nat): nat {
    SumOver(names, ChargedMap(frames, inverted, names, n))
  }

  lemma {:induction false} ChargedGrows(frames: seq<Frame>, inverted: bool, lo: nat, hi: nat, name: string)
    requires lo <= hi
    ensures ChargedBelow(frames, inverted, lo, name) <= ChargedBelow(frames, inverted, hi, name)
  {
    if lo < hi { ChargedGrows(frames, inverted, lo, hi - 1, name); }
  }

  lemma {:induction false} ChargedTotal(frames: seq<Frame>, inverted: bool, names: set<string>, total: nat, n: nat)
    requires n <= total
    requires AllNamed(frames, inverted, names, total)
    ensures ChargedTo(frames, inverted, names, n) == n
  {
    if n == 0 {
      SumZero(names, ChargedMap(frames, inverted, names, 0));
    } else {
      ChargedTotal(frames, inverted, names, total, n - 1);
      var winner := SomeoneCharged(frames, inverted, n - 1);
      ChargedOneMore(frames, inverted, names, total, n, winner);
    }
  }

  // Every name that is charged at all is among these.
  ghost predicate AllNamed(frames: seq<Frame>, inverted: bool, names: set<string>, total: nat) {
    forall name :: ChargedBelow(frames, inverted, total, name) > 0 ==> name in names
  }

  lemma ChargedOneMore(frames: seq<Frame>, inverted: bool, names: set<string>, total: nat, n: nat, winner: string)
    requires 0 < n <= total && ChargedOnly(frames, inverted, n - 1, winner) && AllNamed(frames, inverted, names, total)
    ensures ChargedTo(frames, inverted, names, n) == ChargedTo(frames, inverted, names, n - 1) + 1
  {
    assert Charged(frames, inverted, n - 1, winner);
    ChargedGrows(frames, inverted, n, total, winner);
    SumCharge(names, ChargedMap(frames, inverted, names, n - 1), ChargedMap(frames, inverted, names, n), winner);
  }

  lemma {:induction false} SumZero(names: set<string>, counts: map<string, nat>)
    requires forall name :: name in names ==> CountOf(counts, name) == 0
    ensures SumOver(names, counts) == 0
    decreases names
  {
    if names != {} {
      var name :| name in names;
      SumRemove(names, counts, name);
      SumZero(names - {name}, counts);
    }
  }

  // The self samples of all names add up to exactly the total.
  lemma SelfSamplesConserved(frames: seq<Frame>, inverted: bool, total: nat, counts: map<string, nat>)
    requires CountsBelow(frames, inverted, total, counts)
    ensures SumOver(counts.Keys, counts) == total
  {
    forall name | ChargedBelow(frames, inverted, total, name) > 0 ensures name in counts.Keys {
      assert CountOf(counts, name) == ChargedBelow(frames, inverted, total, name);
    }
    ChargedTotal(frames, inverted, counts.Keys, total, total);
    SumSame(counts.Keys, counts, ChargedMap(frames, inverted, counts.Keys, total));
  }
}
