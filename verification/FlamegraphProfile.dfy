// The flamegraph profile: inclusive weights as union measures, self samples from the sweep,
// and categories that partition the total.
module FlamegraphProfile {
  import opened Basics
  import opened Sorting
  import opened FlamegraphSweep

  type Range = (nat, nat)

  // ----- Coverage ----------------------------------------------------------

  ghost predicate CoveredAt(ranges: seq<Range>, p: nat) {
    exists i :: 0 <= i < |ranges| && ranges[i].0 <= p < ranges[i].1
  }

  // The size of the union of the ranges below n.
  ghost function CoveredBelow(ranges: seq<Range>, n: nat): nat {
    if n == 0 then 0 else CoveredBelow(ranges, n - 1) + if CoveredAt(ranges, n - 1) then 1 else 0
  }

  predicate RangeBefore(a: Range, b: Range) {
    a.0 < b.0 || (a.0 == b.0 && a.1 <= b.1)
  }

  lemma {:induction false} CoveredSame(a: seq<Range>, b: seq<Range>, n: nat)
    requires forall p :: 0 <= p < n ==> (CoveredAt(a, p) <==> CoveredAt(b, p))
    ensures CoveredBelow(a, n) == CoveredBelow(b, n)
  {
    if n > 0 { CoveredSame(a, b, n - 1); }
  }

  lemma {:induction false} CoveredRun(ranges: seq<Range>, lo: nat, hi: nat, covered: bool)
    requires lo <= hi && forall p :: lo <= p < hi ==> CoveredAt(ranges, p) == covered
    ensures CoveredBelow(ranges, hi) == CoveredBelow(ranges, lo) + if covered then hi - lo else 0
  {
    if lo < hi { CoveredRun(ranges, lo, hi - 1, covered); }
  }

  lemma {:induction false} CoveredBounded(ranges: seq<Range>, n: nat)
    ensures CoveredBelow(ranges, n) <= n
  {
    if n > 0 { CoveredBounded(ranges, n - 1); }
  }

  // The furthest end reached so far belongs to a range that starts no later than any to come.
  ghost predicate Reached(ranges: seq<Range>, end: nat) {
    && (forall i :: 0 <= i < |ranges| ==> ranges[i].1 <= end)
    && (end == 0 || exists i :: 0 <= i < |ranges| && ranges[i].1 == end)
  }

  lemma CoverNext(ranges: seq<Range>, r: Range, end: nat)
    requires Reached(ranges, end) && forall i :: 0 <= i < |ranges| ==> RangeBefore(ranges[i], r)
    ensures Reached(ranges + [r], Max(end, r.1))
    ensures CoveredBelow(ranges + [r], Max(end, r.1)) == CoveredBelow(ranges, end) + Max(r.1 - Max(r.0, end), 0)
  {
    var grown := ranges + [r];
    forall p | 0 <= p < end ensures CoveredAt(ranges, p) <==> CoveredAt(grown, p) {
      if CoveredAt(ranges, p) {
        var i :| 0 <= i < |ranges| && ranges[i].0 <= p < ranges[i].1;
        assert grown[i] == ranges[i];
      }
      if r.0 <= p {
        var i :| 0 <= i < |ranges| && ranges[i].1 == end;
        assert RangeBefore(ranges[i], r);
      }
    }
    CoveredSame(ranges, grown, end);
    assert grown[|ranges|] == r;
    if end < r.1 {
      var from := Max(r.0, end);
      forall p | end <= p < r.1 ensures CoveredAt(grown, p) <==> from <= p {
        assert from <= p ==> grown[|ranges|].0 <= p < grown[|ranges|].1;
      }
      if from <= r.1 {
        CoveredRun(grown, end, from, false);
        CoveredRun(grown, from, r.1, true);
      } else {
        CoveredRun(grown, end, r.1, false);
      }
    }
    if end > 0 {
      var i :| 0 <= i < |ranges| && ranges[i].1 == end;
      assert grown[i].1 == end;
    }
  }

  // Sorts the ranges and adds what each reaches beyond the ones before it. The running sum
  // never exceeds the largest end, so it cannot overflow.
  method CoveredSamples(ranges: seq<Range>) returns (covered: nat, reach: nat)
    ensures Reached(ranges, reach) && covered <= reach
    ensures forall bound: nat :: reach <= bound ==> covered == CoveredBelow(ranges, bound)
  {
    var sorted := Sort(ranges, RangeBefore);
    covered, reach := 0, 0;
    for n := 0 to |sorted|
      invariant Reached(sorted[..n], reach)
      invariant covered == CoveredBelow(sorted[..n], reach) <= reach
    {
      CoverNext(sorted[..n], sorted[n], reach);
      assert sorted[..n + 1] == sorted[..n] + [sorted[n]];
      covered := covered + Max(sorted[n].1 - Max(sorted[n].0, reach), 0);
      reach := Max(reach, sorted[n].1);
      CoveredBounded(sorted[..n + 1], reach);
    }
    assert sorted[..|sorted|] == sorted;
    SortedCovers(sorted, ranges);
    CoveredSame(sorted, ranges, reach);
    forall bound: nat | reach <= bound ensures covered == CoveredBelow(ranges, bound) {
      CoveredRun(ranges, reach, bound, false);
    }
  }

  lemma SortedCovers(sorted: seq<Range>, ranges: seq<Range>)
    requires multiset(sorted) == multiset(ranges)
    ensures forall p :: CoveredAt(sorted, p) <==> CoveredAt(ranges, p)
    ensures forall end :: Reached(sorted, end) ==> Reached(ranges, end)
  {
    forall r ensures r in sorted <==> r in ranges {
      assert r in sorted <==> r in multiset(sorted);
      assert r in ranges <==> r in multiset(ranges);
    }
    forall p ensures CoveredAt(sorted, p) <==> CoveredAt(ranges, p) {
      if CoveredAt(sorted, p) {
        var i :| 0 <= i < |sorted| && sorted[i].0 <= p < sorted[i].1;
        assert sorted[i] in ranges;
      }
      if CoveredAt(ranges, p) {
        var i :| 0 <= i < |ranges| && ranges[i].0 <= p < ranges[i].1;
        assert ranges[i] in sorted;
      }
    }
    forall end | Reached(sorted, end) ensures Reached(ranges, end) {
      forall i | 0 <= i < |ranges| ensures ranges[i].1 <= end { assert ranges[i] in sorted; }
      if end != 0 {
        var i :| 0 <= i < |sorted| && sorted[i].1 == end;
        assert sorted[i] in ranges;
      }
    }
  }

  // ----- Inclusive weights -------------------------------------------------

  // The ranges of the frames a key function groups under one group, in input order.
  function RangesOf(frames: seq<Frame>, key: string -> Option<string>, group: string): seq<Range> {
    if frames == [] then []
    else
      var n := |frames| - 1;
      RangesOf(frames[..n], key, group)
      + if key(frames[n].name) == Some(group) then [(frames[n].start, frames[n].end)] else []
  }

  ghost predicate CoveredUnder(frames: seq<Frame>, key: string -> Option<string>, group: string, p: nat) {
    exists i :: 0 <= i < |frames| && key(frames[i].name) == Some(group) && frames[i].Covers(p)
  }

  lemma CoveredByMore(ranges: seq<Range>, r: Range, p: nat)
    ensures CoveredAt(ranges + [r], p) <==> CoveredAt(ranges, p) || r.0 <= p < r.1
  {
    var grown := ranges + [r];
    if CoveredAt(ranges, p) {
      var i :| 0 <= i < |ranges| && ranges[i].0 <= p < ranges[i].1;
      assert grown[i] == ranges[i];
    }
    if r.0 <= p < r.1 { assert grown[|ranges|] == r; }
  }

  lemma CoveredUnderLast(frames: seq<Frame>, key: string -> Option<string>, group: string, p: nat)
    requires frames != []
    ensures var n := |frames| - 1;
            CoveredUnder(frames, key, group, p) <==>
            CoveredUnder(frames[..n], key, group, p) || (key(frames[n].name) == Some(group) && frames[n].Covers(p))
  {
    var n := |frames| - 1;
    if CoveredUnder(frames[..n], key, group, p) {
      var i :| 0 <= i < n && key(frames[..n][i].name) == Some(group) && frames[..n][i].Covers(p);
      assert frames[i].Covers(p);
    }
    if CoveredUnder(frames, key, group, p) && !(key(frames[n].name) == Some(group) && frames[n].Covers(p)) {
      var i :| 0 <= i < |frames| && key(frames[i].name) == Some(group) && frames[i].Covers(p);
      assert frames[..n][i].Covers(p);
    }
  }

  lemma {:induction false} RangesCover(frames: seq<Frame>, key: string -> Option<string>, group: string, p: nat)
    ensures CoveredAt(RangesOf(frames, key, group), p) <==> CoveredUnder(frames, key, group, p)
  {
    if frames != [] {
      var n := |frames| - 1;
      RangesCover(frames[..n], key, group, p);
      CoveredUnderLast(frames, key, group, p);
      if key(frames[n].name) == Some(group) {
        CoveredByMore(RangesOf(frames[..n], key, group), (frames[n].start, frames[n].end), p);
      } else {
        assert RangesOf(frames, key, group) == RangesOf(frames[..n], key, group);
      }
    }
  }

  // How many positions below the total lie under some frame with the group.
  ghost function WeightUnder(frames: seq<Frame>, key: string -> Option<string>, group: string, n: nat): nat {
    if n == 0 then 0
    else WeightUnder(frames, key, group, n - 1) + if CoveredUnder(frames, key, group, n - 1) then 1 else 0
  }

  lemma {:induction false} WeightIsCoverage(frames: seq<Frame>, key: string -> Option<string>, group: string, n: nat)
    ensures WeightUnder(frames, key, group, n) == CoveredBelow(RangesOf(frames, key, group), n)
  {
    if n > 0 {
      WeightIsCoverage(frames, key, group, n - 1);
      RangesCover(frames, key, group, n - 1);
    }
  }

  // Whole-name grouping for inclusive weights.
  function ByName(name: string): Option<string> { Some(name) }

  // Self never exceeds inclusive, and inclusive never exceeds the total, for every real name.
  lemma {:induction false} SelfWithinInclusive(frames: seq<Frame>, inverted: bool, name: string, n: nat)
    requires name != UNATTRIBUTED
    ensures ChargedBelow(frames, inverted, n, name) <= WeightUnder(frames, ByName, name, n) <= n
  {
    if n > 0 {
      SelfWithinInclusive(frames, inverted, name, n - 1);
      if Charged(frames, inverted, n - 1, name) {
        var i: nat :| IsDeepest(frames, inverted, n - 1, i) && frames[i].name == name;
        assert CoveredUnder(frames, ByName, name, n - 1);
      }
    }
  }

  function RangesIn(ranged: map<string, seq<Range>>, group: string): seq<Range> {
    if group in ranged then ranged[group] else []
  }

  ghost predicate GroupedRanges(ranged: map<string, seq<Range>>, frames: seq<Frame>, key: string -> Option<string>) {
    forall group :: RangesIn(ranged, group) == RangesOf(frames, key, group)
  }

  method GroupRanges(frames: seq<Frame>, key: string -> Option<string>) returns (ranged: map<string, seq<Range>>)
    ensures GroupedRanges(ranged, frames, key)
  {
    ranged := map[];
    for n := 0 to |frames|
      invariant GroupedRanges(ranged, frames[..n], key)
    {
      assert frames[..n + 1][..n] == frames[..n];
      var group := key(frames[n].name);
      if group.Some? {
        ranged := ranged[group.value := RangesIn(ranged, group.value) + [(frames[n].start, frames[n].end)]];
      }
    }
    assert frames[..|frames|] == frames;
  }

  // The weight of every group, keeping only positive ones.
  method RangeEntries(frames: seq<Frame>, key: string -> Option<string>, total: nat) returns (weights: map<string, nat>)
    requires forall i :: 0 <= i < |frames| ==> frames[i].end <= total
    ensures forall group :: CountOf(weights, group) == WeightUnder(frames, key, group, total)
    ensures forall group :: group in weights ==> weights[group] > 0
  {
    var ranged := GroupRanges(frames, key);
    weights := map[];
    var labels := ranged.Keys;
    while labels != {}
      invariant labels <= ranged.Keys
      invariant forall group :: group in labels ==> CountOf(weights, group) == 0
      invariant forall group ::
                  group in ranged && group !in labels ==>
                    CountOf(weights, group) == WeightUnder(frames, key, group, total)
      invariant forall group :: group in weights ==> group in ranged && weights[group] > 0
      decreases labels
    {
      var group :| group in labels;
      var covered, reach := CoveredSamples(ranged[group]);
      assert RangesIn(ranged, group) == RangesOf(frames, key, group);
      ReachWithin(frames, key, group, total, reach);
      WeightIsCoverage(frames, key, group, total);
      if covered > 0 { weights := weights[group := covered]; }
      labels := labels - {group};
    }
    forall group | group !in ranged ensures WeightUnder(frames, key, group, total) == 0 {
      assert RangesIn(ranged, group) == RangesOf(frames, key, group);
      NoRangesNoWeight(frames, key, group, total);
    }
  }

  lemma NoRangesNoWeight(frames: seq<Frame>, key: string -> Option<string>, group: string, total: nat)
    requires RangesOf(frames, key, group) == []
    ensures WeightUnder(frames, key, group, total) == 0
  {
    WeightIsCoverage(frames, key, group, total);
    CoveredRun([], 0, total, false);
  }

  lemma {:induction false} RangeEnds(frames: seq<Frame>, key: string -> Option<string>, group: string, total: nat)
    requires forall i :: 0 <= i < |frames| ==> frames[i].end <= total
    ensures forall k :: 0 <= k < |RangesOf(frames, key, group)| ==> RangesOf(frames, key, group)[k].1 <= total
  {
    if frames != [] { RangeEnds(frames[..|frames| - 1], key, group, total); }
  }

  lemma ReachWithin(frames: seq<Frame>, key: string -> Option<string>, group: string, total: nat, reach: nat)
    requires forall i :: 0 <= i < |frames| ==> frames[i].end <= total
    requires Reached(RangesOf(frames, key, group), reach)
    ensures reach <= total
  {
    RangeEnds(frames, key, group, total);
  }

  // ----- Categories --------------------------------------------------------

  datatype CategoryRule = CategoryRule(name: string, contains: seq<string>)

  predicate RuleMatches(rule: CategoryRule, lowered: string) {
    exists k :: 0 <= k < |rule.contains| && Contains(lowered, rule.contains[k])
  }

  function FirstMatch(rules: seq<CategoryRule>, lowered: string): Option<string> {
    if rules == [] then None
    else if RuleMatches(rules[0], lowered) then Some(rules[0].name)
    else FirstMatch(rules[1..], lowered)
  }

  // The first project rule that matches wins; the built-in categories are the fallback.
  function CategoryName(name: string, rules: seq<CategoryRule>, lower: string -> string,
                        builtin: string -> string): string {
    var rule := FirstMatch(rules, lower(name));
    if rule.Some? then rule.value else builtin(name)
  }

  lemma {:induction false} FirstRuleWins(rules: seq<CategoryRule>, lowered: string, k: nat)
    requires k < |rules| && RuleMatches(rules[k], lowered)
    requires forall j :: 0 <= j < k ==> !RuleMatches(rules[j], lowered)
    ensures FirstMatch(rules, lowered) == Some(rules[k].name)
  {
    if k > 0 { FirstRuleWins(rules[1..], lowered, k - 1); }
  }

  function InCategory(names: set<string>, category: string -> string, group: string): set<string> {
    set name | name in names && category(name) == group
  }

  ghost predicate Categorized(samples: map<string, nat>, category: string -> string, done: set<string>,
                              categories: map<string, nat>) {
    && Grouped(samples, category, done, categories)
    && SumOver(categories.Keys, categories) == SumOver(done, samples)
  }

  // Categories partition the self samples whatever the rules are: each holds the samples of
  // its names and together they hold all of them.
  method Categorize(samples: map<string, nat>, category: string -> string) returns (categories: map<string, nat>)
    ensures Categorized(samples, category, samples.Keys, categories)
  {
    categories := map[];
    var todo := samples.Keys;
    while todo != {}
      invariant todo <= samples.Keys && Categorized(samples, category, samples.Keys - todo, categories)
      decreases todo
    {
      var name :| name in todo;
      CategoryGrows(samples, category, samples.Keys - todo, name, categories);
      assert samples.Keys - (todo - {name}) == samples.Keys - todo + {name};
      categories := categories[category(name) := CountOf(categories, category(name)) + samples[name]];
      todo := todo - {name};
    }
    assert samples.Keys - todo == samples.Keys;
  }

  lemma GroupGrows(samples: map<string, nat>, category: string -> string, done: set<string>, name: string,
                   group: string)
    requires name in samples && name !in done
    ensures InCategory(done + {name}, category, group)
            == if group == category(name) then InCategory(done, category, group) + {name}
              else InCategory(done, category, group)
    ensures SumOver(InCategory(done + {name}, category, group), samples)
            == SumOver(InCategory(done, category, group), samples) + if group == category(name) then samples[name]
              else 0
  {
    var grown := InCategory(done + {name}, category, group);
    if group == category(name) {
      assert name in grown && grown - {name} == InCategory(done, category, group);
      SumRemove(grown, samples, name);
    } else {
      assert grown == InCategory(done, category, group);
    }
  }

  // Each group's count stays the sum over its names when one more name is counted.
  ghost predicate Grouped(samples: map<string, nat>, category: string -> string, done: set<string>,
                          categories: map<string, nat>) {
    && (forall group :: CountOf(categories, group) == SumOver(InCategory(done, category, group), samples))
    && (forall group :: group in categories <==> InCategory(done, category, group) != {})
  }

  lemma GroupsGrow(samples: map<string, nat>, category: string -> string, done: set<string>, name: string,
                   before: map<string, nat>, after: map<string, nat>)
    requires name in samples && name !in done && Grouped(samples, category, done, before)
    requires after == before[category(name) := CountOf(before, category(name)) + samples[name]]
    ensures Grouped(samples, category, done + {name}, after)
  {
    forall group
      ensures CountOf(after, group) == SumOver(InCategory(done + {name}, category, group), samples)
      ensures group in after <==> InCategory(done + {name}, category, group) != {}
    {
      GroupGrows(samples, category, done, name, group);
    }
  }

  // Adding to one count adds as much to the sum.
  lemma SumUpdate(counts: map<string, nat>, name: string, more: nat)
    ensures var after := counts[name := CountOf(counts, name) + more];
            SumOver(after.Keys, after) == SumOver(counts.Keys, counts) + more
  {
    var after := counts[name := CountOf(counts, name) + more];
    SumRemove(after.Keys, after, name);
    SumSame(after.Keys - {name}, counts, after);
    if name in counts {
      SumRemove(counts.Keys, counts, name);
      assert after.Keys - {name} == counts.Keys - {name};
    } else {
      assert after.Keys - {name} == counts.Keys;
    }
  }

  lemma CategoryGrows(samples: map<string, nat>, category: string -> string, done: set<string>, name: string,
                      before: map<string, nat>)
    requires name in samples && name !in done && Categorized(samples, category, done, before)
    ensures Categorized(samples, category, done + {name},
                        before[category(name) := CountOf(before, category(name)) + samples[name]])
  {
    var after := before[category(name) := CountOf(before, category(name)) + samples[name]];
    GroupsGrow(samples, category, done, name, before, after);
    SumsGrow(samples, done, name, before, category(name));
  }

  lemma SumsGrow(samples: map<string, nat>, done: set<string>, name: string, before: map<string, nat>, group: string)
    requires name in samples && name !in done && SumOver(before.Keys, before) == SumOver(done, samples)
    ensures var after := before[group := CountOf(before, group) + samples[name]];
            SumOver(after.Keys, after) == SumOver(done + {name}, samples)
  {
    assert done + {name} - {name} == done;
    SumRemove(done + {name}, samples, name);
    SumUpdate(before, group, samples[name]);
  }

  // Project rules, in order, over the built-in categories.
  method CategorizeProfile(samples: map<string, nat>, rules: seq<CategoryRule>, lower: string -> string,
                           builtin: string -> string) returns (categories: map<string, nat>)
    ensures Categorized(samples, name => CategoryName(name, rules, lower, builtin), samples.Keys, categories)
    ensures SumOver(categories.Keys, categories) == SumOver(samples.Keys, samples)
  {
    categories := Categorize(samples, name => CategoryName(name, rules, lower, builtin));
  }

  // ----- The whole profile -------------------------------------------------

  datatype ProfileError = MissingAggregate | OutsideTotal | MisplacedRoot

  datatype Profile = Profile(
    total: nat,
    inverted: bool,
    inclusive: map<string, nat>,
    selfSamples: map<string, nat>,
    syscalls: map<string, nat>,
    anySyscall: nat,
    categories: map<string, nat>)

  const SYSCALL_PREFIXES: seq<string> := ["__x64_sys_", "__x86_sys_", "__ia32_sys_", "__arm64_sys_"]

  function StripFirst(prefixes: seq<string>, name: string): Option<string> {
    if prefixes == [] then None
    else if prefixes[0] <= name then Some(name[|prefixes[0]|..])
    else StripFirst(prefixes[1..], name)
  }

  function SyscallName(name: string): Option<string> { StripFirst(SYSCALL_PREFIXES, name) }

  // The name of a system call is what follows its entry point's prefix.
  lemma SyscallNameIs(name: string)
    ensures SyscallName(name) ==
            if "__x64_sys_" <= name then Some(name[10..])
            else if "__x86_sys_" <= name then Some(name[10..])
            else if "__ia32_sys_" <= name then Some(name[11..])
            else if "__arm64_sys_" <= name then Some(name[12..])
            else None
  {
    var last := ["__arm64_sys_"];
    var two := ["__ia32_sys_", "__arm64_sys_"];
    var three := ["__x86_sys_", "__ia32_sys_", "__arm64_sys_"];
    assert last[1..] == [] && two[1..] == last && three[1..] == two && SYSCALL_PREFIXES[1..] == three;
    assert StripFirst(last, name) == if "__arm64_sys_" <= name then Some(name[12..]) else None;
    assert StripFirst(two, name) == if "__ia32_sys_" <= name then Some(name[11..]) else StripFirst(last, name);
    assert StripFirst(three, name) == if "__x86_sys_" <= name then Some(name[10..]) else StripFirst(two, name);
  }

  // Every syscall frame under one group, for the union over all of them.
  function AnySyscall(name: string): Option<string> {
    if SyscallName(name).Some? then Some("") else None
  }

  predicate IsRoot(frame: Frame, declared: Option<nat>) {
    frame.name == "all" && frame.start == 0 && (declared.Some? ==> frame.end == declared.value)
  }

  ghost predicate Describes(profile: Profile, frames: seq<Frame>, category: string -> string) {
    && (forall name :: CountOf(profile.inclusive, name) == WeightUnder(frames, ByName, name, profile.total))
    && CountsBelow(frames, profile.inverted, profile.total, profile.selfSamples)
    && (forall name :: CountOf(profile.syscalls, name) == WeightUnder(frames, SyscallName, name, profile.total))
    && profile.anySyscall == WeightUnder(frames, AnySyscall, "", profile.total)
    && Categorized(profile.selfSamples, category, profile.selfSamples.Keys, profile.categories)
    && SumOver(profile.categories.Keys, profile.categories) == profile.total
  }

  method FindRoot(frames: seq<Frame>, declared: Option<nat>) returns (root: Option<nat>)
    ensures root.None? <==> forall i :: 0 <= i < |frames| ==> !IsRoot(frames[i], declared)
    ensures root.Some? ==> root.value < |frames| && IsRoot(frames[root.value], declared)
    ensures root.Some? ==> forall i :: 0 <= i < root.value ==> !IsRoot(frames[i], declared)
  {
    for n := 0 to |frames|
      invariant forall i :: 0 <= i < n ==> !IsRoot(frames[i], declared)
    {
      if IsRoot(frames[n], declared) { return Some(n); }
    }
    root := None;
  }

  function Others(read: seq<Frame>, root: nat): seq<Frame>
    requires root < |read|
  {
    read[..root] + read[root + 1..]
  }

  function TotalOf(read: seq<Frame>, declared: Option<nat>, root: nat): nat
    requires root < |read|
  {
    if declared.Some? then declared.value else read[root].end
  }

  predicate Above(frames: seq<Frame>, y: int) { exists i :: 0 <= i < |frames| && frames[i].y > y }

  predicate Below(frames: seq<Frame>, y: int) { exists i :: 0 <= i < |frames| && frames[i].y < y }

  predicate Within(frames: seq<Frame>, total: nat) { forall i :: 0 <= i < |frames| ==> frames[i].end <= total }

  ghost predicate FirstRoot(read: seq<Frame>, declared: Option<nat>, root: nat) {
    && root < |read| && read[root].name == "all" && read[root].start == 0
    && (declared.Some? ==> read[root].end == declared.value)
    && forall i :: 0 <= i < root ==> !IsRoot(read[i], declared)
  }

  // Frames lie within a positive total and on one side of the aggregate frame.
  ghost predicate Acceptable(read: seq<Frame>, declared: Option<nat>, root: nat) {
    && FirstRoot(read, declared, root)
    && TotalOf(read, declared, root) > 0 && Within(Others(read, root), TotalOf(read, declared, root))
    && !(Above(Others(read, root), read[root].y) && Below(Others(read, root), read[root].y))
  }

  // ----- Self samples, seen from the aggregate frame ------------------------

  function Distance(y: int, base: int): nat { if y >= base then y - base else base - y }

  // Of the frames covering the position the one farthest from the aggregate frame, and of
  // several equally far the last read.
  ghost predicate Farthest(frames: seq<Frame>, base: int, p: nat, i: nat) {
    && i < |frames| && frames[i].start <= p < frames[i].end
    && forall j :: 0 <= j < |frames| && frames[j].start <= p < frames[j].end ==>
         Distance(frames[j].y, base) < Distance(frames[i].y, base)
         || (Distance(frames[j].y, base) == Distance(frames[i].y, base) && j <= i)
  }

  ghost predicate SelfAt(frames: seq<Frame>, base: int, p: nat, name: string) {
    || (exists i: nat {:trigger Farthest(frames, base, p, i)} :: Farthest(frames, base, p, i) && frames[i].name == name)
    || (name == "[unattributed]" && forall i :: 0 <= i < |frames| ==> !(frames[i].start <= p < frames[i].end))
  }

  ghost function SelfBelow(frames: seq<Frame>, base: int, n: nat, name: string): nat {
    Count((p: nat) => SelfAt(frames, base, p, name), n)
  }

  // All frames lie on one side of the aggregate frame, as the direction says.
  ghost predicate OneSided(frames: seq<Frame>, inverted: bool, base: int) {
    forall i :: 0 <= i < |frames| ==> if inverted then frames[i].y >= base else frames[i].y <= base
  }

  lemma FarthestIsDeepest(frames: seq<Frame>, inverted: bool, base: int, p: nat, i: nat)
    requires OneSided(frames, inverted, base)
    ensures Farthest(frames, base, p, i) <==> IsDeepest(frames, inverted, p, i)
  {
    if Farthest(frames, base, p, i) {
      forall j: nat ensures NotDeeper(frames, inverted, p, j, i) { }
    }
    if IsDeepest(frames, inverted, p, i) {
      forall j: nat | j < |frames| && frames[j].start <= p < frames[j].end
        ensures Distance(frames[j].y, base) < Distance(frames[i].y, base)
                || (Distance(frames[j].y, base) == Distance(frames[i].y, base) && j <= i)
      {
        assert NotDeeper(frames, inverted, p, j, i);
      }
    }
  }

  lemma SelfIsCharged(frames: seq<Frame>, inverted: bool, base: int, p: nat, name: string)
    requires OneSided(frames, inverted, base)
    ensures SelfAt(frames, base, p, name) <==> Charged(frames, inverted, p, name)
  {
    forall i: nat ensures Farthest(frames, base, p, i) <==> IsDeepest(frames, inverted, p, i) {
      FarthestIsDeepest(frames, inverted, base, p, i);
    }
  }

  lemma SelfBelowIsCharged(frames: seq<Frame>, inverted: bool, base: int, n: nat, name: string)
    requires OneSided(frames, inverted, base)
    ensures SelfBelow(frames, base, n, name) == ChargedBelow(frames, inverted, n, name)
  {
    forall p: nat ensures SelfAt(frames, base, p, name) <==> Charged(frames, inverted, p, name) {
      SelfIsCharged(frames, inverted, base, p, name);
    }
    CountSame((p: nat) => SelfAt(frames, base, p, name), (p: nat) => Charged(frames, inverted, p, name), n);
  }

  ghost predicate SelfSamplesOf(profile: Profile, frames: seq<Frame>, base: int) {
    forall name {:trigger CountOf(profile.selfSamples, name)} ::
      CountOf(profile.selfSamples, name) == SelfBelow(frames, base, profile.total, name)
  }

  lemma DescribesSelf(profile: Profile, frames: seq<Frame>, base: int, category: string -> string)
    requires Describes(profile, frames, category) && OneSided(frames, profile.inverted, base)
    ensures SelfSamplesOf(profile, frames, base)
  {
    forall name ensures CountOf(profile.selfSamples, name) == SelfBelow(frames, base, profile.total, name) {
      SelfBelowIsCharged(frames, profile.inverted, base, profile.total, name);
    }
  }

  // The total is the declared one, or the aggregate frame's; all frames lie within it and on one
  // side of the aggregate frame.
  ghost predicate Surrounds(read: seq<Frame>, declared: Option<nat>, root: nat, total: nat, inverted: bool)
    requires root < |read|
  {
    && total == (if declared.Some? then declared.value else read[root].end) && total > 0
    && (forall i :: 0 <= i < |read| && i != root ==> read[i].end <= total)
    && (inverted <==> exists i :: 0 <= i < |read| && read[i].y > read[root].y)
    && (forall i :: 0 <= i < |read| ==> if inverted then read[i].y >= read[root].y else read[i].y <= read[root].y)
  }

  lemma AcceptableSurrounds(read: seq<Frame>, declared: Option<nat>, root: nat)
    requires Acceptable(read, declared, root)
    ensures Surrounds(read, declared, root, TotalOf(read, declared, root), Above(Others(read, root), read[root].y))
  {
    var others := Others(read, root);
    forall i | 0 <= i < |read| && i != root ensures exists k :: 0 <= k < |others| && others[k] == read[i] {
      assert others[if i < root then i else i - 1] == read[i];
    }
    if Above(others, read[root].y) {
      var k :| 0 <= k < |others| && others[k].y > read[root].y;
      assert read[if k < root then k else k + 1] == others[k];
    }
  }

  ghost predicate ProfiledBy(read: seq<Frame>, declared: Option<nat>, root: nat, profile: Profile,
                             category: string -> string) {
    && Acceptable(read, declared, root)
    && Surrounds(read, declared, root, profile.total, profile.inverted)
    && Describes(profile, Others(read, root), category)
    && SelfSamplesOf(profile, Others(read, root), read[root].y)
  }

  // Takes the aggregate frame out and profiles the rest against it.
  method Analyze(read: seq<Frame>, declared: Option<nat>, category: string -> string)
    returns (r: Result<Profile, ProfileError>)
    ensures r == Err(MissingAggregate) <==> forall i :: 0 <= i < |read| ==> !IsRoot(read[i], declared)
    ensures r.Ok? <==> exists root: nat :: Acceptable(read, declared, root)
    ensures r.Ok? ==> exists root: nat :: ProfiledBy(read, declared, root, r.value, category)
  {
    var found := FindRoot(read, declared);
    if found.None? { return Err(MissingAggregate); }
    var root, frames, total := read[found.value], Others(read, found.value), TotalOf(read, declared, found.value);
    assert forall other: nat :: FirstRoot(read, declared, other) ==> other == found.value;
    if total == 0 || !Within(frames, total) { return Err(OutsideTotal); }
    var inverted := Above(frames, root.y);
    if inverted && Below(frames, root.y) { return Err(MisplacedRoot); }
    assert Acceptable(read, declared, found.value);
    var profile := Measure(frames, total, inverted, category);
    AcceptableSurrounds(read, declared, found.value);
    DescribesSelf(profile, frames, root.y, category);
    assert ProfiledBy(read, declared, found.value, profile, category);
    r := Ok(profile);
  }

  method Measure(frames: seq<Frame>, total: nat, inverted: bool, category: string -> string) returns (profile: Profile)
    requires forall i :: 0 <= i < |frames| ==> frames[i].end <= total
    ensures profile.total == total && profile.inverted == inverted && Describes(profile, frames, category)
  {
    var inclusive := RangeEntries(frames, ByName, total);
    var syscalls := RangeEntries(frames, SyscallName, total);
    var any, reach := CoveredSamples(RangesOf(frames, AnySyscall, ""));
    ReachWithin(frames, AnySyscall, "", total, reach);
    WeightIsCoverage(frames, AnySyscall, "", total);
    var selfSamples := DeepestSamples(frames, total, inverted);
    SelfSamplesConserved(frames, inverted, total, selfSamples);
    var categories := Categorize(selfSamples, category);
    profile := Profile(total, inverted, inclusive, selfSamples, syscalls, any, categories);
  }

  // No single syscall outweighs the union of all of them.
  lemma {:induction false} SyscallWithinAny(frames: seq<Frame>, name: string, n: nat)
    ensures WeightUnder(frames, SyscallName, name, n) <= WeightUnder(frames, AnySyscall, "", n)
  {
    if n > 0 {
      SyscallWithinAny(frames, name, n - 1);
      if CoveredUnder(frames, SyscallName, name, n - 1) {
        var i :| 0 <= i < |frames| && SyscallName(frames[i].name) == Some(name) && frames[i].Covers(n - 1);
        assert AnySyscall(frames[i].name) == Some("");
      }
    }
  }

  // The size of a union does not depend on the order of its ranges.
  lemma CoverageIgnoresOrder(a: seq<Range>, b: seq<Range>, n: nat)
    requires multiset(a) == multiset(b)
    ensures CoveredBelow(a, n) == CoveredBelow(b, n)
  {
    SortedCovers(a, b);
    CoveredSame(a, b, n);
  }
}
