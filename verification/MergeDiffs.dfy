// Comparing two streams of folded lines as they arrive.
module MergeDiffs {
  import opened Basics
  import opened Bytes

  const MAX_REPORTED: nat := 1000
  const SPACE: u8 := 32
  const PLUS: u8 := 43
  const ZERO: u8 := 48
  const NINE: u8 := 57

  // ----- Entries -----------------------------------------------------------

  datatype Entry = Entry(raw: Data, stack: Data, count: u64)

  function LastSpace(line: Data): (r: Option<nat>)
    ensures r.Some? ==> r.value < |line| && line[r.value] == SPACE
  {
    if line == [] then None
    else if line[|line| - 1] == SPACE then Some(|line| - 1)
    else LastSpace(line[..|line| - 1])
  }

  function Digits(text: Data): Option<nat> {
    if text == [] then Some(0)
    else
      var last := text[|text| - 1];
      match Digits(text[..|text| - 1])
      case None => None
      case Some(n) => if ZERO <= last <= NINE then Some(10 * n + last - ZERO) else None
  }

  // A count is decimal digits, perhaps after a plus sign, and fits in a machine word.
  function ParseCount(text: Data): Option<u64> {
    var digits := if text != [] && text[0] == PLUS then text[1..] else text;
    if digits == [] then None
    else match Digits(digits) case None => None case Some(n) => if n <= U64_MAX then Some(n) else None
  }

  function ParseEntry(raw: Data): Option<Entry> {
    match LastSpace(raw)
    case None => None
    case Some(at) =>
      match ParseCount(raw[at + 1..]) case None => None case Some(n) => Some(Entry(raw, raw[..at], n))
  }

  ghost predicate DigitsOf(text: Data) { forall i :: 0 <= i < |text| ==> 48 <= text[i] <= 57 }

  // A number in decimal, without leading zeros.
  function Decimal(n: nat): (r: Data)
    ensures r != [] && DigitsOf(r)
  {
    if n < 10 then [48 + n] else Decimal(n / 10) + [48 + n % 10]
  }

  lemma {:induction false} DecimalDigits(n: nat)
    ensures Digits(Decimal(n)) == Some(n)
  {
    var text := Decimal(n);
    if n >= 10 {
      DecimalDigits(n / 10);
      assert text[..|text| - 1] == Decimal(n / 10);
    } else {
      assert text[..0] == [];
      assert Digits(text[..0]) == Some(0);
    }
  }

  lemma {:induction false} LastSpaceIs(line: Data, at: nat)
    requires at < |line| && line[at] == 32 && forall i :: at < i < |line| ==> line[i] != 32
    ensures LastSpace(line) == Some(at)
  {
    if at < |line| - 1 { LastSpaceIs(line[..|line| - 1], at); }
  }

  function PlusSign(plus: bool): Data { if plus then [43] else [] }

  lemma SignDropped(digits: Data, plus: bool)
    requires digits != [] && digits[0] != 43
    ensures var text := PlusSign(plus) + digits;
            (if text != [] && text[0] == 43 then text[1..] else text) == digits
  {
    var text := PlusSign(plus) + digits;
    assert text[|PlusSign(plus)|..] == digits;
  }

  lemma CountReadsBack(n: nat, plus: bool)
    ensures ParseCount(PlusSign(plus) + Decimal(n)) == if n < TWO_64 then Some(n) else None
  {
    var digits := Decimal(n);
    assert 48 <= digits[0] <= 57;
    SignDropped(digits, plus);
    DecimalDigits(n);
  }

  // A stack, a space and a count in decimal, perhaps after a plus sign, are read back as that
  // stack and that count, as long as the count fits in a machine word.
  lemma EntryReadsBack(stack: Data, n: nat, plus: bool)
    ensures var line := stack + [32] + (PlusSign(plus) + Decimal(n));
            ParseEntry(line) == if n < TWO_64 then Some(Entry(line, stack, n)) else None
  {
    var text := PlusSign(plus) + Decimal(n);
    var line := stack + [32] + text;
    assert line[..|stack|] == stack && line[|stack| + 1..] == text;
    forall i | |stack| < i < |line| ensures line[i] != 32 { assert line[i] == text[i - |stack| - 1]; }
    LastSpaceIs(line, |stack|);
    CountReadsBack(n, plus);
  }

  lemma {:induction false} DigitsOnly(text: Data)
    requires Digits(text).Some?
    ensures DigitsOf(text)
  {
    if text != [] {
      var n := |text| - 1;
      DigitsOnly(text[..n]);
      forall i | 0 <= i < n ensures 48 <= text[i] <= 57 { assert text[..n][i] == text[i]; }
    }
  }

  // And nothing is read that is not a stack, a space and digits, perhaps after a plus sign.
  lemma EntryIs(line: Data) returns (digits: Data, plus: bool)
    requires ParseEntry(line).Some?
    ensures var e := ParseEntry(line).value;
            && line == e.stack + [32] + (PlusSign(plus) + digits) && e.raw == line
            && digits != [] && DigitsOf(digits) && Digits(digits) == Some(e.count)
  {
    var at := LastSpace(line).value;
    var text := line[at + 1..];
    plus := text != [] && text[0] == 43;
    digits := if plus then text[1..] else text;
    DigitsOnly(digits);
    PlusAndRest(text);
    SplitAt(line, at);
  }

  lemma PlusAndRest(text: Data)
    ensures var plus := text != [] && text[0] == 43; text == PlusSign(plus) + if plus then text[1..] else text
  {
  }

  lemma SplitAt(line: Data, at: nat)
    requires at < |line|
    ensures line == line[..at] + [line[at]] + line[at + 1..]
  {
  }

  // ----- Order of stacks ---------------------------------------------------

  // Stacks compare byte by byte.
  predicate Below(a: Data, b: Data) {
    b != [] && (a == [] || a[0] < b[0] || (a[0] == b[0] && Below(a[1..], b[1..])))
  }

  // The two agree up to here, where the one ends or has the smaller byte.
  ghost predicate DiffersAt(a: Data, b: Data, k: nat) {
    && k <= |a| && k < |b| && (forall i :: 0 <= i < k ==> a[i] == b[i])
    && (k == |a| || a[k] < b[k])
  }

  lemma {:induction false} BelowIs(a: Data, b: Data)
    ensures Below(a, b) <==> exists k: nat {:trigger DiffersAt(a, b, k)} :: DiffersAt(a, b, k)
  {
    if a == [] || b == [] || a[0] != b[0] {
      if Below(a, b) { assert DiffersAt(a, b, 0); }
    } else {
      BelowIs(a[1..], b[1..]);
      if Below(a, b) {
        var k: nat :| DiffersAt(a[1..], b[1..], k);
        assert DiffersAt(a, b, k + 1);
      }
      forall k: nat | DiffersAt(a, b, k) ensures Below(a, b) {
        assert DiffersAt(a[1..], b[1..], k - 1);
      }
    }
  }

  lemma {:induction false} BelowTotal(a: Data, b: Data)
    ensures a == b || Below(a, b) || Below(b, a)
    ensures !(Below(a, b) && (Below(b, a) || a == b))
  {
    if a != [] && b != [] {
      BelowTotal(a[1..], b[1..]);
      assert a == [a[0]] + a[1..] && b == [b[0]] + b[1..];
    }
  }

  lemma {:induction false} BelowTransitive(a: Data, b: Data, c: Data)
    requires Below(a, b) && Below(b, c)
    ensures Below(a, c)
  {
    if a != [] && a[0] == b[0] && b[0] == c[0] { BelowTransitive(a[1..], b[1..], c[1..]); }
  }

  ghost predicate Sorted(s: seq<Entry>) {
    forall i, j :: 0 <= i < j < |s| ==> Below(s[i].stack, s[j].stack)
  }

  // ----- The merge ---------------------------------------------------------

  datatype Diff = Diff(matches: bool, onlyLeft: seq<Entry>, onlyRight: seq<Entry>)

  function LeftOnly(e: Entry, d: Diff): Diff { Diff(false, [e] + d.onlyLeft, d.onlyRight) }

  function RightOnly(e: Entry, d: Diff): Diff { Diff(false, d.onlyLeft, [e] + d.onlyRight) }

  function Merge(l: seq<Entry>, r: seq<Entry>): Diff
    decreases |l| + |r|
  {
    if l == [] && r == [] then Diff(true, [], [])
    else if r == [] || (l != [] && Below(l[0].stack, r[0].stack)) then LeftOnly(l[0], Merge(l[1..], r))
    else if l == [] || Below(r[0].stack, l[0].stack) then RightOnly(r[0], Merge(l, r[1..]))
    else if l[0].count == r[0].count then Merge(l[1..], r[1..])
    else LeftOnly(l[0], RightOnly(r[0], Merge(l[1..], r[1..])))
  }

  function Joined(done: Diff, rest: Diff): Diff {
    Diff(done.matches && rest.matches, done.onlyLeft + rest.onlyLeft, done.onlyRight + rest.onlyRight)
  }

  function Capped(entries: seq<Entry>): seq<Entry> {
    if |entries| > 1000 then entries[..1000] else entries
  }

  // Lists of differences stop growing at the reporting limit.
  method RecordDifference(differences: seq<Entry>, e: Entry, ghost all: seq<Entry>) returns (r: seq<Entry>)
    requires differences == Capped(all)
    ensures r == Capped(all + [e])
  {
    r := if |differences| < MAX_REPORTED then differences + [e] else differences;
  }

  // A malformed line stands for an entry that no result depends on.
  function EntryOf(line: Data): Entry {
    match ParseEntry(line) case Some(e) => e case None => Entry(line, [], 0)
  }

  function Entries(lines: seq<Data>): (r: seq<Entry>)
    ensures |r| == |lines|
  {
    if lines == [] then [] else [EntryOf(lines[0])] + Entries(lines[1..])
  }

  predicate WellFormed(lines: seq<Data>) {
    lines == [] || (ParseEntry(lines[0]).Some? && WellFormed(lines[1..]))
  }

  // A stream that is read one entry ahead.
  datatype Feed = Feed(head: Option<Entry>, rest: seq<Data>)

  ghost predicate Feeds(f: Feed, lines: seq<Data>) {
    match f.head
    case None => lines == [] && f.rest == []
    case Some(e) => lines != [] && ParseEntry(lines[0]) == Some(e) && lines[1..] == f.rest
  }

  method NextFoldedEntry(lines: seq<Data>) returns (f: Option<Feed>)
    ensures f.Some? ==> Feeds(f.value, lines)
    ensures f.None? ==> !WellFormed(lines)
  {
    if lines == [] { return Some(Feed(None, [])); }
    var e := ParseEntry(lines[0]);
    if e.None? { return None; }
    return Some(Feed(e, lines[1..]));
  }

  method FollowingEntry(f: Feed, ghost lines: seq<Data>) returns (g: Option<Feed>, ghost rest: seq<Data>)
    requires Feeds(f, lines) && f.head.Some?
    ensures rest == f.rest && |rest| < |lines| && (WellFormed(lines) <==> WellFormed(rest))
    ensures g.Some? ==> Feeds(g.value, rest)
    ensures g.None? ==> !WellFormed(lines)
  {
    rest := f.rest;
    g := NextFoldedEntry(f.rest);
  }

  ghost predicate Covers(total: Diff, done: Diff, l: seq<Data>, r: seq<Data>) {
    total == Joined(done, Merge(Entries(l), Entries(r)))
  }

  datatype Report = Report(matches: bool, onlyLeft: seq<Entry>, onlyRight: seq<Entry>)

  function ReportOf(d: Diff): Report { Report(d.matches, Capped(d.onlyLeft), Capped(d.onlyRight)) }

  datatype Side = LeftAhead | RightAhead | Level

  function Ahead(l: Option<Entry>, r: Option<Entry>): Side
    requires l.Some? || r.Some?
  {
    if r.None? then LeftAhead
    else if l.None? then RightAhead
    else if Below(l.value.stack, r.value.stack) then LeftAhead
    else if Below(r.value.stack, l.value.stack) then RightAhead
    else Level
  }

  lemma EntriesTail(lines: seq<Data>)
    requires lines != []
    ensures Entries(lines)[0] == EntryOf(lines[0]) && Entries(lines)[1..] == Entries(lines[1..])
  {
  }

  lemma JoinedMore(done: Diff, e: Entry, rest: Diff)
    ensures Joined(done, LeftOnly(e, rest)) == Joined(Diff(false, done.onlyLeft + [e], done.onlyRight), rest)
    ensures Joined(done, RightOnly(e, rest)) == Joined(Diff(false, done.onlyLeft, done.onlyRight + [e]), rest)
  {
  }

  // What one step adds to the differences found so far.
  function Advanced(done: Diff, f: Feed, g: Feed): Diff
    requires f.head.Some? || g.head.Some?
  {
    var side := Ahead(f.head, g.head);
    if side == Level && f.head.value.count == g.head.value.count then done
    else
      Diff(false,
           if side == RightAhead then done.onlyLeft else done.onlyLeft + [f.head.value],
           if side == LeftAhead then done.onlyRight else done.onlyRight + [g.head.value])
  }

  lemma MergeStep(done: Diff, l: seq<Data>, r: seq<Data>, f: Feed, g: Feed)
    requires Feeds(f, l) && Feeds(g, r) && (f.head.Some? || g.head.Some?)
    ensures Joined(done, Merge(Entries(l), Entries(r))) ==
            match Ahead(f.head, g.head)
            case LeftAhead => Joined(Advanced(done, f, g), Merge(Entries(f.rest), Entries(r)))
            case RightAhead => Joined(Advanced(done, f, g), Merge(Entries(l), Entries(g.rest)))
            case Level => Joined(Advanced(done, f, g), Merge(Entries(f.rest), Entries(g.rest)))
  {
    if l != [] { EntriesTail(l); }
    if r != [] { EntriesTail(r); }
    match Ahead(f.head, g.head)
    case LeftAhead => JoinedMore(done, f.head.value, Merge(Entries(f.rest), Entries(r)));
    case RightAhead => JoinedMore(done, g.head.value, Merge(Entries(l), Entries(g.rest)));
    case Level =>
      var rest := Merge(Entries(f.rest), Entries(g.rest));
      JoinedMore(done, f.head.value, RightOnly(g.head.value, rest));
      JoinedMore(Diff(false, done.onlyLeft + [f.head.value], done.onlyRight), g.head.value, rest);
  }

  lemma CoversStep(total: Diff, done: Diff, l: seq<Data>, r: seq<Data>, f: Feed, g: Feed)
    requires Feeds(f, l) && Feeds(g, r) && (f.head.Some? || g.head.Some?) && Covers(total, done, l, r)
    ensures Covers(total, Advanced(done, f, g),
              if Ahead(f.head, g.head) == RightAhead then l else f.rest,
              if Ahead(f.head, g.head) == LeftAhead then r else g.rest)
  {
    MergeStep(done, l, r, f, g);
  }

  const NOTHING: Diff := Diff(true, [], [])

  lemma CoversFromStart(l: seq<Data>, r: seq<Data>)
    ensures Covers(Merge(Entries(l), Entries(r)), NOTHING, l, r)
  {
  }

  lemma CoversAtEnd(total: Diff, done: Diff)
    requires Covers(total, done, [], [])
    ensures total == done
  {
  }

  method CompareFoldedLines(pyroclast: seq<Data>, inferno: seq<Data>) returns (report: Option<Report>)
    ensures report.Some? <==> WellFormed(pyroclast) && WellFormed(inferno)
    ensures report.Some? ==> report.value == ReportOf(Merge(Entries(pyroclast), Entries(inferno)))
  {
    ghost var total, done := Merge(Entries(pyroclast), Entries(inferno)), NOTHING;
    CoversFromStart(pyroclast, inferno);
    ghost var l, r := pyroclast, inferno;
    var left := NextFoldedEntry(pyroclast);
    if left.None? { return None; }
    var right := NextFoldedEntry(inferno);
    if right.None? { return None; }
    var found := Report(true, [], []);
    while left.value.head.Some? || right.value.head.Some?
      invariant left.Some? && right.Some? && Feeds(left.value, l) && Feeds(right.value, r)
      invariant WellFormed(pyroclast) <==> WellFormed(l)
      invariant WellFormed(inferno) <==> WellFormed(r)
      invariant Covers(total, done, l, r) && found == ReportOf(done)
      decreases |l| + |r|
    {
      CoversStep(total, done, l, r, left.value, right.value);
      var side := Ahead(left.value.head, right.value.head);
      var differ := side != Level || left.value.head.value.count != right.value.head.value.count;
      if differ {
        found := Note(found, side, left.value, right.value, done);
        done := Advanced(done, left.value, right.value);
      }
      if side != RightAhead {
        left, l := FollowingEntry(left.value, l);
        if left.None? { return None; }
      }
      if side != LeftAhead {
        right, r := FollowingEntry(right.value, r);
        if right.None? { return None; }
      }
    }
    CoversAtEnd(total, done);
    return Some(found);
  }

  method Note(found: Report, side: Side, left: Feed, right: Feed, ghost done: Diff) returns (r: Report)
    requires found == ReportOf(done)
    requires left.head.Some? || right.head.Some?
    requires side == Ahead(left.head, right.head) && (side != Level || left.head.value.count != right.head.value.count)
    ensures r == ReportOf(Advanced(done, left, right))
  {
    var onlyLeft, onlyRight := found.onlyLeft, found.onlyRight;
    if side != RightAhead { onlyLeft := RecordDifference(onlyLeft, left.head.value, done.onlyLeft); }
    if side != LeftAhead { onlyRight := RecordDifference(onlyRight, right.head.value, done.onlyRight); }
    r := Report(false, onlyLeft, onlyRight);
  }

  // ----- The merge is a comparison -----------------------------------------

  // The same stacks with the same counts, in the same order.
  predicate SameEntries(l: seq<Entry>, r: seq<Entry>) {
    |l| == |r| && (l == [] || (l[0].stack == r[0].stack && l[0].count == r[0].count && SameEntries(l[1..], r[1..])))
  }

  // Streams match exactly when they are the same, sorted or not.
  lemma {:induction false} MatchesIffSame(l: seq<Entry>, r: seq<Entry>)
    ensures Merge(l, r).matches <==> SameEntries(l, r)
    decreases |l| + |r|
  {
    if l != [] && r != [] {
      BelowTotal(l[0].stack, r[0].stack);
      MatchesIffSame(l[1..], r[1..]);
    }
  }

  predicate Listed(e: Entry, s: seq<Entry>) {
    s != [] && ((s[0].stack == e.stack && s[0].count == e.count) || Listed(e, s[1..]))
  }

  // The entries of one side that the other lacks or counts differently.
  function Missing(l: seq<Entry>, r: seq<Entry>): seq<Entry>
    decreases |l|
  {
    if l == [] then [] else (if Listed(l[0], r) then [] else [l[0]]) + Missing(l[1..], r)
  }

  ghost predicate AllAbove(stack: Data, s: seq<Entry>) {
    forall i :: 0 <= i < |s| ==> Below(stack, s[i].stack)
  }

  lemma {:induction false} AboveUnlisted(e: Entry, s: seq<Entry>)
    requires AllAbove(e.stack, s)
    ensures !Listed(e, s)
  {
    if s != [] {
      BelowTotal(e.stack, s[0].stack);
      assert AllAbove(e.stack, s[1..]);
      AboveUnlisted(e, s[1..]);
    }
  }

  lemma SortedTail(s: seq<Entry>)
    requires Sorted(s) && s != []
    ensures Sorted(s[1..]) && AllAbove(s[0].stack, s[1..])
  {
  }

  lemma AboveAll(stack: Data, s: seq<Entry>)
    requires Sorted(s) && s != [] && Below(stack, s[0].stack)
    ensures AllAbove(stack, s)
  {
    forall i | 0 <= i < |s| ensures Below(stack, s[i].stack) {
      if i > 0 { BelowTransitive(stack, s[0].stack, s[i].stack); }
    }
  }

  // An entry below everything on one side does not affect what that side is missing.
  lemma {:induction false} MissingSkips(s: seq<Entry>, e: Entry, r: seq<Entry>)
    requires AllAbove(e.stack, s)
    ensures Missing(s, [e] + r) == Missing(s, r)
  {
    if s != [] {
      BelowTotal(e.stack, s[0].stack);
      assert ([e] + r)[1..] == r;
      MissingSkips(s[1..], e, r);
    }
  }

  // For sorted streams each side's list is exactly what the other side lacks, in order.
  lemma {:induction false} MergeFindsMissing(l: seq<Entry>, r: seq<Entry>)
    requires Sorted(l) && Sorted(r)
    ensures Merge(l, r).onlyLeft == Missing(l, r) && Merge(l, r).onlyRight == Missing(r, l)
    decreases |l| + |r|
  {
    if l != [] || r != [] {
      if l != [] { SortedTail(l); assert l == [l[0]] + l[1..]; }
      if r != [] { SortedTail(r); assert r == [r[0]] + r[1..]; }
      if r == [] || (l != [] && Below(l[0].stack, r[0].stack)) {
        MergeFindsMissing(l[1..], r);
        if r != [] { AboveAll(l[0].stack, r); }
        AboveUnlisted(l[0], r);
        MissingSkips(r, l[0], l[1..]);
      } else if l == [] || Below(r[0].stack, l[0].stack) {
        MergeFindsMissing(l, r[1..]);
        if l != [] { AboveAll(r[0].stack, l); }
        AboveUnlisted(r[0], l);
        MissingSkips(l, r[0], r[1..]);
      } else {
        MergeFindsMissing(l[1..], r[1..]);
        BelowTotal(l[0].stack, r[0].stack);
        LevelMissing(l, r);
        LevelMissing(r, l);
      }
    }
  }

  // Where both sides begin with the same stack, only the counts decide.
  lemma LevelMissing(l: seq<Entry>, r: seq<Entry>)
    requires l != [] && r != [] && Sorted(l) && Sorted(r) && l[0].stack == r[0].stack
    ensures Missing(l, r) == (if l[0].count == r[0].count then [] else [l[0]]) + Missing(l[1..], r[1..])
  {
    SortedTail(l);
    SortedTail(r);
    AboveUnlisted(l[0], r[1..]);
    MissingSkips(l[1..], r[0], r[1..]);
    assert r == [r[0]] + r[1..];
  }

  // ----- The difference of maps --------------------------------------------

  function CountsOf(s: seq<Entry>): map<Data, nat> {
    if s == [] then map[] else CountsOf(s[1..])[s[0].stack := s[0].count]
  }

  function CountIn(m: map<Data, nat>, stack: Data): nat { if stack in m then m[stack] else 0 }

  // An absent stack counts as zero.
  function FoldedDifference(l: seq<Entry>, m: map<Data, nat>): seq<Entry> {
    if l == [] then []
    else (if CountIn(m, l[0].stack) != l[0].count then [l[0]] else []) + FoldedDifference(l[1..], m)
  }

  lemma {:induction false} ListedInCounts(e: Entry, s: seq<Entry>)
    requires Sorted(s)
    ensures Listed(e, s) <==> e.stack in CountsOf(s) && CountsOf(s)[e.stack] == e.count
  {
    if s != [] {
      SortedTail(s);
      ListedInCounts(e, s[1..]);
      if s[0].stack == e.stack { AboveUnlisted(e, s[1..]); }
    }
  }

  // An entry that counts nothing and that the other side does not have.
  predicate HasEmptyExtra(l: seq<Entry>, m: map<Data, nat>) {
    l != [] && ((l[0].count == 0 && l[0].stack !in m) || HasEmptyExtra(l[1..], m))
  }

  lemma {:induction false} DifferenceBound(l: seq<Entry>, r: seq<Entry>)
    requires Sorted(r)
    ensures |FoldedDifference(l, CountsOf(r))| <= |Missing(l, r)|
    ensures HasEmptyExtra(l, CountsOf(r)) ==> |FoldedDifference(l, CountsOf(r))| < |Missing(l, r)|
    ensures !HasEmptyExtra(l, CountsOf(r)) ==> FoldedDifference(l, CountsOf(r)) == Missing(l, r)
  {
    if l != [] {
      ListedInCounts(l[0], r);
      DifferenceBound(l[1..], r);
    }
  }

  // The streamed difference is the difference of the two maps, up to the reporting limit,
  // exactly when no entry with a zero count is missing from the other side.
  lemma MergeIsMapDifference(l: seq<Entry>, r: seq<Entry>)
    requires Sorted(l) && Sorted(r)
    ensures Merge(l, r).onlyLeft == FoldedDifference(l, CountsOf(r)) <==> !HasEmptyExtra(l, CountsOf(r))
    ensures Merge(l, r).onlyRight == FoldedDifference(r, CountsOf(l)) <==> !HasEmptyExtra(r, CountsOf(l))
  {
    MergeFindsMissing(l, r);
    DifferenceBound(l, r);
    DifferenceBound(r, l);
  }

  // Such streams: one side counts a stack zero times, the other does not have it.
  lemma EmptyExtra(e: Entry)
    requires e.count == 0
    ensures Merge([e], []).onlyLeft == [e] && FoldedDifference([e], CountsOf([])) == []
  {
    assert Merge([e], []) == LeftOnly(e, Merge([e][1..], []));
  }
}
