// Symbol normalization for folded stacks. Names are byte strings; every delimiter is ASCII.
module FoldedStacks {
  import opened Basics

  // ----- Text --------------------------------------------------------------

  predicate Has(s: string, c: char) { c in s }

  predicate EndsWith(s: string, p: string) { |p| <= |s| && s[|s| - |p|..] == p }

  predicate HexDigit(c: char) { '0' <= c <= '9' || 'a' <= c <= 'f' || 'A' <= c <= 'F' }

  predicate AllHex(s: string) { forall i :: 0 <= i < |s| ==> HexDigit(s[i]) }

  function LastIndex(s: string, c: char): (r: Option<nat>)
    ensures r.Some? ==> r.value < |s| && s[r.value] == c
  {
    if s == "" then None
    else if s[|s| - 1] == c then Some(|s| - 1)
    else LastIndex(s[..|s| - 1], c)
  }

  // ----- Fix-ups before the split ------------------------------------------

  function WithoutOffset(frame: string): (r: string)
    ensures r <= frame
  {
    match LastIndex(frame, '+')
    case None => frame
    case Some(at) => if "+0x" <= frame[at..] && AllHex(frame[at + 3..]) then frame[..at] else frame
  }

  const HASH_LENGTH: nat := 17

  function HashStart(symbol: string): (r: Option<nat>)
    ensures r.Some? ==> r.value + HASH_LENGTH == |symbol|
  {
    if |symbol| < HASH_LENGTH then None
    else
      var at := |symbol| - HASH_LENGTH;
      if symbol[at] == 'h' && AllHex(symbol[at + 1..]) then Some(at) else None
  }

  lemma EndsWithIs(s: string, p: string)
    ensures EndsWith(s, p) <==> exists t {:trigger t + p} :: s == t + p
  {
    if EndsWith(s, p) { assert s == s[..|s| - |p|] + p; }
  }

  // Digits and letters of a hexadecimal number, in either case.
  ghost predicate Hexadecimal(s: string) { forall c :: c in s ==> c in "0123456789abcdefABCDEF" }

  lemma HexIs(s: string)
    ensures AllHex(s) <==> Hexadecimal(s)
  {
    forall c: char ensures HexDigit(c) <==> c in "0123456789abcdefABCDEF" { HexDigitIs(c); }
  }

  lemma HexDigitIs(c: char)
    ensures HexDigit(c) <==> c in "0123456789abcdefABCDEF"
  {
    var all := "0123456789abcdefABCDEF";
    if '0' <= c <= '9' { assert all[c as int - '0' as int] == c; }
    if 'a' <= c <= 'f' { assert all[10 + (c as int - 'a' as int)] == c; }
    if 'A' <= c <= 'F' { assert all[16 + (c as int - 'A' as int)] == c; }
  }

  lemma {:induction false} LastIndexIs(s: string, c: char, i: nat)
    requires i < |s| && s[i] == c && c !in s[i + 1..]
    ensures LastIndex(s, c) == Some(i)
  {
    var n := |s| - 1;
    if i < n {
      assert s[i + 1..][n - i - 1] == s[n];
      assert s[..n][i + 1..] == s[i + 1..][..n - i - 1];
      LastIndexIs(s[..n], c, i);
    }
  }

  // An offset is dropped whatever precedes it.
  lemma OffsetDropped(base: string, digits: string)
    requires Hexadecimal(digits)
    ensures WithoutOffset(base + "+0x" + digits) == base
  {
    var frame := base + "+0x" + digits;
    var tail := "0x" + digits;
    assert frame[|base| + 1..] == tail && frame[|base|] == '+';
    assert '+' !in tail by {
      assert forall i :: 0 <= i < |tail| ==> tail[i] == if i < 2 then "0x"[i] else digits[i - 2];
    }
    LastIndexIs(frame, '+', |base|);
    assert frame[|base|..] == "+0x" + digits && frame[|base| + 3..] == digits;
    HexIs(digits);
  }

  // And nothing else is ever dropped.
  lemma OnlyOffsetDropped(frame: string)
    ensures WithoutOffset(frame) != frame ==>
              exists digits :: Hexadecimal(digits) && frame == WithoutOffset(frame) + "+0x" + digits
  {
    if WithoutOffset(frame) != frame {
      var at := LastIndex(frame, '+').value;
      var digits := frame[at + 3..];
      HexIs(digits);
      assert frame[at..][..3] == "+0x";
      assert frame == frame[..at] + frame[at..][..3] + digits;
      assert Hexadecimal(digits) && frame == WithoutOffset(frame) + "+0x" + digits;
    }
  }

  // A hash is an h and sixteen hexadecimal digits at the end.
  lemma HashIs(symbol: string)
    ensures HashStart(symbol).Some? <==>
            exists prefix, digits :: |digits| == 16 && Hexadecimal(digits) && symbol == prefix + "h" + digits
    ensures HashStart(symbol).Some? ==> HashStart(symbol).value == |symbol| - 17
  {
    if HashStart(symbol).Some? {
      var at := HashStart(symbol).value;
      HexIs(symbol[at + 1..]);
      assert symbol == symbol[..at] + "h" + symbol[at + 1..];
    }
    forall prefix, digits | |digits| == 16 && Hexadecimal(digits) && symbol == prefix + "h" + digits
      ensures HashStart(symbol).Some?
    {
      HexIs(digits);
      assert symbol[|prefix| + 1..] == digits && symbol[|prefix|] == 'h';
    }
  }

  // A dollar at both ends and none inside.
  predicate Enclosed(e: string) {
    |e| >= 2 && e[0] == '$' && e[|e| - 1] == '$' && forall i :: 0 < i < |e| - 1 ==> e[i] != '$'
  }

  // What each escape stands for.
  type Escapes = t: seq<(string, string)> | forall k :: 0 <= k < |t| ==> Enclosed(t[k].0) witness []

  const NAMED: Escapes := [
    ("$SP$", "@"), ("$BP$", "*"), ("$RF$", "&"), ("$LT$", "<"), ("$GT$", ">"), ("$LP$", "("), ("$RP$", ")"),
    ("$C$", ",")]
  const NUMBERED: Escapes := [
    ("$u7e$", "~"), ("$u20$", " "), ("$u27$", "'"), ("$u3d$", "="), ("$u5b$", "["), ("$u5d$", "]")]
  const MORE_NUMBERED: Escapes := [
    ("$u7b$", "{"), ("$u7d$", "}"), ("$u3b$", ";"), ("$u2b$", "+"), ("$u21$", "!"), ("$u22$", "\"")]
  const ESCAPES: Escapes := NAMED + NUMBERED + MORE_NUMBERED

  function FindEscape(rest: string, table: Escapes): (r: Option<(string, string)>)
    ensures r.Some? ==> r.value.0 <= rest && r.value.0 != "" && r.value in table
  {
    if table == [] then None
    else if table[0].0 <= rest then Some(table[0])
    else FindEscape(rest, table[1..])
  }

  // No two escapes match the same text, so their order in the table does not matter.
  lemma EscapeIsUnique(rest: string, table: Escapes, e: (string, string))
    requires e in table && e.0 <= rest
    ensures FindEscape(rest, table).Some? && FindEscape(rest, table).value.0 == e.0
  {
    FindsSome(rest, table, e);
    var found := FindEscape(rest, table).value;
    assert Enclosed(found.0) && Enclosed(e.0);
    assert rest[|found.0| - 1] == '$' && rest[|e.0| - 1] == '$';
    assert forall i :: 0 <= i < |e.0| ==> e.0[i] == rest[i];
    assert forall i :: 0 <= i < |found.0| ==> found.0[i] == rest[i];
  }

  lemma {:induction false} FindsSome(rest: string, table: Escapes, e: (string, string))
    requires e in table && e.0 <= rest
    ensures FindEscape(rest, table).Some?
  {
    if !(table[0].0 <= rest) { FindsSome(rest, table[1..], e); }
  }

  // A double dot is a path separator and a known dollar escape is one character; an unknown
  // one ends the rewriting.
  function Demangle(rest: string, table: Escapes): string
    decreases |rest|
  {
    if rest == "" then ""
    else if ".." <= rest then "::" + Demangle(rest[2..], table)
    else if rest[0] == '$' then
      match FindEscape(rest, table)
      case None => rest
      case Some(found) => found.1 + Demangle(rest[|found.0|..], table)
    else [rest[0]] + Demangle(rest[1..], table)
  }

  function Trimmed(prefix: string): string {
    var rest := if EndsWith(prefix, "::") then prefix[..|prefix| - 2] else prefix;
    if "_$" <= rest then rest[1..] else rest
  }

  function Fixed(symbol: string, table: Escapes): string {
    match HashStart(symbol)
    case None => symbol
    case Some(at) => Demangle(Trimmed(symbol[..at]), table)
  }

  lemma {:induction false} PlainDemangles(rest: string, table: Escapes)
    requires !Has(rest, '$') && !Contains(rest, "..")
    ensures Demangle(rest, table) == rest
  {
    if rest != "" {
      assert forall i :: 0 <= i < |rest[1..]| ==> rest[1..][i] == rest[i + 1];
      PlainDemangles(rest[1..], table);
      assert [rest[0]] + rest[1..] == rest;
    }
  }

  // Text up to the next dollar or dot is copied as it is.
  lemma DemangleOne(rest: string, table: Escapes)
    requires rest != "" && rest[0] != '$' && rest[0] != '.'
    ensures Demangle(rest, table) == [rest[0]] + Demangle(rest[1..], table)
  {
    assert ".."[0] != rest[0];
  }

  lemma Regroup(a: string, b: string, c: string)
    ensures (a + b) + c == a + (b + c)
  {
  }

  lemma PrefixOn(s: string, n: nat)
    requires 0 < n <= |s|
    ensures s[..n] == [s[0]] + s[1..][..n - 1] && s[1..][n - 1..] == s[n..]
  {
  }

  lemma {:induction false} DemangleRun(rest: string, n: nat, table: Escapes)
    requires n <= |rest| && forall i :: 0 <= i < n ==> rest[i] != '$' && rest[i] != '.'
    ensures Demangle(rest, table) == rest[..n] + Demangle(rest[n..], table)
  {
    if n > 0 {
      DemangleOne(rest, table);
      PrefixOn(rest, n);
      DemangleRun(rest[1..], n - 1, table);
      Regroup([rest[0]], rest[1..][..n - 1], Demangle(rest[n..], table));
    }
  }

  // One piece of rewriting: what is written, and what is left to rewrite.
  method DemangleNext(rest: string, table: Escapes) returns (written: string, left: string)
    requires rest != ""
    ensures written + Demangle(left, table) == Demangle(rest, table) && |left| < |rest|
  {
    if rest[0] == '.' {
      if ".." <= rest { return "::", rest[2..]; }
      return ".", rest[1..];
    }
    if rest[0] == '$' {
      var found := FindEscape(rest, table);
      if found.None? { return rest, ""; }
      return found.value.1, rest[|found.value.0|..];
    }
    var next := NextEscape(rest);
    DemangleRun(rest, next, table);
    return rest[..next], rest[next..];
  }

  method FixPartiallyDemangledRustSymbol(symbol: string, table: Escapes) returns (r: string)
    ensures r == Fixed(symbol, table)
  {
    var hashStart := HashStart(symbol);
    if hashStart.None? { return symbol; }
    var rest := symbol[..hashStart.value];
    if EndsWith(rest, "::") { rest := rest[..|rest| - 2]; }
    if "_$" <= rest { rest := rest[1..]; }
    if !Has(rest, '$') && !Contains(rest, "..") {
      PlainDemangles(rest, table);
      return rest;
    }
    r := DemangleAll(rest, table);
  }

  method DemangleAll(symbol: string, table: Escapes) returns (r: string)
    ensures r == Demangle(symbol, table)
  {
    r := "";
    var rest := symbol;
    while rest != ""
      invariant r + Demangle(rest, table) == Demangle(symbol, table)
      decreases |rest|
    {
      var written, left := DemangleNext(rest, table);
      Regroup(r, written, Demangle(left, table));
      r, rest := r + written, left;
    }
  }

  function NextEscape(rest: string): (n: nat)
    ensures n <= |rest| && forall i :: 0 <= i < n ==> rest[i] != '$' && rest[i] != '.'
    ensures rest != "" && rest[0] != '$' && rest[0] != '.' ==> n > 0
  {
    if rest == "" || rest[0] == '$' || rest[0] == '.' then 0 else 1 + NextEscape(rest[1..])
  }

  // ----- Splitting at arrows -----------------------------------------------

  function Split(s: string): (r: seq<string>)
    ensures |r| > 0
  {
    if s == "" then [""]
    else if "->" <= s then [""] + Split(s[2..])
    else
      var rest := Split(s[1..]);
      [[s[0]] + rest[0]] + rest[1..]
  }

  // At how many places an arrow stands.
  function Arrows(s: string): nat {
    if s == "" then 0 else (if "->" <= s then 1 else 0) + Arrows(s[1..])
  }

  lemma {:induction false} SplitCount(s: string)
    ensures |Split(s)| == 1 + Arrows(s)
    decreases |s|
  {
    if "->" <= s {
      SplitCount(s[2..]);
      assert s[1] == '>' && s[1..][1..] == s[2..];
    } else if s != "" {
      SplitCount(s[1..]);
    }
  }

  function JoinWith(parts: seq<string>, separator: string): string {
    if parts == [] then "" else if |parts| == 1 then parts[0]
    else parts[0] + separator + JoinWith(parts[1..], separator)
  }

  // Splitting loses nothing.
  lemma {:induction false} SplitJoins(s: string)
    ensures JoinWith(Split(s), "->") == s
    decreases |s|
  {
    if "->" <= s {
      SplitJoins(s[2..]);
      JoinEmptyFirst(Split(s[2..]), "->");
      assert s == "->" + s[2..];
    } else if s != "" {
      SplitJoins(s[1..]);
      JoinLonger(s[0], Split(s[1..]), "->");
    }
  }

  lemma JoinEmptyFirst(parts: seq<string>, separator: string)
    requires parts != []
    ensures JoinWith([""] + parts, separator) == separator + JoinWith(parts, separator)
  {
    assert ([""] + parts)[1..] == parts;
  }

  lemma JoinLonger(c: char, parts: seq<string>, separator: string)
    requires parts != []
    ensures JoinWith([[c] + parts[0]] + parts[1..], separator) == [c] + JoinWith(parts, separator)
  {
    var longer := [[c] + parts[0]] + parts[1..];
    assert longer[1..] == parts[1..];
  }

  // And it leaves no arrow inside a part.
  lemma {:induction false} SplitSeparates(s: string)
    ensures forall i :: 0 <= i < |Split(s)| ==> !Contains(Split(s)[i], "->")
    decreases |s|
  {
    if "->" <= s {
      SplitSeparates(s[2..]);
    } else if s != "" {
      SplitSeparates(s[1..]);
      var first := Split(s[1..])[0];
      FirstPartPrefix(s[1..]);
      assert ([s[0]] + first)[1..] == first;
      assert [s[0]] + first <= s;
    }
  }

  lemma {:induction false} FirstPartPrefix(s: string)
    ensures Split(s)[0] <= s
    decreases |s|
  {
    if s != "" && !("->" <= s) { FirstPartPrefix(s[1..]); }
  }

  lemma {:induction false} NoArrow(s: string)
    requires !Contains(s, "->")
    ensures Split(s) == [s]
    decreases |s|
  {
    if s != "" {
      NoArrow(s[1..]);
      assert [s[0]] + s[1..] == s;
    }
  }

  // ----- Tidying one part --------------------------------------------------

  const ANONYMOUS: string := "(anonymous namespace)"

  predicate Opens(c: char) { c == '<' || c == '{' || c == '[' }

  predicate Closes(c: char) { c == '>' || c == '}' || c == ']' || c == ')' }

  function DepthAfter(c: char, depth: int): int {
    if Opens(c) || c == '(' then depth + 1 else if Closes(c) then depth - 1 else depth
  }

  function DotAfter(c: char, i: nat, afterDot: Option<nat>): Option<nat> { if c == '.' then Some(i + 1) else afterDot }

  // A parenthesis that does not start a parameter list.
  predicate Exempt(frame: string, i: nat, afterDot: Option<nat>) {
    afterDot == Some(i) || (i <= |frame| && ANONYMOUS <= frame[i..])
  }

  // Where the parameters begin: the first other parenthesis outside all brackets.
  function CutAt(frame: string, i: nat, depth: int, afterDot: Option<nat>): (r: nat)
    requires i <= |frame|
    ensures i <= r <= |frame|
    decreases |frame| - i
  {
    if i == |frame| then i
    else
      var c := frame[i];
      if c == '(' && depth == 0 && !Exempt(frame, i, afterDot) then i
      else
        CutAt(frame, i + 1, DepthAfter(c, depth), DotAfter(c, i, afterDot))
  }

  // How many brackets are open after this text, closing ones counted against.
  function Depth(text: string): int {
    if text == "" then 0
    else
      var c := text[|text| - 1];
      DepthAfter(c, Depth(text[..|text| - 1]))
  }

  // How many characters of a text are among these.
  function Occurs(text: string, chars: string): nat {
    if text == "" then 0 else Occurs(text[..|text| - 1], chars) + if text[|text| - 1] in chars then 1 else 0
  }

  lemma {:induction false} DepthCounts(text: string)
    ensures Depth(text) == Occurs(text, "<{[(") - Occurs(text, ">}])")
  {
    if text != "" { DepthCounts(text[..|text| - 1]); }
  }

  // A parameter list starts here: outside all brackets, neither after a dot, as a Go receiver
  // is, nor at the anonymous namespace.
  predicate StartsParameters(frame: string, i: nat) {
    && i < |frame| && frame[i] == '(' && Depth(frame[..i]) == 0
    && !(i > 0 && frame[i - 1] == '.') && !("(anonymous namespace)" <= frame[i..])
  }

  // The scan has seen this prefix.
  ghost predicate ScannedTo(frame: string, i: nat, depth: int, afterDot: Option<nat>) {
    && i <= |frame| && depth == Depth(frame[..i])
    && (afterDot == Some(i) <==> i > 0 && frame[i - 1] == '.') && (afterDot.Some? ==> afterDot.value <= i)
  }

  lemma ScanOn(frame: string, i: nat, depth: int, afterDot: Option<nat>)
    requires ScannedTo(frame, i, depth, afterDot) && i < |frame|
    ensures ScannedTo(frame, i + 1, DepthAfter(frame[i], depth), DotAfter(frame[i], i, afterDot))
  {
    assert frame[..i + 1][..i] == frame[..i];
  }

  lemma ScanSees(frame: string, i: nat, depth: int, afterDot: Option<nat>)
    requires ScannedTo(frame, i, depth, afterDot) && i < |frame|
    ensures StartsParameters(frame, i) <==> frame[i] == '(' && depth == 0 && !Exempt(frame, i, afterDot)
  {
  }

  ghost predicate FirstStart(frame: string, i: nat, cut: nat) {
    && (forall j {:trigger StartsParameters(frame, j)} :: i <= j < cut ==> !StartsParameters(frame, j))
    && (cut < |frame| ==> StartsParameters(frame, cut))
  }

  // The cut is the first place where a parameter list starts, or the end.
  lemma {:induction false} CutIsFirst(frame: string, i: nat, depth: int, afterDot: Option<nat>)
    requires ScannedTo(frame, i, depth, afterDot)
    ensures FirstStart(frame, i, CutAt(frame, i, depth, afterDot))
    decreases |frame| - i
  {
    if i < |frame| {
      ScanSees(frame, i, depth, afterDot);
      if !(frame[i] == '(' && depth == 0 && !Exempt(frame, i, afterDot)) {
        ScanOn(frame, i, depth, afterDot);
        CutIsFirst(frame, i + 1, DepthAfter(frame[i], depth), DotAfter(frame[i], i, afterDot));
      }
    }
  }

  lemma TidyCutsParameters(frame: string)
    ensures var cut := |Tidy(frame)|;
            && cut <= |frame| && Tidy(frame) == Colons(frame[..cut])
            && (forall j {:trigger StartsParameters(frame, j)} :: 0 <= j < cut ==> !StartsParameters(frame, j))
            && (cut < |frame| ==> StartsParameters(frame, cut))
  {
    CutIsFirst(frame, 0, 0, None);
  }

  function Colons(s: string): (r: string)
    ensures |r| == |s| && forall i :: 0 <= i < |s| ==> r[i] == if s[i] == ';' then ':' else s[i]
  {
    seq(|s|, i requires 0 <= i < |s| => if s[i] == ';' then ':' else s[i])
  }

  function Tidy(frame: string): string { Colons(frame[..CutAt(frame, 0, 0, None)]) }

  method TidyGeneric(frame: string) returns (r: string)
    ensures r == Tidy(frame)
  {
    var depth, length, i := 0, |frame|, 0;
    var afterDot: Option<nat> := None;
    while i < |frame|
      invariant 0 <= i <= |frame| && length == |frame|
      invariant CutAt(frame, 0, 0, None) == CutAt(frame, i, depth, afterDot)
    {
      var c := frame[i];
      if c == '(' && depth == 0 && !Exempt(frame, i, afterDot) {
        length := i;
        break;
      }
      depth := DepthAfter(c, depth);
      afterDot := DotAfter(c, i, afterDot);
      i := i + 1;
    }
    r := ReplaceSemicolons(frame[..length]);
  }

  method ReplaceSemicolons(frame: string) returns (r: string)
    ensures r == Colons(frame)
  {
    r := "";
    var start, index := 0, 0;
    while index < |frame|
      invariant 0 <= start <= index <= |frame|
      invariant r == Colons(frame[..start])
      invariant forall i :: start <= i < index ==> frame[i] != ';'
    {
      if frame[index] == ';' {
        r := r + frame[start..index] + ":";
        start := index + 1;
      }
      index := index + 1;
    }
    r := r + frame[start..];
  }

  // The scan of a frame and of its tidied prefix meet the same brackets up to the cut.
  lemma {:induction false} CutKeeps(frame: string, cut: nat, i: nat, depth: int, afterDot: Option<nat>)
    requires i <= cut <= |frame| && CutAt(frame, i, depth, afterDot) == cut
    ensures CutAt(Colons(frame[..cut]), i, depth, afterDot) == cut
    decreases |frame| - i
  {
    var tidied := Colons(frame[..cut]);
    if i < cut {
      var c := frame[i];
      var next := DepthAfter(c, depth);
      CutKeeps(frame, cut, i + 1, next, DotAfter(c, i, afterDot));
      if c == '(' && depth == 0 && ANONYMOUS <= frame[i..] { AnonymousKept(frame, cut, i, afterDot); }
    }
  }

  // The cut never falls inside the anonymous namespace.
  lemma AnonymousKept(frame: string, cut: nat, i: nat, afterDot: Option<nat>)
    requires i < cut <= |frame| && ANONYMOUS <= frame[i..] && CutAt(frame, i, 0, afterDot) == cut
    ensures ANONYMOUS <= Colons(frame[..cut])[i..]
  {
    var end := i + |ANONYMOUS|;
    assert forall k :: 0 <= k < |ANONYMOUS| ==> frame[i + k] == ANONYMOUS[k];
    CutSkips(frame, i + 1, end, 1, afterDot);
    var tidied := Colons(frame[..cut]);
    assert forall k :: 0 <= k < |ANONYMOUS| ==> ANONYMOUS[k] != ';';
    assert tidied[i..][..|ANONYMOUS|] == ANONYMOUS;
  }

  lemma {:induction false} CutSkips(frame: string, i: nat, end: nat, depth: int, afterDot: Option<nat>)
    requires i <= end <= |frame| && forall k :: i <= k < end ==> frame[k] != '('
    ensures CutAt(frame, i, depth, afterDot) >= end
    decreases end - i
  {
    if i < end {
      var c := frame[i];
      CutSkips(frame, i + 1, end, DepthAfter(c, depth), DotAfter(c, i, afterDot));
    }
  }

  lemma TidyIdempotent(frame: string)
    ensures Tidy(Tidy(frame)) == Tidy(frame)
  {
    var cut := CutAt(frame, 0, 0, None);
    CutKeeps(frame, cut, 0, 0, None);
    var tidied := Tidy(frame);
    assert tidied[..|tidied|] == tidied;
  }

  lemma {:induction false} NothingToCut(frame: string, i: nat, depth: int, afterDot: Option<nat>)
    requires i <= |frame| && !Has(frame, '(')
    ensures CutAt(frame, i, depth, afterDot) == |frame|
    decreases |frame| - i
  {
    if i < |frame| {
      var c := frame[i];
      assert c in frame;
      NothingToCut(frame, i + 1, DepthAfter(c, depth), DotAfter(c, i, afterDot));
    }
  }

  lemma PlainIsTidy(frame: string)
    requires !Has(frame, '(') && !Has(frame, ';')
    ensures Tidy(frame) == frame
  {
    NothingToCut(frame, 0, 0, None);
    assert frame[..|frame|] == frame;
    assert forall i :: 0 <= i < |frame| ==> frame[i] in frame;
  }

  lemma TidyHasNoSemicolon(frame: string)
    ensures !Has(Tidy(frame), ';')
  {
  }

  // ----- Frames and stacks -------------------------------------------------

  const INLINED: string := "_[i]"

  // Parts after an arrow are marked as inlined, once.
  function Marked(part: string, index: nat): string {
    if index > 0 && !Contains(Tidy(part), INLINED) then Tidy(part) + INLINED else Tidy(part)
  }

  function MarkedFrom(parts: seq<string>, index: nat): (r: seq<string>)
    ensures |r| == |parts|
  {
    if parts == [] then [] else [Marked(parts[0], index)] + MarkedFrom(parts[1..], index + 1)
  }

  // The segments of a frame. A frame that is only a parenthesis, such as an unknown symbol's
  // address, has none.
  function Segments(frame: string, table: Escapes): seq<string> {
    if "(" <= WithoutOffset(frame) then [] else MarkedFrom(Split(Fixed(WithoutOffset(frame), table)), 0)
  }

  function Semicolon(rendered: string, hasPrefix: bool): string {
    if hasPrefix || rendered != "" then ";" else ""
  }

  function Appended(rendered: string, segments: seq<string>, hasPrefix: bool): string {
    if segments == [] then rendered else rendered + Semicolon(rendered, hasPrefix) + JoinWith(segments, ";")
  }

  // Text that every rewriting leaves alone.
  predicate Literal(frame: string) {
    && !Has(frame, '$') && !Has(frame, '(') && !Has(frame, ';') && !Has(frame, '\n') && !Has(frame, '\r')
    && !Contains(frame, "->")
  }

  lemma LiteralSegments(fixed: string)
    requires !Has(fixed, '(') && !Has(fixed, ';') && !Contains(fixed, "->")
    ensures MarkedFrom(Split(fixed), 0) == [fixed]
  {
    NoArrow(fixed);
    PlainIsTidy(fixed);
  }

  // The parts so far, and the one that comes next, joined.
  lemma {:induction false} JoinAppend(parts: seq<string>, part: string, separator: string)
    ensures JoinWith(parts + [part], separator) ==
              if parts == [] then part else JoinWith(parts, separator) + separator + part
  {
    if |parts| == 1 {
      assert (parts + [part])[1..] == [part];
    } else if parts != [] {
      JoinAppend(parts[1..], part, separator);
      assert (parts + [part])[1..] == parts[1..] + [part];
    }
  }

  // The fast path for literal frames only saves work.
  method AppendRawFunction(rendered: string, frame: string, table: Escapes, hasPrefix: bool)
    returns (r: string, appended: bool)
    ensures r == Appended(rendered, Segments(frame, table), hasPrefix)
    ensures appended <==> Segments(frame, table) != []
  {
    var raw := WithoutOffset(frame);
    if "(" <= raw { return rendered, false; }
    var fixed := FixPartiallyDemangledRustSymbol(raw, table);
    if Literal(fixed) {
      LiteralSegments(fixed);
      return rendered + Semicolon(rendered, hasPrefix) + fixed, true;
    }
    r := AppendParts(rendered, Split(fixed), hasPrefix);
    appended := true;
  }

  method AppendParts(rendered: string, parts: seq<string>, hasPrefix: bool) returns (r: string)
    requires parts != []
    ensures r == Appended(rendered, MarkedFrom(parts, 0), hasPrefix)
  {
    r := rendered;
    ghost var segments := MarkedFrom(parts, 0);
    var index := 0;
    while index < |parts|
      invariant 0 <= index <= |parts|
      invariant r == Appended(rendered, segments[..index], hasPrefix)
    {
      var scratch := TidyGeneric(parts[index]);
      if index > 0 && !Contains(scratch, INLINED) { scratch := scratch + INLINED; }
      MarkedAt(parts, 0, index);
      AppendedMore(rendered, segments[..index], scratch, hasPrefix);
      assert segments[..index + 1] == segments[..index] + [scratch];
      r := r + Semicolon(r, hasPrefix || index != 0) + scratch;
      index := index + 1;
    }
    assert segments[..index] == segments;
  }

  lemma AppendedMore(rendered: string, segments: seq<string>, segment: string, hasPrefix: bool)
    ensures var before := Appended(rendered, segments, hasPrefix);
            Appended(rendered, segments + [segment], hasPrefix) ==
              before + Semicolon(before, hasPrefix || segments != []) + segment
  {
    JoinAppend(segments, segment, ";");
    if segments == [] {
      assert segments + [segment] == [segment];
    } else {
      var lead, joined := Semicolon(rendered, hasPrefix), JoinWith(segments, ";");
      assert rendered + lead + (joined + ";" + segment) == rendered + lead + joined + ";" + segment;
    }
  }

  lemma {:induction false} MarkedAt(parts: seq<string>, from: nat, k: nat)
    requires k < |parts|
    ensures MarkedFrom(parts, from)[k] == Marked(parts[k], from + k)
  {
    if k > 0 { MarkedAt(parts[1..], from + 1, k - 1); }
  }

  // ----- Main properties ---------------------------------------------------

  lemma {:induction false} MarkedHaveNoSemicolon(parts: seq<string>, index: nat)
    ensures forall i :: 0 <= i < |parts| ==> !Has(MarkedFrom(parts, index)[i], ';')
  {
    if parts != [] {
      MarkedHaveNoSemicolon(parts[1..], index + 1);
      TidyHasNoSemicolon(parts[0]);
      assert !Has(INLINED, ';');
    }
  }

  // An accepted frame gives one segment more than its fixed-up text has arrows, and no
  // segment holds a separator; a frame that starts with a parenthesis gives none.
  lemma SegmentCount(frame: string, table: Escapes)
    ensures |Segments(frame, table)| ==
              if "(" <= WithoutOffset(frame) then 0 else 1 + Arrows(Fixed(WithoutOffset(frame), table))
    ensures forall i :: 0 <= i < |Segments(frame, table)| ==> !Has(Segments(frame, table)[i], ';')
  {
    SplitCount(Fixed(WithoutOffset(frame), table));
    MarkedHaveNoSemicolon(Split(Fixed(WithoutOffset(frame), table)), 0);
  }

  // Each segment is its part tidied; behind an arrow it carries the inline mark, once.
  lemma SegmentIs(frame: string, table: Escapes, k: nat)
    requires k < |Segments(frame, table)|
    ensures var parts := Split(Fixed(WithoutOffset(frame), table));
            && |Segments(frame, table)| == |parts|
            && var part, segment := Tidy(parts[k]), Segments(frame, table)[k];
            && (k == 0 ==> segment == part)
            && (k > 0 && Contains(part, "_[i]") ==> segment == part)
            && (k > 0 && !Contains(part, "_[i]") ==> segment == part + "_[i]")
  {
    MarkedAt(Split(Fixed(WithoutOffset(frame), table)), 0, k);
  }

  // Separating at semicolons.
  function SplitSemicolons(s: string): (r: seq<string>)
    ensures |r| > 0
  {
    if s == "" then [""]
    else if s[0] == ';' then [""] + SplitSemicolons(s[1..])
    else
      var rest := SplitSemicolons(s[1..]);
      [[s[0]] + rest[0]] + rest[1..]
  }

  lemma {:induction false} SplitPlain(s: string)
    requires !Has(s, ';')
    ensures SplitSemicolons(s) == [s]
  {
    if s != "" {
      assert s[0] in s;
      SplitPlain(s[1..]);
      assert [s[0]] + s[1..] == s;
    }
  }

  lemma {:induction false} SplitFirst(first: string, rest: string)
    requires !Has(first, ';')
    ensures SplitSemicolons(first + ";" + rest) == [first] + SplitSemicolons(rest)
  {
    var s := first + ";" + rest;
    if first == "" {
      assert s[1..] == rest;
    } else {
      assert first[0] in first;
      assert s[1..] == first[1..] + ";" + rest;
      SplitFirst(first[1..], rest);
      var tail := [first[1..]] + SplitSemicolons(rest);
      assert [first[0]] + first[1..] == first;
      assert tail[1..] == SplitSemicolons(rest);
    }
  }

  // A rendered stack can be read back: its separators are exactly those between segments.
  lemma {:induction false} JoinSplits(segments: seq<string>)
    requires segments != [] && forall i :: 0 <= i < |segments| ==> !Has(segments[i], ';')
    ensures SplitSemicolons(JoinWith(segments, ";")) == segments
  {
    if |segments| == 1 {
      SplitPlain(segments[0]);
    } else {
      JoinSplits(segments[1..]);
      SplitFirst(segments[0], JoinWith(segments[1..], ";"));
      assert segments == [segments[0]] + segments[1..];
    }
  }

  // The cached end of the text that a frame renders to, when it needs no rewriting.
  function LiteralEnd(frame: string): (r: Option<nat>)
    ensures r.Some? ==> r.value <= |frame|
  {
    RawLiteralEnd(WithoutOffset(frame))
  }

  function RawLiteralEnd(raw: string): (r: Option<nat>)
    ensures r.Some? ==> r.value <= |raw|
  {
    match HashStart(raw)
    case None => if Literal(raw) then Some(|raw|) else None
    case Some(at) =>
      var prefix := raw[..at];
      if Contains(prefix, "..") then None
      else
        var plain := if EndsWith(prefix, "::") then prefix[..at - 2] else prefix;
        if Literal(plain) then Some(|plain|) else None
  }

  lemma {:induction false} ContainsLater(s: string, n: nat, p: string)
    requires n <= |s| && Contains(s[..n], p)
    ensures Contains(s, p)
  {
    if !(p <= s[..n]) {
      assert s[..n][1..] == s[1..][..n - 1];
      ContainsLater(s[1..], n - 1, p);
    } else {
      assert p <= s;
    }
  }

  // Whenever there is a literal end, the full routine accepts the frame and appends exactly
  // that prefix of it.
  lemma LiteralEndRefines(frame: string, table: Escapes, rendered: string, hasPrefix: bool)
    requires LiteralEnd(frame).Some?
    ensures Segments(frame, table) == [frame[..LiteralEnd(frame).value]]
    ensures Appended(rendered, Segments(frame, table), hasPrefix) ==
              rendered + Semicolon(rendered, hasPrefix) + frame[..LiteralEnd(frame).value]
  {
    var raw := WithoutOffset(frame);
    var end := LiteralEnd(frame).value;
    var plain := raw[..end];
    assert frame[..end] == plain;
    LiteralFixed(raw, table);
    LiteralSegments(plain);
    LiteralAccepted(raw);
  }

  lemma LiteralFixed(raw: string, table: Escapes)
    requires RawLiteralEnd(raw).Some?
    ensures Fixed(raw, table) == raw[..RawLiteralEnd(raw).value] && Literal(Fixed(raw, table))
  {
    var end := RawLiteralEnd(raw).value;
    var plain := raw[..end];
    match HashStart(raw)
    case None => assert plain == raw;
    case Some(at) =>
      var prefix := raw[..at];
      assert plain == prefix[..end];
      assert Has("_$", '$');
      if Contains(plain, "..") { ContainsLater(prefix, end, ".."); }
      if "_$" <= plain { assert plain[1] == '$' && plain[1] in plain; }
      PlainDemangles(plain, table);
  }

  lemma LiteralAccepted(raw: string)
    requires RawLiteralEnd(raw).Some?
    ensures !("(" <= raw)
  {
    var plain := raw[..RawLiteralEnd(raw).value];
    if plain != "" {
      assert plain[0] in plain;
    } else if HashStart(raw).Some? && HashStart(raw).value > 0 {
      var prefix := raw[..HashStart(raw).value];
      assert prefix[|prefix| - 2..][0] == ':';
    }
  }

  // ----- Whole stacks ------------------------------------------------------

  function StackSegments(frames: seq<string>, table: Escapes): seq<string> {
    if frames == [] then [] else StackSegments(frames[..|frames| - 1], table) + Segments(frames[|frames| - 1], table)
  }

  lemma {:induction false} JoinConcat(a: seq<string>, b: seq<string>)
    requires a != [] && b != []
    ensures JoinWith(a + b, ";") == JoinWith(a, ";") + ";" + JoinWith(b, ";")
  {
    assert (a + b)[1..] == a[1..] + b;
    if |a| == 1 {
      assert a[1..] + b == b;
    } else {
      JoinConcat(a[1..], b);
    }
  }

  // The text of a stack is all its segments, empty ones included, joined once.
  method RenderRawStack(frames: seq<string>, table: Escapes) returns (rendered: string)
    ensures rendered == JoinWith(StackSegments(frames, table), ";")
  {
    rendered := "";
    var hasSegment, n := false, 0;
    while n < |frames|
      invariant 0 <= n <= |frames|
      invariant rendered == JoinWith(StackSegments(frames[..n], table), ";")
      invariant hasSegment <==> StackSegments(frames[..n], table) != []
    {
      ghost var before, more := StackSegments(frames[..n], table), Segments(frames[n], table);
      var appended;
      rendered, appended := AppendRawFunction(rendered, frames[n], table, hasSegment);
      hasSegment := hasSegment || appended;
      assert frames[..n + 1][..n] == frames[..n];
      StackMore(before, more);
      n := n + 1;
    }
    assert frames[..n] == frames;
  }

  lemma StackMore(before: seq<string>, more: seq<string>)
    ensures Appended(JoinWith(before, ";"), more, before != []) == JoinWith(before + more, ";")
  {
    if before == [] {
      assert before + more == more;
    } else if more == [] {
      assert before + more == before;
    } else {
      JoinConcat(before, more);
    }
  }

  lemma {:induction false} StackHasNoSemicolon(frames: seq<string>, table: Escapes)
    ensures forall i :: 0 <= i < |StackSegments(frames, table)| ==> !Has(StackSegments(frames, table)[i], ';')
  {
    if frames != [] {
      StackHasNoSemicolon(frames[..|frames| - 1], table);
      SegmentCount(frames[|frames| - 1], table);
    }
  }

  // Separating a rendered stack gives its segments back: no frame can forge a boundary.
  lemma StackReadsBack(frames: seq<string>, table: Escapes)
    requires StackSegments(frames, table) != []
    ensures SplitSemicolons(JoinWith(StackSegments(frames, table), ";")) == StackSegments(frames, table)
  {
    StackHasNoSemicolon(frames, table);
    JoinSplits(StackSegments(frames, table));
  }

  // A whole stack with the escapes that Rust's mangling uses; what is rendered can be read back.
  method RenderInfernoPerfRawStack(frames: seq<string>) returns (rendered: string)
    ensures rendered == JoinWith(StackSegments(frames, ESCAPES), ";")
    ensures StackSegments(frames, ESCAPES) != [] ==> SplitSemicolons(rendered) == StackSegments(frames, ESCAPES)
  {
    rendered := RenderRawStack(frames, ESCAPES);
    if StackSegments(frames, ESCAPES) != [] { StackReadsBack(frames, ESCAPES); }
  }
}
