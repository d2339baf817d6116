// What the flat list promises: inserting overrides point by point, forking copies, and
// a whole run of records resolves every address to the newest insert that covers it.
module MappingFacts {
  import opened Basics
  import opened MappingRows

  // Everything about a map except where it lies: two pieces of one map share an origin.
  ghost predicate SameOrigin(a: Mapping, b: Mapping) {
    a.pid == b.pid && a.image == b.image && WrapSub(a.pgoff, a.start) == WrapSub(b.pgoff, b.start)
  }

  ghost predicate SameOriginOption(a: Option<Mapping>, b: Option<Mapping>) {
    a.Some? == b.Some? && (a.Some? ==> SameOrigin(a.value, b.value))
  }

  // Where in its object an address of a map lies: as far from the map's file offset as the
  // address is from its start, all modulo 2^64. A bracketed map of the kernel's own, such as the
  // kernel's text, is not translated at all.
  predicate Translates(m: Mapping, ip: u64, relative: u64) {
    if m.pid == 0xffff_ffff && m.image.path != "" && m.image.path[0] == '[' then relative == ip
    else (relative - m.pgoff) % TWO_64 == (ip - m.start) % TWO_64
  }

  lemma FrameTranslates(m: Mapping, ip: u64)
    ensures Translates(m, ip, FrameOf(m, ip).relative)
  {
    Wraps(m.pgoff, m.start, ip);
  }

  lemma Wraps(to: u64, from: u64, ip: u64)
    ensures (WrapAdd(ip, WrapSub(to, from)) - to) % TWO_64 == (ip - from) % TWO_64
  {
    var bias := WrapSub(to, from);
    assert bias == to - from + if to < from then TWO_64 else 0;
    assert WrapAdd(ip, bias) == ip + bias - if ip + bias < TWO_64 then 0 else TWO_64;
  }

  // There is one such place only.
  lemma TranslatesOnce(m: Mapping, ip: u64, a: u64, b: u64)
    requires Translates(m, ip, a) && Translates(m, ip, b)
    ensures a == b
  {
    SameRemainder(a - m.pgoff, b - m.pgoff);
  }

  lemma SameRemainder(x: int, y: int)
    requires x % TWO_64 == y % TWO_64
    ensures (x - y) % TWO_64 == 0
  {
    assert x == x / TWO_64 * TWO_64 + x % TWO_64;
    assert y == y / TWO_64 * TWO_64 + y % TWO_64;
  }

  // A map of the process or of the kernel that covers the address; ends saturate, so the last
  // address of all is never covered.
  predicate Candidate(m: Mapping, pid: u32, ip: u64) {
    (m.pid == pid || m.pid == 0xffff_ffff) && m.start <= ip < Min(m.start + m.len, U64_MAX)
  }

  // What a resolved frame must be, whatever found it: of all candidates the one that starts
  // last, the process's own if two start together, and its address translated.
  ghost predicate Resolves(rows: seq<Mapping>, pid: u32, ip: u64, frame: Option<MappedFrame>) {
    match frame
    case None => forall m :: m in rows ==> !Candidate(m, pid, ip)
    case Some(f) =>
      && f.mapping in rows && Candidate(f.mapping, pid, ip) && Translates(f.mapping, ip, f.relative)
      && forall m :: m in rows && Candidate(m, pid, ip) ==>
           m.start <= f.mapping.start && (m.start == f.mapping.start && m.pid == pid ==> f.mapping.pid == pid)
  }

  // A user frame lies in a user-mode map of the process itself.
  predicate UserCandidate(m: Mapping, pid: u32, ip: u64) {
    m.pid == pid && m.start <= ip < Min(m.start + m.len, U64_MAX) && m.image.cpumode == User
  }

  ghost predicate ResolvesUser(rows: seq<Mapping>, pid: u32, ip: u64, frame: Option<MappedFrame>) {
    match frame
    case None => forall m :: m in rows ==> !UserCandidate(m, pid, ip)
    case Some(f) => f.mapping in rows && UserCandidate(f.mapping, pid, ip) && Translates(f.mapping, ip, f.relative)
  }

  lemma LookupIsOnly(rows: seq<Mapping>, pid: u32, ip: u64, m: Mapping)
    requires Disjoint(rows) && m in rows && m.pid == pid && m.Contains(ip)
    ensures Lookup(rows, pid, ip) == Some(m)
  {
    var k :| 0 <= k < |rows| && rows[k] == m;
    OnlyHit(rows, pid, ip, k);
  }

  lemma ScanResolves(rows: seq<Mapping>, pid: u32, ip: u64)
    requires Disjoint(rows)
    ensures Resolves(rows, pid, ip, ScanFrame(rows, pid, ip))
  {
    forall m | m in rows && Candidate(m, pid, ip) ensures Lookup(rows, m.pid, ip) == Some(m) {
      LookupIsOnly(rows, m.pid, ip, m);
    }
    var found := ScanMapping(rows, pid, ip);
    if found.Some? { FrameTranslates(found.value, ip); }
  }

  lemma ScanUserResolves(rows: seq<Mapping>, pid: u32, ip: u64)
    requires Disjoint(rows)
    ensures ResolvesUser(rows, pid, ip, ScanUserFrame(rows, pid, ip))
  {
    forall m | m in rows && UserCandidate(m, pid, ip) ensures Lookup(rows, pid, ip) == Some(m) {
      LookupIsOnly(rows, pid, ip, m);
    }
    var found := Lookup(rows, pid, ip);
    if found.Some? { FrameTranslates(found.value, ip); }
  }

  // Same origin means the same relative address at every address.
  lemma SameOriginSameRelative(a: Mapping, b: Mapping, ip: u64)
    requires SameOrigin(a, b)
    ensures a.Relative(ip) == b.Relative(ip) && a.image == b.image
  {
  }

  lemma SplitPart(row: Mapping, m: Mapping, part: Mapping)
    requires row.Overlaps(m) && part in Split(row, m)
    ensures SameOrigin(part, row)
    ensures row.start <= part.start && part.End() <= row.End()
    ensures part.End() == m.start || part.start == m.End()
  {
    if row.start < m.start && part == Before(row, m) {
      assert part.End() == m.start;
    } else {
      assert part == After(row, m);
      WrapShift(row.pgoff, row.start, m.End());
    }
  }

  // Moving a start and its file offset by as much keeps their difference.
  lemma WrapShift(offset: u64, from: u64, to: u64)
    requires from <= to
    ensures WrapSub(WrapAdd(offset, to - from), to) == WrapSub(offset, from)
  {
  }

  lemma SplitCovers(row: Mapping, m: Mapping, ip: u64) returns (k: nat)
    requires row.Overlaps(m) && row.Contains(ip) && !m.Contains(ip)
    ensures k < |Split(row, m)| && Split(row, m)[k].Contains(ip)
  {
    k := if ip < m.start then 0 else |Split(row, m)| - 1;
    assert Split(row, m)[k] == if ip < m.start then Before(row, m) else After(row, m);
  }

  lemma SplitSides(row: Mapping, m: Mapping)
    requires row.Overlaps(m) && |Split(row, m)| > 1
    ensures |Split(row, m)| == 2
    ensures Split(row, m)[0].End() == m.start && Split(row, m)[1].start == m.End()
  {
    assert Split(row, m) == [Before(row, m), After(row, m)];
  }

  // ----- Where the rows after an insert come from --------------------------

  // k is the old row a survivor or fragment comes from.
  ghost predicate Survives(rows: seq<Mapping>, m: Mapping, k: nat, row: Mapping) {
    k < |rows| && row == rows[k] && !Displaced(rows[k], m)
  }

  ghost predicate CutFrom(rows: seq<Mapping>, m: Mapping, k: nat, row: Mapping) {
    k < |rows| && Displaced(rows[k], m) && row in Split(rows[k], m)
  }

  lemma {:induction false} SurvivorOrigin(rows: seq<Mapping>, m: Mapping, i: nat, j: nat) returns (k: nat, l: nat)
    requires i < j < |Survivors(rows, m)|
    ensures k < l && Survives(rows, m, k, Survivors(rows, m)[i]) && Survives(rows, m, l, Survivors(rows, m)[j])
  {
    if Displaced(rows[0], m) {
      k, l := SurvivorOrigin(rows[1..], m, i, j);
      k, l := k + 1, l + 1;
    } else if i == 0 {
      l := SurvivorSource(rows[1..], m, j - 1);
      k, l := 0, l + 1;
    } else {
      k, l := SurvivorOrigin(rows[1..], m, i - 1, j - 1);
      k, l := k + 1, l + 1;
    }
  }

  lemma {:induction false} SurvivorSource(rows: seq<Mapping>, m: Mapping, i: nat) returns (k: nat)
    requires i < |Survivors(rows, m)|
    ensures Survives(rows, m, k, Survivors(rows, m)[i])
  {
    if !Displaced(rows[0], m) && i == 0 {
      k := 0;
    } else {
      k := SurvivorSource(rows[1..], m, if Displaced(rows[0], m) then i else i - 1);
      k := k + 1;
    }
  }

  function Pieces(row: Mapping, m: Mapping): seq<Mapping> {
    if Displaced(row, m) then Split(row, m) else []
  }

  lemma FragmentShift(rows: seq<Mapping>, m: Mapping, i: nat)
    requires rows != [] && |Pieces(rows[0], m)| <= i < |Fragments(rows, m)|
    ensures i - |Pieces(rows[0], m)| < |Fragments(rows[1..], m)|
    ensures Fragments(rows, m)[i] == Fragments(rows[1..], m)[i - |Pieces(rows[0], m)|]
  {
    assert Fragments(rows, m) == Pieces(rows[0], m) + Fragments(rows[1..], m);
  }

  lemma {:induction false} FragmentSource(rows: seq<Mapping>, m: Mapping, i: nat) returns (k: nat)
    requires i < |Fragments(rows, m)|
    ensures CutFrom(rows, m, k, Fragments(rows, m)[i])
    ensures k == 0 <==> i < |Pieces(rows[0], m)|
  {
    if i < |Pieces(rows[0], m)| {
      k := 0;
      assert Fragments(rows, m)[i] == Pieces(rows[0], m)[i];
    } else {
      FragmentShift(rows, m, i);
      k := FragmentSource(rows[1..], m, i - |Pieces(rows[0], m)|);
      k := k + 1;
    }
  }

  // Both sides of a split are in order: the first ends where the new map starts.
  lemma SplitOrigin(rows: seq<Mapping>, m: Mapping, i: nat, j: nat)
    requires rows != [] && i < j < |Pieces(rows[0], m)|
    ensures j < |Fragments(rows, m)|
    ensures Fragments(rows, m)[i].End() == m.start && Fragments(rows, m)[j].start == m.End()
  {
    SplitSides(rows[0], m);
    assert Fragments(rows, m) == Split(rows[0], m) + Fragments(rows[1..], m);
  }

  // Two rows are the two sides of one old row, or come from different old rows in order.
  ghost predicate Origins(rows: seq<Mapping>, m: Mapping, a: Mapping, b: Mapping, k: nat, l: nat) {
    && CutFrom(rows, m, k, a) && CutFrom(rows, m, l, b) && k <= l
    && (k == l ==> a.End() == m.start && b.start == m.End())
  }

  lemma OriginsShift(rows: seq<Mapping>, m: Mapping, a: Mapping, b: Mapping, k: nat, l: nat)
    requires rows != [] && Origins(rows[1..], m, a, b, k, l)
    ensures Origins(rows, m, a, b, k + 1, l + 1)
  {
  }

  lemma {:induction false} FragmentOrigin(rows: seq<Mapping>, m: Mapping, i: nat, j: nat) returns (k: nat, l: nat)
    requires i < j < |Fragments(rows, m)|
    ensures Origins(rows, m, Fragments(rows, m)[i], Fragments(rows, m)[j], k, l)
  {
    var n := |Pieces(rows[0], m)|;
    if i < n {
      k := FragmentSource(rows, m, i);
      l := FragmentSource(rows, m, j);
      if j < n { SplitOrigin(rows, m, i, j); }
    } else {
      FragmentShift(rows, m, i);
      FragmentShift(rows, m, j);
      k, l := FragmentOrigin(rows[1..], m, i - n, j - n);
      OriginsShift(rows, m, Fragments(rows, m)[i], Fragments(rows, m)[j], k, l);
      k, l := k + 1, l + 1;
    }
  }

  // ----- Inserting keeps rows disjoint -------------------------------------

  lemma SurvivorsDisjoint(rows: seq<Mapping>, m: Mapping)
    requires Disjoint(rows)
    ensures Disjoint(Survivors(rows, m))
  {
    var s := Survivors(rows, m);
    forall i, j | 0 <= i < j < |s| && s[i].pid == s[j].pid
      ensures !s[i].Overlaps(s[j])
    {
      var k, l := SurvivorOrigin(rows, m, i, j);
    }
  }

  lemma FragmentsDisjoint(rows: seq<Mapping>, m: Mapping)
    requires Disjoint(rows)
    ensures Disjoint(Fragments(rows, m))
  {
    var f := Fragments(rows, m);
    forall i, j | 0 <= i < j < |f| && f[i].pid == f[j].pid
      ensures !f[i].Overlaps(f[j])
    {
      var k, l := FragmentOrigin(rows, m, i, j);
      SplitPart(rows[k], m, f[i]);
      SplitPart(rows[l], m, f[j]);
      if k < l {
        assert !rows[k].Overlaps(rows[l]);
      }
    }
  }

  lemma SurvivorMissesFragment(rows: seq<Mapping>, m: Mapping, i: nat, j: nat)
    requires Disjoint(rows)
    requires i < |Survivors(rows, m)| && j < |Fragments(rows, m)|
    requires Survivors(rows, m)[i].pid == Fragments(rows, m)[j].pid
    ensures !Survivors(rows, m)[i].Overlaps(Fragments(rows, m)[j])
  {
    var k := SurvivorSource(rows, m, i);
    var l := FragmentSource(rows, m, j);
    SplitPart(rows[l], m, Fragments(rows, m)[j]);
    if k < l {
      assert !rows[k].Overlaps(rows[l]);
    } else {
      assert k != l && !rows[l].Overlaps(rows[k]);
    }
  }

  lemma InsertKeepsDisjoint(rows: seq<Mapping>, m: Mapping)
    requires Disjoint(rows)
    ensures Disjoint(InsertRow(rows, m))
  {
    var s, f, r := Survivors(rows, m), Fragments(rows, m), InsertRow(rows, m);
    SurvivorsDisjoint(rows, m);
    FragmentsDisjoint(rows, m);
    forall i, j | 0 <= i < j < |r| && r[i].pid == r[j].pid
      ensures !r[i].Overlaps(r[j])
    {
      if j < |s| {
        assert r[i] == s[i] && r[j] == s[j];
      } else if j < |s| + |f| {
        assert r[j] == f[j - |s|];
        if i < |s| {
          SurvivorMissesFragment(rows, m, i, j - |s|);
        } else {
          assert r[i] == f[i - |s|];
        }
      } else if i < |s| {
        var k := SurvivorSource(rows, m, i);
      } else {
        var k := FragmentSource(rows, m, i - |s|);
        SplitPart(rows[k], m, r[i]);
      }
    }
  }

  // ----- Inserting overrides point by point --------------------------------

  lemma {:induction false} SurvivorKept(rows: seq<Mapping>, m: Mapping, k: nat) returns (i: nat)
    requires k < |rows| && !Displaced(rows[k], m)
    ensures i < |Survivors(rows, m)| && Survivors(rows, m)[i] == rows[k]
  {
    if k == 0 {
      i := 0;
    } else {
      i := SurvivorKept(rows[1..], m, k - 1);
      if !Displaced(rows[0], m) { i := i + 1; }
    }
  }

  lemma {:induction false} FragmentKept(rows: seq<Mapping>, m: Mapping, k: nat, p: nat) returns (i: nat)
    requires k < |rows| && Displaced(rows[k], m) && p < |Split(rows[k], m)|
    ensures i < |Fragments(rows, m)| && Fragments(rows, m)[i] == Split(rows[k], m)[p]
  {
    if k == 0 {
      i := p;
    } else {
      i := FragmentKept(rows[1..], m, k - 1, p);
      if Displaced(rows[0], m) { i := i + |Split(rows[0], m)|; }
    }
  }

  lemma {:induction false} LookupFinds(rows: seq<Mapping>, pid: u32, ip: u64) returns (k: nat)
    requires Lookup(rows, pid, ip).Some?
    ensures k < |rows| && rows[k] == Lookup(rows, pid, ip).value
  {
    k :| 0 <= k < |rows| && rows[k] == Lookup(rows, pid, ip).value;
  }

  lemma OverriddenInside(rows: seq<Mapping>, m: Mapping, ip: u64)
    requires Disjoint(rows) && m.Contains(ip)
    ensures Lookup(InsertRow(rows, m), m.pid, ip) == Some(m)
  {
    var r := InsertRow(rows, m);
    InsertKeepsDisjoint(rows, m);
    assert r[|r| - 1] == m;
    OnlyHit(r, m.pid, ip, |r| - 1);
  }

  // Wherever the new map is not, what is left of an old row still contains the address.
  lemma PieceKept(rows: seq<Mapping>, m: Mapping, k: nat, ip: u64) returns (i: nat)
    requires k < |rows| && rows[k].Contains(ip) && !(rows[k].pid == m.pid && m.Contains(ip))
    ensures i < |InsertRow(rows, m)| && InsertRow(rows, m)[i].Contains(ip)
    ensures SameOrigin(InsertRow(rows, m)[i], rows[k])
  {
    var s, f := Survivors(rows, m), Fragments(rows, m);
    if Displaced(rows[k], m) {
      var p := SplitCovers(rows[k], m, ip);
      i := FragmentKept(rows, m, k, p);
      SplitPart(rows[k], m, f[i]);
      i := |s| + i;
    } else {
      i := SurvivorKept(rows, m, k);
    }
  }

  lemma PieceStillHit(rows: seq<Mapping>, m: Mapping, pid: u32, ip: u64)
    requires Disjoint(rows) && !(pid == m.pid && m.Contains(ip))
    requires Lookup(rows, pid, ip).Some?
    ensures Lookup(InsertRow(rows, m), pid, ip).Some?
    ensures SameOrigin(Lookup(InsertRow(rows, m), pid, ip).value, Lookup(rows, pid, ip).value)
  {
    InsertKeepsDisjoint(rows, m);
    var k := LookupFinds(rows, pid, ip);
    var i := PieceKept(rows, m, k, ip);
    OnlyHit(InsertRow(rows, m), pid, ip, i);
  }

  lemma NothingNewHit(rows: seq<Mapping>, m: Mapping, pid: u32, ip: u64)
    requires !(pid == m.pid && m.Contains(ip))
    requires Lookup(rows, pid, ip).None?
    ensures Lookup(InsertRow(rows, m), pid, ip).None?
  {
    var s, f := Survivors(rows, m), Fragments(rows, m);
    if Lookup(s, pid, ip).Some? {
      var k := LookupFinds(s, pid, ip);
      var i := SurvivorSource(rows, m, k);
    }
    if Lookup(f, pid, ip).Some? {
      var k := LookupFinds(f, pid, ip);
      var i := FragmentSource(rows, m, k);
      SplitPart(rows[i], m, f[k]);
    }
    LookupConcat(s, f, pid, ip);
    LookupConcat(s + f, [m], pid, ip);
  }

  // Inside the new range the lookup gives the new map; at every other address of every
  // process it gives a piece of the map that was there before, or nothing as before.
  lemma InsertOverrides(rows: seq<Mapping>, m: Mapping, pid: u32, ip: u64)
    requires Disjoint(rows)
    ensures pid == m.pid && m.Contains(ip) ==> Lookup(InsertRow(rows, m), pid, ip) == Some(m)
    ensures !(pid == m.pid && m.Contains(ip)) ==>
              SameOriginOption(Lookup(InsertRow(rows, m), pid, ip), Lookup(rows, pid, ip))
  {
    if pid == m.pid && m.Contains(ip) {
      OverriddenInside(rows, m, ip);
    } else if Lookup(rows, pid, ip).Some? {
      PieceStillHit(rows, m, pid, ip);
    } else {
      NothingNewHit(rows, m, pid, ip);
    }
  }

  lemma {:induction false} SurvivorsOfOtherPids(rows: seq<Mapping>, m: Mapping, pid: u32)
    requires pid != m.pid
    ensures RowsOfPid(Survivors(rows, m), pid) == RowsOfPid(rows, pid)
  {
    if rows != [] {
      SurvivorsOfOtherPids(rows[1..], m, pid);
      RowsOfPidConcat(if Displaced(rows[0], m) then [] else [rows[0]], Survivors(rows[1..], m), pid);
    }
  }

  // Rows of every other process keep their contents and order.
  lemma InsertLeavesOtherPids(rows: seq<Mapping>, m: Mapping, pid: u32)
    requires pid != m.pid
    ensures RowsOfPid(InsertRow(rows, m), pid) == RowsOfPid(rows, pid)
  {
    var s, f := Survivors(rows, m), Fragments(rows, m);
    SurvivorsOfOtherPids(rows, m, pid);
    forall p | p in f + [m] ensures p.pid != pid {
      if p in f {
        var i :| 0 <= i < |f| && f[i] == p;
        var k := FragmentSource(rows, m, i);
      }
    }
    NoRowsOfPid(f + [m], pid);
    assert s + (f + [m]) == InsertRow(rows, m);
    RowsOfPidConcat(s, f + [m], pid);
  }

  lemma {:induction false} RowsOfPidConcat(a: seq<Mapping>, b: seq<Mapping>, pid: u32)
    ensures RowsOfPid(a + b, pid) == RowsOfPid(a, pid) + RowsOfPid(b, pid)
  {
    if a == [] {
      assert a + b == b;
    } else {
      assert (a + b)[1..] == a[1..] + b;
      RowsOfPidConcat(a[1..], b, pid);
      if a[0].pid == pid {
        var head, x, y := [a[0]], RowsOfPid(a[1..], pid), RowsOfPid(b, pid);
        assert head + (x + y) == head + x + y;
      }
    }
  }

  lemma {:induction false} NoRowsOfPid(rows: seq<Mapping>, pid: u32)
    requires forall p :: p in rows ==> p.pid != pid
    ensures RowsOfPid(rows, pid) == []
  {
    if rows != [] {
      assert rows[0] in rows;
      NoRowsOfPid(rows[1..], pid);
    }
  }

  // ----- Exec and fork -----------------------------------------------------

  lemma LookupCons(rows: seq<Mapping>, pid: u32, ip: u64)
    requires rows != []
    ensures Lookup(rows, pid, ip) ==
            if Lookup(rows[1..], pid, ip).Some? then Lookup(rows[1..], pid, ip)
            else if rows[0].pid == pid && rows[0].Contains(ip) then Some(rows[0])
            else None
  {
    assert [rows[0]] + rows[1..] == rows;
    assert [rows[0]][..0] == [];
    LookupConcat([rows[0]], rows[1..], pid, ip);
  }

  lemma {:induction false} RemovePidLookup(rows: seq<Mapping>, gone: u32, pid: u32, ip: u64)
    ensures Lookup(RemovePid(rows, gone), pid, ip) == if pid == gone then None else Lookup(rows, pid, ip)
  {
    if rows != [] {
      RemovePidLookup(rows[1..], gone, pid, ip);
      LookupCons(rows, pid, ip);
      var head := if rows[0].pid == gone then [] else [rows[0]];
      LookupConcat(head, RemovePid(rows[1..], gone), pid, ip);
    }
  }

  function RelabelOption(m: Option<Mapping>, pid: u32): Option<Mapping> {
    if m.Some? then Some(m.value.(pid := pid)) else None
  }

  lemma {:induction false} RowsOfPidLookup(rows: seq<Mapping>, pid: u32, ip: u64)
    ensures Lookup(RowsOfPid(rows, pid), pid, ip) == Lookup(rows, pid, ip)
    ensures forall k :: 0 <= k < |RowsOfPid(rows, pid)| ==> RowsOfPid(rows, pid)[k].pid == pid
  {
    if rows != [] {
      RowsOfPidLookup(rows[1..], pid, ip);
      LookupCons(rows, pid, ip);
      var head := if rows[0].pid == pid then [rows[0]] else [];
      LookupConcat(head, RowsOfPid(rows[1..], pid), pid, ip);
    }
  }

  lemma {:induction false} RelabelLookup(rows: seq<Mapping>, parent: u32, child: u32, ip: u64)
    requires forall k :: 0 <= k < |rows| ==> rows[k].pid == parent
    ensures Lookup(Relabel(rows, child), child, ip) == RelabelOption(Lookup(rows, parent, ip), child)
  {
    if rows != [] {
      var n := |rows| - 1;
      assert Relabel(rows, child)[..n] == Relabel(rows[..n], child);
      RelabelLookup(rows[..n], parent, child, ip);
    }
  }

  lemma InheritedLookup(rows: seq<Mapping>, parent: u32, child: u32, pid: u32, ip: u64)
    ensures Lookup(Relabel(RowsOfPid(rows, parent), child), pid, ip) ==
            if pid == child then RelabelOption(Lookup(rows, parent, ip), child) else None
  {
    RowsOfPidLookup(rows, parent, ip);
    RelabelLookup(RowsOfPid(rows, parent), parent, child, ip);
  }

  // After a fork the child resolves every address as its parent does, whatever it held
  // before, and every other process resolves as it did.
  lemma ForkCopies(rows: seq<Mapping>, parent: u32, child: u32, pid: u32, ip: u64)
    requires parent != child
    ensures Lookup(ForkRows(rows, parent, child), pid, ip) ==
            if pid == child then RelabelOption(Lookup(rows, parent, ip), child) else Lookup(rows, pid, ip)
  {
    RemovePidLookup(rows, child, pid, ip);
    InheritedLookup(rows, parent, child, pid, ip);
    LookupConcat(RemovePid(rows, child), Relabel(RowsOfPid(rows, parent), child), pid, ip);
  }

  lemma DisjointCons(row: Mapping, rest: seq<Mapping>)
    requires Disjoint(rest)
    requires forall r :: r in rest && r.pid == row.pid ==> !row.Overlaps(r)
    ensures Disjoint([row] + rest)
  {
  }

  lemma DisjointTail(rows: seq<Mapping>)
    requires Disjoint(rows) && rows != []
    ensures Disjoint(rows[1..])
    ensures forall r :: r in rows[1..] && r.pid == rows[0].pid ==> !rows[0].Overlaps(r)
  {
    forall r | r in rows[1..] && r.pid == rows[0].pid ensures !rows[0].Overlaps(r) {
      var k :| 0 <= k < |rows[1..]| && rows[1..][k] == r;
      assert rows[k + 1] == r;
    }
  }

  lemma {:induction false} RowsOfPidDisjoint(rows: seq<Mapping>, pid: u32)
    requires Disjoint(rows)
    ensures Disjoint(RowsOfPid(rows, pid))
    ensures forall r :: r in RowsOfPid(rows, pid) ==> r in rows && r.pid == pid
  {
    if rows != [] {
      DisjointTail(rows);
      RowsOfPidDisjoint(rows[1..], pid);
      if rows[0].pid == pid { DisjointCons(rows[0], RowsOfPid(rows[1..], pid)); }
    }
  }

  lemma {:induction false} RemovePidDisjoint(rows: seq<Mapping>, pid: u32)
    requires Disjoint(rows)
    ensures Disjoint(RemovePid(rows, pid))
    ensures forall r :: r in RemovePid(rows, pid) ==> r in rows && r.pid != pid
  {
    if rows != [] {
      DisjointTail(rows);
      RemovePidDisjoint(rows[1..], pid);
      if rows[0].pid != pid { DisjointCons(rows[0], RemovePid(rows[1..], pid)); }
    }
  }

  lemma ForkKeepsDisjoint(rows: seq<Mapping>, parent: u32, child: u32)
    requires Disjoint(rows)
    ensures Disjoint(ForkRows(rows, parent, child))
  {
    if parent != child {
      RemovePidDisjoint(rows, child);
      RowsOfPidDisjoint(rows, parent);
      var kept, copied, r :=
        RemovePid(rows, child), Relabel(RowsOfPid(rows, parent), child), ForkRows(rows, parent, child);
      forall i, j | 0 <= i < j < |r| && r[i].pid == r[j].pid
        ensures !r[i].Overlaps(r[j])
      {
        if j < |kept| {
          assert r[i] == kept[i] && r[j] == kept[j];
        } else if |kept| <= i {
          var a, b := RowsOfPid(rows, parent)[i - |kept|], RowsOfPid(rows, parent)[j - |kept|];
          assert a in RowsOfPid(rows, parent) && b in RowsOfPid(rows, parent);
          assert !a.Overlaps(b);
        }
      }
    }
  }

  // ----- Whole runs --------------------------------------------------------

  lemma {:induction false} RunKeepsDisjoint(events: seq<Event>)
    ensures Disjoint(ApplyEvents([], events))
  {
    if events != [] {
      var before := ApplyEvents([], events[..|events| - 1]);
      RunKeepsDisjoint(events[..|events| - 1]);
      match events[|events| - 1]
      case Mmap(m) => InsertKeepsDisjoint(before, m);
      case Fork(parent, child) => ForkKeepsDisjoint(before, parent, child);
      case Release(pid) => RemovePidDisjoint(before, pid);
    }
  }

  // Which recorded map owns an address after a run of records, read off the record
  // history alone: no list, no splitting, no file-offset arithmetic.
  ghost function Owner(events: seq<Event>, pid: u32, ip: u64): Option<Mapping> {
    if events == [] then None
    else
      var earlier := events[..|events| - 1];
      match events[|events| - 1]
      case Mmap(m) => if m.pid == pid && m.Contains(ip) then Some(m) else Owner(earlier, pid, ip)
      case Fork(parent, child) =>
        if pid == child && parent != child then RelabelOption(Owner(earlier, parent, ip), child)
        else Owner(earlier, pid, ip)
      case Release(gone) => if pid == gone then None else Owner(earlier, pid, ip)
  }

  // After every run of records, every address of every process resolves to a piece of the
  // newest map recorded over it (inherited through forks), with that map's translation.
  lemma {:induction false} NewestInsertWins(events: seq<Event>, pid: u32, ip: u64)
    ensures SameOriginOption(Lookup(ApplyEvents([], events), pid, ip), Owner(events, pid, ip))
    decreases |events|
  {
    if events != [] {
      var earlier := events[..|events| - 1];
      var before := ApplyEvents([], earlier);
      RunKeepsDisjoint(earlier);
      NewestInsertWins(earlier, pid, ip);
      match events[|events| - 1]
      case Mmap(m) => InsertOverrides(before, m, pid, ip);
      case Fork(parent, child) =>
        if parent != child {
          NewestInsertWins(earlier, parent, ip);
          ForkCopies(before, parent, child, pid, ip);
        }
      case Release(gone) => RemovePidLookup(before, gone, pid, ip);
    }
  }

  // What a user frame resolves to after a run, read off the record history.
  lemma UserFrameFromHistory(events: seq<Event>, pid: u32, ip: u64)
    ensures ScanUserFrame(ApplyEvents([], events), pid, ip).Some?
            <==> Owner(events, pid, ip).Some? && Owner(events, pid, ip).value.image.cpumode == User
    ensures ScanUserFrame(ApplyEvents([], events), pid, ip).Some? ==>
              var frame, owner := ScanUserFrame(ApplyEvents([], events), pid, ip).value, Owner(events, pid, ip).value;
              frame.mapping.image == owner.image && Translates(owner, ip, frame.relative)
  {
    NewestInsertWins(events, pid, ip);
    if Lookup(ApplyEvents([], events), pid, ip).Some? {
      var owner := Owner(events, pid, ip).value;
      SameOriginSameRelative(Lookup(ApplyEvents([], events), pid, ip).value, owner, ip);
      FrameTranslates(owner, ip);
    }
  }
}
