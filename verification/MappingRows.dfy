// The simple thing the address-map table speeds up: a flat list of address
// ranges in insertion order, where the newest insert wins within its process.
module MappingRows {
  import opened Basics

  const GLOBAL_PID: u32 := U32_MAX
  const PROT_EXEC: int := 4

  datatype CpuMode = Kernel | User

  datatype FileIdentity = FileIdentity(major: u32, minor: u32, inode: u64, inodeGeneration: u64)

  // What a map shows, wherever it lies.
  datatype Image = Image(
    dso: nat,
    path: string,
    display: Option<string>,
    buildId: Option<seq<u8>>,
    fileIdentity: Option<FileIdentity>,
    prot: Option<u32>,
    cpumode: CpuMode,
    moduleLookup: Option<(u64, u32)>,
    relocatable: bool,
    synthetic: bool)
  {
    function DisplayPath(): string { if display.Some? then display.value else path }

    predicate IsBracketed() { |path| > 0 && path[0] == '[' }

    predicate MayExecute() {
      !((prot.Some? && (prot.value / PROT_EXEC) % 2 == 0) || IsPerfDataPath(path))
    }
  }

  datatype Mapping = Mapping(pid: u32, start: u64, len: u64, pgoff: u64, image: Image)
  {
    // Half-open range whose end saturates, so the address U64_MAX is never mapped.
    function End(): u64 { SatAdd(start, len) }

    predicate Contains(ip: u64) { start <= ip < End() }

    predicate Overlaps(other: Mapping) { start < other.End() && other.start < End() }

    predicate IsKernelSymbol() { pid == GLOBAL_PID && image.IsBracketed() }

    // Perf translates with unsigned arithmetic, and not at all for kernel symbols.
    function Bias(): u64 { if IsKernelSymbol() then 0 else WrapSub(pgoff, start) }

    function Relative(ip: u64): u64 { WrapAdd(ip, Bias()) }
  }

  predicate HasPrefix(s: string, prefix: string) {
    |prefix| <= |s| && s[..|prefix|] == prefix
  }

  function Basename(path: string): string
    decreases |path|
  {
    if exists i :: 0 <= i < |path| && path[i] == '/' then Basename(path[1..]) else path
  }

  predicate IsPerfDataPath(path: string) {
    Basename(path) == "perf.data" || HasPrefix(Basename(path), "perf.data.")
  }

  // The last part of a path, behind its last slash.
  ghost predicate LastPart(path: string, name: string) {
    '/' !in name && (path == name || exists dir {:trigger dir + "/" + name} :: path == dir + "/" + name)
  }

  lemma {:induction false} BasenameIs(path: string)
    ensures LastPart(path, Basename(path))
    decreases |path|
  {
    if i :| 0 <= i < |path| && path[i] == '/' {
      var name := Basename(path);
      BasenameIs(path[1..]);
      if path[1..] == name {
        assert path == "" + "/" + name;
      } else {
        var dir :| path[1..] == dir + "/" + name;
        assert path == [path[0]] + dir + "/" + name;
      }
    }
  }

  // A map may execute unless its protection is known to lack execution, or it shows a recording
  // of perf's own.
  lemma MayExecuteIs(image: Image, name: string)
    requires LastPart(image.path, name)
    ensures image.MayExecute() <==>
            (image.prot.None? || image.prot.value % 8 >= 4)
            && !(name == "perf.data" || (|name| >= 10 && name[..10] == "perf.data."))
  {
    BasenameIs(image.path);
    OneLastPart(image.path, name, Basename(image.path));
  }

  lemma OneLastPart(path: string, a: string, b: string)
    requires LastPart(path, a) && LastPart(path, b)
    ensures a == b
  {
    PartSuffix(path, a);
    PartSuffix(path, b);
    NotLonger(path, a, b);
    NotLonger(path, b, a);
  }

  lemma NotLonger(path: string, a: string, b: string)
    requires LastPart(path, b) && |a| <= |path| && path[|path| - |a|..] == a
    requires |a| < |path| ==> path[|path| - |a| - 1] == '/'
    ensures |b| <= |a|
  {
    PartSuffix(path, b);
  }

  lemma PartSuffix(path: string, name: string)
    requires LastPart(path, name)
    ensures |name| <= |path| && path[|path| - |name|..] == name
    ensures |name| < |path| ==> path[|path| - |name| - 1] == '/'
    ensures forall i :: |path| - |name| <= i < |path| ==> path[i] != '/'
  {
    assert path[|path| - |name|..] == name;
    assert forall i :: |path| - |name| <= i < |path| ==> path[i] == name[i - (|path| - |name|)];
  }

  // ----- Insertion ---------------------------------------------------------

  predicate Displaced(row: Mapping, m: Mapping) { row.pid == m.pid && row.Overlaps(m) }

  // The part of an overlapped row before the new map, and the part after it.
  function Before(row: Mapping, m: Mapping): Mapping
    requires row.start < m.start
  {
    row.(len := m.start - row.start)
  }

  function After(row: Mapping, m: Mapping): Mapping
    requires row.start < m.End() < row.End()
  {
    row.(start := m.End(), len := row.End() - m.End(), pgoff := WrapAdd(row.pgoff, m.End() - row.start))
  }

  function Split(row: Mapping, m: Mapping): seq<Mapping>
    requires row.Overlaps(m)
  {
    (if row.start < m.start then [Before(row, m)] else []) +
    (if row.End() > m.End() then [After(row, m)] else [])
  }

  function Survivors(rows: seq<Mapping>, m: Mapping): seq<Mapping> {
    if rows == [] then []
    else (if Displaced(rows[0], m) then [] else [rows[0]]) + Survivors(rows[1..], m)
  }

  function Fragments(rows: seq<Mapping>, m: Mapping): seq<Mapping> {
    if rows == [] then []
    else (if Displaced(rows[0], m) then Split(rows[0], m) else []) + Fragments(rows[1..], m)
  }

  // Survivors keep their order, fragments follow in old insertion order, the new map is last.
  function InsertRow(rows: seq<Mapping>, m: Mapping): seq<Mapping> {
    Survivors(rows, m) + Fragments(rows, m) + [m]
  }

  // ----- Exec and fork -----------------------------------------------------

  function RowsOfPid(rows: seq<Mapping>, pid: u32): seq<Mapping> {
    if rows == [] then []
    else (if rows[0].pid == pid then [rows[0]] else []) + RowsOfPid(rows[1..], pid)
  }

  function RemovePid(rows: seq<Mapping>, pid: u32): seq<Mapping> {
    if rows == [] then []
    else (if rows[0].pid == pid then [] else [rows[0]]) + RemovePid(rows[1..], pid)
  }

  function Relabel(rows: seq<Mapping>, pid: u32): (r: seq<Mapping>)
    ensures |r| == |rows|
    ensures forall i :: 0 <= i < |rows| ==> r[i] == rows[i].(pid := pid)
  {
    seq(|rows|, i requires 0 <= i < |rows| => rows[i].(pid := pid))
  }

  function ForkRows(rows: seq<Mapping>, parent: u32, child: u32): seq<Mapping> {
    if parent == child then rows
    else RemovePid(rows, child) + Relabel(RowsOfPid(rows, parent), child)
  }

  datatype Event =
    | Mmap(mapping: Mapping)
    | Fork(parent: u32, child: u32)
    | Release(pid: u32)

  function ApplyEvent(rows: seq<Mapping>, event: Event): seq<Mapping> {
    match event
    case Mmap(m) => InsertRow(rows, m)
    case Fork(parent, child) => ForkRows(rows, parent, child)
    case Release(pid) => RemovePid(rows, pid)
  }

  function ApplyEvents(rows: seq<Mapping>, events: seq<Event>): seq<Mapping> {
    if events == [] then rows
    else ApplyEvent(ApplyEvents(rows, events[..|events| - 1]), events[|events| - 1])
  }

  // ----- Lookup ------------------------------------------------------------

  // The newest row of the process that contains the address.
  function Lookup(rows: seq<Mapping>, pid: u32, ip: u64): (r: Option<Mapping>)
    ensures r.Some? ==> r.value in rows && r.value.pid == pid && r.value.Contains(ip)
    ensures r.None? ==> forall i :: 0 <= i < |rows| && rows[i].pid == pid ==> !rows[i].Contains(ip)
  {
    if rows == [] then None
    else
      var last := rows[|rows| - 1];
      if last.pid == pid && last.Contains(ip) then Some(last)
      else Lookup(rows[..|rows| - 1], pid, ip)
  }

  datatype MappedFrame = MappedFrame(mapping: Mapping, relative: u64)

  function FrameOf(m: Mapping, ip: u64): MappedFrame { MappedFrame(m, m.Relative(ip)) }

  // A process map beats a global one that does not start after it.
  function Prefer(user: Option<Mapping>, global: Option<Mapping>): Option<Mapping> {
    if user.Some? && global.Some? then
      if user.value.start >= global.value.start then user else global
    else if user.Some? then user
    else global
  }

  // The plain scan every cached lookup must agree with.
  function ScanMapping(rows: seq<Mapping>, pid: u32, ip: u64): Option<Mapping> {
    if pid == GLOBAL_PID then Lookup(rows, pid, ip)
    else Prefer(Lookup(rows, pid, ip), Lookup(rows, GLOBAL_PID, ip))
  }

  function ScanFrame(rows: seq<Mapping>, pid: u32, ip: u64): Option<MappedFrame> {
    match ScanMapping(rows, pid, ip)
    case Some(m) => Some(FrameOf(m, ip))
    case None => None
  }

  function ScanUserFrame(rows: seq<Mapping>, pid: u32, ip: u64): Option<MappedFrame> {
    match Lookup(rows, pid, ip)
    case Some(m) => if m.image.cpumode == User then Some(FrameOf(m, ip)) else None
    case None => None
  }

  predicate HasRow(rows: seq<Mapping>, pid: u32) {
    exists k :: 0 <= k < |rows| && rows[k].pid == pid
  }

  predicate HasExecutableRow(rows: seq<Mapping>, pid: u32) {
    exists k :: 0 <= k < |rows| && rows[k].pid == pid && rows[k].image.MayExecute()
  }

  // ----- Disjointness ------------------------------------------------------

  ghost predicate Disjoint(rows: seq<Mapping>) {
    forall i, j :: 0 <= i < j < |rows| && rows[i].pid == rows[j].pid ==> !rows[i].Overlaps(rows[j])
  }

  // With disjoint rows any containing row is the one the scan finds.
  lemma {:induction false} OnlyHit(rows: seq<Mapping>, pid: u32, ip: u64, k: nat)
    requires Disjoint(rows) && k < |rows|
    requires rows[k].pid == pid && rows[k].Contains(ip)
    ensures Lookup(rows, pid, ip) == Some(rows[k])
  {
    var n := |rows| - 1;
    if k < n {
      assert !rows[k].Overlaps(rows[n]) || rows[n].pid != pid;
      OnlyHit(rows[..n], pid, ip, k);
    }
  }

  lemma {:induction false} LookupConcat(a: seq<Mapping>, b: seq<Mapping>, pid: u32, ip: u64)
    ensures Lookup(a + b, pid, ip) ==
            if Lookup(b, pid, ip).Some? then Lookup(b, pid, ip) else Lookup(a, pid, ip)
  {
    if b == [] {
      assert a + b == a;
    } else {
      var n := |b| - 1;
      assert (a + b)[..|a| + n] == a + b[..n];
      assert (a + b)[|a| + n] == b[n];
      LookupConcat(a, b[..n], pid, ip);
    }
  }
}
