// Publishing a loaded kernel module, on the flat list: section maps join at the end without
// any overlap fix, and after every accepted symbol table the kernel maps are clipped in order.
module KernelRows {
  import opened Basics
  import opened MappingRows

  datatype SectionMap = SectionMap(section: string, start: u64, size: u64, fileOffset: u64, lookupSection: u32)

  datatype ModuleMetadata = ModuleMetadata(
    textOffset: Option<u64>,
    maps: seq<SectionMap>,
    tableMapCounts: seq<nat>,
    lookupProjection: Option<u64>,
    hasSymbols: bool,
    relocatable: bool)
  {
    // How many sections the first n tables account for.
    function CountAfter(n: nat): nat
      requires n <= |tableMapCounts|
    {
      if n == 0 then 0 else tableMapCounts[n - 1]
    }

    // The loader counts section maps table by table.
    predicate WellCounted() {
      forall n {:trigger CountAfter(n)} :: 0 <= n < |tableMapCounts| ==> CountAfter(n) <= CountAfter(n + 1) <= |maps|
    }
  }

  type LoadedModule = m: ModuleMetadata | m.WellCounted() witness ModuleMetadata(None, [], [], None, false, false)

  // A module to publish: its own map, its object's short name, and what its symbols said.
  datatype Module = Module(parent: Mapping, shortName: string, metadata: ModuleMetadata)

  datatype NativeDso = NativeDso(shortName: string, loaded: bool)

  // The rows and the registered objects that they show.
  datatype State = State(rows: seq<Mapping>, dsos: seq<NativeDso>)

  // ----- Clipping ----------------------------------------------------------

  // Where the next kernel map starts decides how long this one may be.
  function Clip(m: Mapping, next: Option<u64>): (c: Mapping)
    ensures c == m.(len := c.len)
  {
    match next
    case Some(start) => if m.End() == 0 || m.End() > start then m.(len := Max(start - m.start, 0)) else m
    case None => if m.End() == 0 then m.(len := U64_MAX - m.start) else m
  }

  predicate InKernel(m: Mapping, pid: u32) { m.pid == pid && m.image.cpumode == Kernel }

  // The order of a bucket: by start, and by insertion among equal starts.
  predicate Follows(rows: seq<Mapping>, i: nat, j: nat)
    requires i < |rows| && j < |rows|
  {
    rows[i].start < rows[j].start || (rows[i].start == rows[j].start && i < j)
  }

  predicate KernelAfter(rows: seq<Mapping>, pid: u32, i: nat, j: nat) {
    i < |rows| && j < |rows| && InKernel(rows[j], pid) && Follows(rows, i, j)
  }

  // The least start of a kernel row that follows row i, among the first n rows.
  function LeastAfter(rows: seq<Mapping>, pid: u32, i: nat, n: nat): Option<u64>
    requires i < |rows| && n <= |rows|
  {
    if n == 0 then None
    else
      var rest := LeastAfter(rows, pid, i, n - 1);
      if KernelAfter(rows, pid, i, n - 1) && (rest.None? || rows[n - 1].start < rest.value) then Some(rows[n - 1].start)
      else rest
  }

  function NextStart(rows: seq<Mapping>, pid: u32, i: nat): Option<u64>
    requires i < |rows|
  {
    LeastAfter(rows, pid, i, |rows|)
  }

  function ClipRow(rows: seq<Mapping>, pid: u32, i: nat): Mapping
    requires i < |rows|
  {
    if InKernel(rows[i], pid) then Clip(rows[i], NextStart(rows, pid, i)) else rows[i]
  }

  function ClipRows(rows: seq<Mapping>, pid: u32): (r: seq<Mapping>)
    ensures |r| == |rows| && forall i {:trigger r[i]} :: 0 <= i < |rows| ==> r[i] == ClipRow(rows, pid, i)
  {
    seq(|rows|, i requires 0 <= i < |rows| => ClipRow(rows, pid, i))
  }

  lemma {:induction false} LeastAfterIs(rows: seq<Mapping>, pid: u32, i: nat, n: nat)
    requires i < |rows| && n <= |rows|
    ensures var least := LeastAfter(rows, pid, i, n);
            && (least.Some? ==> exists j: nat {:trigger KernelAfter(rows, pid, i, j)} ::
                  KernelAfter(rows, pid, i, j) && rows[j].start == least.value)
            && (forall j: nat {:trigger KernelAfter(rows, pid, i, j)} ::
                  j < n && KernelAfter(rows, pid, i, j) ==> least.Some? && least.value <= rows[j].start)
  {
    if n > 0 { LeastAfterIs(rows, pid, i, n - 1); }
  }

  // The next start is that of some following kernel row, and none starts before it.
  lemma NextStartIs(rows: seq<Mapping>, pid: u32, i: nat, start: u64)
    requires i < |rows|
    requires exists j: nat {:trigger KernelAfter(rows, pid, i, j)} ::
               KernelAfter(rows, pid, i, j) && rows[j].start == start
    requires forall j: nat {:trigger KernelAfter(rows, pid, i, j)} ::
               KernelAfter(rows, pid, i, j) ==> start <= rows[j].start
    ensures NextStart(rows, pid, i) == Some(start)
  {
    LeastAfterIs(rows, pid, i, |rows|);
  }

  lemma NoNextStart(rows: seq<Mapping>, pid: u32, i: nat)
    requires i < |rows|
    requires forall j: nat {:trigger KernelAfter(rows, pid, i, j)} :: !KernelAfter(rows, pid, i, j)
    ensures NextStart(rows, pid, i) == None
  {
    LeastAfterIs(rows, pid, i, |rows|);
  }

  // Every kernel row of the process ends at or before each that follows it starts.
  ghost predicate Before(rows: seq<Mapping>, pid: u32, i: nat, j: nat) {
    i < |rows| && InKernel(rows[i], pid) && KernelAfter(rows, pid, i, j) ==> rows[i].End() <= rows[j].start
  }

  ghost predicate LaidOut(rows: seq<Mapping>, pid: u32) {
    forall i: nat, j: nat {:trigger Before(rows, pid, i, j)} :: Before(rows, pid, i, j)
  }

  lemma ClipLaysOut(rows: seq<Mapping>, pid: u32)
    ensures LaidOut(ClipRows(rows, pid), pid)
  {
    var clipped := ClipRows(rows, pid);
    forall i: nat, j: nat ensures Before(clipped, pid, i, j) {
      if i < |rows| && j < |rows| {
        LeastAfterIs(rows, pid, i, |rows|);
        assert KernelAfter(clipped, pid, i, j) == KernelAfter(rows, pid, i, j) by { ClippedPlace(rows, pid, i, j); }
        assert clipped[i] == ClipRow(rows, pid, i) && clipped[j].start == rows[j].start;
      }
    }
  }

  lemma ClippedPlace(rows: seq<Mapping>, pid: u32, i: nat, j: nat)
    requires i < |rows| && j < |rows|
    ensures KernelAfter(ClipRows(rows, pid), pid, i, j) == KernelAfter(rows, pid, i, j)
  {
    var clipped := ClipRows(rows, pid);
    assert clipped[i] == ClipRow(rows, pid, i) && clipped[j] == ClipRow(rows, pid, j);
  }

  // A kernel row that follows starts at or before the address.
  ghost predicate StartsBy(rows: seq<Mapping>, pid: u32, i: nat, ip: u64) {
    exists j: nat {:trigger KernelAfter(rows, pid, i, j)} :: KernelAfter(rows, pid, i, j) && rows[j].start <= ip
  }

  // Clipping takes from a row exactly the addresses from the next start on, and gives a row that
  // ended at zero all those before it.
  lemma ClipContains(rows: seq<Mapping>, pid: u32, i: nat, ip: u64)
    requires i < |rows| && InKernel(rows[i], pid)
    ensures ClipRows(rows, pid)[i].Contains(ip)
            <==> rows[i].start <= ip < U64_MAX && !StartsBy(rows, pid, i, ip)
                 && (rows[i].End() == 0 || ip < rows[i].End())
  {
    assert ClipRows(rows, pid)[i] == ClipRow(rows, pid, i);
    LeastAfterIs(rows, pid, i, |rows|);
    if StartsBy(rows, pid, i, ip) {
      var j: nat :| KernelAfter(rows, pid, i, j) && rows[j].start <= ip;
      assert NextStart(rows, pid, i).value <= ip;
    }
  }

  // What clipping does, row by row: only the lengths of the process's kernel rows change, and
  // such a row covers an address exactly when the row before did, or ended at zero, and no kernel
  // row that follows starts at or before the address.
  ghost predicate ClippedAddress(before: seq<Mapping>, after: seq<Mapping>, pid: u32, i: nat, ip: u64)
    requires i < |before| == |after|
  {
    after[i].Contains(ip)
    <==> before[i].start <= ip < U64_MAX && !StartsBy(before, pid, i, ip)
         && (before[i].End() == 0 || ip < before[i].End())
  }

  ghost predicate ClippedExactly(before: seq<Mapping>, after: seq<Mapping>, pid: u32) {
    |before| == |after| && forall i: nat {:trigger after[i]} :: i < |before| ==>
      if InKernel(before[i], pid) then
        && after[i] == before[i].(len := after[i].len)
        && forall ip: u64 {:trigger ClippedAddress(before, after, pid, i, ip)} ::
             ClippedAddress(before, after, pid, i, ip)
      else after[i] == before[i]
  }

  lemma ClipIsExact(rows: seq<Mapping>, pid: u32)
    ensures ClippedExactly(rows, ClipRows(rows, pid), pid)
  {
    var after := ClipRows(rows, pid);
    forall i: nat | i < |rows| && InKernel(rows[i], pid)
      ensures forall ip: u64 {:trigger ClippedAddress(rows, after, pid, i, ip)} ::
                ClippedAddress(rows, after, pid, i, ip)
    {
      forall ip: u64 ensures ClippedAddress(rows, after, pid, i, ip) { ClipContains(rows, pid, i, ip); }
    }
  }

  // ----- Disjointness comes back -------------------------------------------

  ghost predicate Apart(rows: seq<Mapping>, i: nat, j: nat) {
    i < j < |rows| && rows[i].pid == rows[j].pid ==> !rows[i].Overlaps(rows[j])
  }

  ghost predicate ApartFrom(rows: seq<Mapping>, pid: u32) {
    forall i: nat, j: nat {:trigger Apart(rows, i, j)} :: i < |rows| && rows[i].pid != pid ==> Apart(rows, i, j)
  }

  ghost predicate KernelOnly(rows: seq<Mapping>, pid: u32) {
    forall i {:trigger rows[i]} :: 0 <= i < |rows| && rows[i].pid == pid ==> rows[i].image.cpumode == Kernel
  }

  // A bucket holding kernel maps alone is disjoint again once it is laid out.
  lemma LaidOutDisjoint(rows: seq<Mapping>, pid: u32)
    requires LaidOut(rows, pid) && KernelOnly(rows, pid) && ApartFrom(rows, pid)
    ensures Disjoint(rows)
  {
    forall i: nat, j: nat | i < j < |rows| && rows[i].pid == rows[j].pid ensures !rows[i].Overlaps(rows[j]) {
      if rows[i].pid == pid {
        assert Before(rows, pid, i, j) && Before(rows, pid, j, i);
      } else {
        assert Apart(rows, i, j);
      }
    }
  }

  // ----- Adding sections ---------------------------------------------------

  function SectionChild(parent: Mapping, section: SectionMap, name: string, dso: nat,
                        metadata: ModuleMetadata): Mapping {
    Mapping(parent.pid, section.start, section.size, section.fileOffset,
            parent.image.(
              dso := dso,
              display := Some(name),
              buildId := None,
              fileIdentity := None,
              moduleLookup := if metadata.lookupProjection.Some?
                              then Some((metadata.lookupProjection.value, section.lookupSection)) else None,
              relocatable := metadata.relocatable,
              synthetic := true))
  }

  predicate Named(m: Mapping, pid: u32, name: string) { InKernel(m, pid) && m.image.DisplayPath() == name }

  predicate HasName(rows: seq<Mapping>, pid: u32, name: string) {
    rows != [] && (Named(rows[|rows| - 1], pid, name) || HasName(rows[..|rows| - 1], pid, name))
  }

  // A section map is added unless a kernel map of that name is already there.
  function AddSection(s: State, load: Module, k: nat): State
    requires k < |load.metadata.maps|
  {
    var name := load.shortName + load.metadata.maps[k].section;
    if HasName(s.rows, load.parent.pid, name) then s
    else State(s.rows + [SectionChild(load.parent, load.metadata.maps[k], name, |s.dsos|, load.metadata)],
               s.dsos + [NativeDso(name, true)])
  }

  function AddSections(s: State, load: Module, published: nat, count: nat): (r: State)
    requires count <= |load.metadata.maps|
    ensures |s.dsos| <= |r.dsos|
  {
    if count <= published then s
    else AddSection(AddSections(s, load, published, count - 1), load, count - 1)
  }

  // Every accepted table clips, even when it adds nothing.
  function AcceptTables(s: State, load: Module, n: nat): (r: State)
    requires load.metadata.WellCounted() && n <= |load.metadata.tableMapCounts|
    ensures |s.dsos| <= |r.dsos|
  {
    if n == 0 then s
    else
      var before := AcceptTables(s, load, n - 1);
      assert load.metadata.CountAfter(n - 1) <= load.metadata.CountAfter(n) <= |load.metadata.maps|;
      var added := AddSections(before, load, load.metadata.CountAfter(n - 1), load.metadata.CountAfter(n));
      added.(rows := ClipRows(added.rows, load.parent.pid))
  }

  // A module is loaded once, for good, even when it turns out to have no symbols.
  function Claimed(dsos: seq<NativeDso>, dso: nat): seq<NativeDso>
    requires dso < |dsos|
  {
    dsos[dso := dsos[dso].(loaded := true)]
  }

  function Publish(s: State, i: nat, metadata: ModuleMetadata): State
    requires metadata.WellCounted() && i < |s.rows| && s.rows[i].image.dso < |s.dsos|
  {
    var parent := s.rows[i];
    var dso := parent.image.dso;
    if s.dsos[dso].loaded then s
    else if !metadata.hasSymbols then State(s.rows, Claimed(s.dsos, dso))
    else
      AcceptTables(State(Moved(s.rows, i, metadata.textOffset), Claimed(s.dsos, dso)),
                   Module(parent, s.dsos[dso].shortName, metadata),
                   |metadata.tableMapCounts|)
  }

  // The text section tells where the module's own map lies in its file.
  function Moved(rows: seq<Mapping>, i: nat, textOffset: Option<u64>): seq<Mapping>
    requires i < |rows|
  {
    if textOffset.Some? then rows[i := rows[i].(pgoff := textOffset.value)] else rows
  }

  // ----- What publication adds, and what it leaves alone -------------------

  // The row keeps its place, start and image; only a kernel row of the process changes length,
  // and it grows only if its end was zero.
  ghost predicate Kept(before: Mapping, after: Mapping, pid: u32) {
    && after == before.(len := after.len)
    && (!InKernel(before, pid) ==> after == before)
    && (after.End() <= before.End() || before.End() == 0)
  }

  // A map emptied at address zero stays empty: another kernel map starts there too.
  ghost predicate StaysEmpty(rows: seq<Mapping>, pid: u32, i: nat, end: u64) {
    i < |rows| && rows[i].End() == 0 && end > 0 ==>
      exists j: nat {:trigger KernelAfter(rows, pid, i, j)} :: KernelAfter(rows, pid, i, j) && rows[j].start == 0
  }

  // Every address of the whole range is still there, until a kernel row that follows starts.
  ghost predicate StillThere(whole: Mapping, rows: seq<Mapping>, pid: u32, i: nat, ip: u64) {
    whole.Contains(ip) && !StartsBy(rows, pid, i, ip) ==> i < |rows| && rows[i].Contains(ip)
  }

  ghost predicate CutOnlyByNext(whole: Mapping, rows: seq<Mapping>, pid: u32, i: nat) {
    forall ip: u64 {:trigger StillThere(whole, rows, pid, i, ip)} :: StillThere(whole, rows, pid, i, ip)
  }

  // What is left of a row is what clipping leaves of it.
  ghost predicate Stands(whole: Mapping, rows: seq<Mapping>, pid: u32, i: nat) {
    && i < |rows| && Kept(whole, rows[i], pid) && StaysEmpty(rows, pid, i, whole.End())
    && CutOnlyByNext(whole, rows, pid, i)
  }

  ghost predicate KeptAt(before: seq<Mapping>, after: seq<Mapping>, pid: u32, i: nat) {
    i < |before| ==> Stands(before[i], after, pid, i)
  }

  ghost predicate Grown(before: seq<Mapping>, after: seq<Mapping>, pid: u32) {
    |before| <= |after| && forall i: nat {:trigger KeptAt(before, after, pid, i)} :: KeptAt(before, after, pid, i)
  }

  // The row of a section, before any clipping.
  function ChildRow(load: Module, k: nat, dso: nat): Mapping
    requires k < |load.metadata.maps|
  {
    SectionChild(load.parent, load.metadata.maps[k], load.shortName + load.metadata.maps[k].section, dso, load.metadata)
  }

  // A new row is the child of some section, up to clipping: it shows the section's part of the
  // file at the section's address, under the module's short name and the section's, and keeps the
  // path and the protection of the module's own map.
  ghost predicate ChildOf(m: Mapping, load: Module, k: nat, dsos: nat) {
    && k < |load.metadata.maps| && m.image.dso < dsos
    && var whole := ChildRow(load, k, m.image.dso);
    && m == whole.(len := m.len) && ShowsSection(whole, load, load.metadata.maps[k])
  }

  ghost predicate ShowsSection(m: Mapping, load: Module, section: SectionMap) {
    && m.pid == load.parent.pid && m.start == section.start && m.len == section.size && m.pgoff == section.fileOffset
    && m.image.display == Some(load.shortName + section.section)
    && m.image.path == load.parent.image.path && m.image.prot == load.parent.image.prot
    && m.image.cpumode == load.parent.image.cpumode && m.image.synthetic
    && m.image.buildId == None && m.image.fileIdentity == None
    && m.image.moduleLookup.Some? == load.metadata.lookupProjection.Some?
    && (m.image.moduleLookup.Some? ==>
          m.image.moduleLookup.value == (load.metadata.lookupProjection.value, section.lookupSection))
    && m.image.relocatable == load.metadata.relocatable
  }

  ghost predicate AddedAt(before: seq<Mapping>, after: State, load: Module, count: nat, i: nat) {
    |before| <= i < |after.rows| ==>
      exists k {:trigger ChildOf(after.rows[i], load, k, |after.dsos|)} ::
        0 <= k < count && ChildOf(after.rows[i], load, k, |after.dsos|)
        && Stands(ChildRow(load, k, after.rows[i].image.dso), after.rows, load.parent.pid, i)
  }

  ghost predicate Added(before: seq<Mapping>, after: State, load: Module, count: nat) {
    forall i: nat {:trigger AddedAt(before, after, load, count, i)} ::
      AddedAt(before, after, load, count, i)
  }

  // No name is given twice: a new row's name belongs to no kernel row before it.
  ghost predicate FreshName(before: seq<Mapping>, rows: seq<Mapping>, pid: u32, i: nat) {
    |before| <= i < |rows| ==> !HasName(rows[..i], pid, rows[i].image.DisplayPath())
  }

  ghost predicate OncePerName(before: seq<Mapping>, rows: seq<Mapping>, pid: u32) {
    forall i: nat {:trigger FreshName(before, rows, pid, i)} :: FreshName(before, rows, pid, i)
  }

  ghost predicate SectionThere(rows: seq<Mapping>, load: Module, k: nat) {
    k < |load.metadata.maps| ==> HasName(rows, load.parent.pid, load.shortName + load.metadata.maps[k].section)
  }

  ghost predicate SectionsThere(rows: seq<Mapping>, load: Module, count: nat) {
    forall k: nat {:trigger SectionThere(rows, load, k)} :: k < count ==> SectionThere(rows, load, k)
  }

  // Publication so far: what was there is kept, and what was added is accounted for.
  ghost predicate Publishing(before: seq<Mapping>, s: State, load: Module, count: nat) {
    && Grown(before, s.rows, load.parent.pid)
    && Added(before, s, load, count)
    && OncePerName(before, s.rows, load.parent.pid)
    && SectionsThere(s.rows, load, count)
  }

  lemma HasNameMore(rows: seq<Mapping>, x: Mapping, pid: u32, name: string)
    ensures HasName(rows + [x], pid, name) <==> Named(x, pid, name) || HasName(rows, pid, name)
  {
    assert (rows + [x])[..|rows|] == rows;
  }

  ghost predicate SameNameAt(a: seq<Mapping>, b: seq<Mapping>, i: nat) {
    i < |a| && i < |b| ==> a[i] == b[i].(len := a[i].len)
  }

  lemma {:induction false} HasNameSame(a: seq<Mapping>, b: seq<Mapping>, pid: u32, name: string)
    requires |a| == |b| && forall i: nat {:trigger SameNameAt(a, b, i)} :: SameNameAt(a, b, i)
    ensures HasName(a, pid, name) <==> HasName(b, pid, name)
  {
    if a != [] {
      var n := |a| - 1;
      assert SameNameAt(a, b, n);
      forall i: nat ensures SameNameAt(a[..n], b[..n], i) { assert SameNameAt(a, b, i); }
      HasNameSame(a[..n], b[..n], pid, name);
    }
  }

  lemma ClipKeepsNames(rows: seq<Mapping>, pid: u32, n: nat, name: string)
    requires n <= |rows|
    ensures HasName(ClipRows(rows, pid)[..n], pid, name) <==> HasName(rows[..n], pid, name)
  {
    var a, b := ClipRows(rows, pid)[..n], rows[..n];
    forall i: nat ensures SameNameAt(a, b, i) {
      if i < n { assert ClipRows(rows, pid)[i] == ClipRow(rows, pid, i); }
    }
    HasNameSame(a, b, pid, name);
  }

  // ----- Appending a child -------------------------------------------------

  lemma GrownAppend(before: seq<Mapping>, rows: seq<Mapping>, pid: u32, x: Mapping)
    requires Grown(before, rows, pid)
    ensures Grown(before, rows + [x], pid)
  {
    forall i: nat ensures KeptAt(before, rows + [x], pid, i) {
      assert KeptAt(before, rows, pid, i);
      if i < |before| { StandsAppend(before[i], rows, pid, i, x); }
    }
  }

  lemma StandsAppend(whole: Mapping, rows: seq<Mapping>, pid: u32, i: nat, x: Mapping)
    requires Stands(whole, rows, pid, i)
    ensures Stands(whole, rows + [x], pid, i)
  {
    var after := rows + [x];
    if rows[i].End() == 0 && whole.End() > 0 {
      var j: nat :| KernelAfter(rows, pid, i, j) && rows[j].start == 0;
      assert KernelAfter(after, pid, i, j) && after[j].start == 0;
    }
    CutAppend(whole, rows, pid, i, x);
  }

  lemma CutAppend(whole: Mapping, rows: seq<Mapping>, pid: u32, i: nat, x: Mapping)
    requires i < |rows| && CutOnlyByNext(whole, rows, pid, i)
    ensures CutOnlyByNext(whole, rows + [x], pid, i)
  {
    forall ip: u64 ensures StillThere(whole, rows + [x], pid, i, ip) {
      assert StillThere(whole, rows, pid, i, ip);
      if StartsBy(rows, pid, i, ip) {
        var j: nat :| KernelAfter(rows, pid, i, j) && rows[j].start <= ip;
        assert KernelAfter(rows + [x], pid, i, j);
      }
    }
  }

  lemma CutClip(whole: Mapping, rows: seq<Mapping>, pid: u32, i: nat)
    requires i < |rows| && CutOnlyByNext(whole, rows, pid, i)
    ensures CutOnlyByNext(whole, ClipRows(rows, pid), pid, i)
  {
    var after := ClipRows(rows, pid);
    assert after[i] == ClipRow(rows, pid, i);
    forall ip: u64 ensures StillThere(whole, after, pid, i, ip) {
      assert StillThere(whole, rows, pid, i, ip);
      StartsStill(rows, pid, i, ip);
      if InKernel(rows[i], pid) { ClipContains(rows, pid, i, ip); }
    }
  }

  lemma StartsStill(rows: seq<Mapping>, pid: u32, i: nat, ip: u64)
    requires i < |rows|
    ensures StartsBy(ClipRows(rows, pid), pid, i, ip) <==> StartsBy(rows, pid, i, ip)
  {
    var after := ClipRows(rows, pid);
    forall j: nat | j < |rows| ensures KernelAfter(after, pid, i, j) <==> KernelAfter(rows, pid, i, j) {
      ClippedPlace(rows, pid, i, j);
    }
    forall j: nat | j < |rows| ensures after[j].start == rows[j].start { assert after[j] == ClipRow(rows, pid, j); }
  }

  lemma PublishingMore(before: seq<Mapping>, s: State, load: Module, k: nat)
    requires Publishing(before, s, load, k) && k < |load.metadata.maps| && load.parent.image.cpumode == Kernel
    ensures Publishing(before, AddSection(s, load, k), load, k + 1)
  {
    var name, after := load.shortName + load.metadata.maps[k].section, AddSection(s, load, k);
    var x := SectionChild(load.parent, load.metadata.maps[k], name, |s.dsos|, load.metadata);
    HasNameMore(s.rows, x, load.parent.pid, name);
    GrownAppend(before, s.rows, load.parent.pid, x);
    var next := k + 1;
    forall i: nat ensures AddedAt(before, after, load, next, i) {
      AddedMore(before, s, load, k, i);
    }
    forall i: nat ensures FreshName(before, after.rows, load.parent.pid, i) {
      assert FreshName(before, s.rows, load.parent.pid, i);
      if |before| <= i < |after.rows| { assert after.rows[..i] == s.rows[..i] && s.rows[..|s.rows|] == s.rows; }
    }
    forall j: nat | j < k + 1 ensures SectionThere(after.rows, load, j) {
      if j < k {
        assert SectionThere(s.rows, load, j);
        HasNameMore(s.rows, x, load.parent.pid, load.shortName + load.metadata.maps[j].section);
      }
    }
  }

  lemma AddedMore(before: seq<Mapping>, s: State, load: Module, k: nat, i: nat)
    requires Added(before, s, load, k) && k < |load.metadata.maps|
    ensures AddedAt(before, AddSection(s, load, k), load, k + 1, i)
  {
    var after := AddSection(s, load, k);
    assert AddedAt(before, s, load, k, i);
    if |before| <= i < |s.rows| {
      var j :| 0 <= j < k && ChildOf(s.rows[i], load, j, |s.dsos|)
               && Stands(ChildRow(load, j, s.rows[i].image.dso), s.rows, load.parent.pid, i);
      assert ChildOf(after.rows[i], load, j, |after.dsos|);
      if |after.rows| > |s.rows| {
        StandsAppend(ChildRow(load, j, s.rows[i].image.dso), s.rows, load.parent.pid, i, after.rows[|s.rows|]);
      }
    } else if |before| <= i < |after.rows| {
      assert ChildOf(after.rows[i], load, k, |after.dsos|);
    }
  }

  lemma {:induction false} SectionsPublish(before: seq<Mapping>, s: State, load: Module, published: nat, count: nat)
    requires Publishing(before, s, load, published)
    requires published <= count <= |load.metadata.maps| && load.parent.image.cpumode == Kernel
    ensures Publishing(before, AddSections(s, load, published, count), load, count)
  {
    if published < count {
      SectionsPublish(before, s, load, published, count - 1);
      PublishingMore(before, AddSections(s, load, published, count - 1), load, count - 1);
    }
  }

  // ----- Clipping again ----------------------------------------------------

  // Clipping shrinks what does not end at zero.
  lemma ClipShrinks(rows: seq<Mapping>, pid: u32, i: nat)
    requires i < |rows| && rows[i].End() > 0
    ensures ClipRow(rows, pid, i).End() <= rows[i].End()
    ensures ClipRow(rows, pid, i).End() == 0 ==> NextStart(rows, pid, i) == Some(0)
  {
    LeastAfterIs(rows, pid, i, |rows|);
  }

  lemma StandsClip(whole: Mapping, rows: seq<Mapping>, pid: u32, i: nat)
    requires Stands(whole, rows, pid, i)
    ensures Stands(whole, ClipRows(rows, pid), pid, i)
  {
    var after := ClipRows(rows, pid);
    assert after[i] == ClipRow(rows, pid, i);
    LeastAfterIs(rows, pid, i, |rows|);
    if rows[i].End() > 0 { ClipShrinks(rows, pid, i); }
    CutClip(whole, rows, pid, i);
    if after[i].End() == 0 && whole.End() > 0 {
      var j: nat :| KernelAfter(rows, pid, i, j) && rows[j].start == 0;
      ClippedPlace(rows, pid, i, j);
      assert after[j] == ClipRow(rows, pid, j);
    }
  }

  lemma AddedClip(before: seq<Mapping>, s: State, load: Module, count: nat, i: nat)
    requires AddedAt(before, s, load, count, i) && |before| <= i < |s.rows|
    ensures AddedAt(before, s.(rows := ClipRows(s.rows, load.parent.pid)), load, count, i)
  {
    var pid, after := load.parent.pid, ClipRows(s.rows, load.parent.pid);
    var k :| 0 <= k < count && ChildOf(s.rows[i], load, k, |s.dsos|)
             && Stands(ChildRow(load, k, s.rows[i].image.dso), s.rows, pid, i);
    assert after[i] == ClipRow(s.rows, pid, i);
    StandsClip(ChildRow(load, k, s.rows[i].image.dso), s.rows, pid, i);
    assert ChildOf(after[i], load, k, |s.dsos|);
  }

  lemma PublishingClip(before: seq<Mapping>, s: State, load: Module, count: nat)
    requires Publishing(before, s, load, count)
    ensures Publishing(before, s.(rows := ClipRows(s.rows, load.parent.pid)), load, count)
  {
    var pid, after := load.parent.pid, s.(rows := ClipRows(s.rows, load.parent.pid));
    forall i: nat ensures KeptAt(before, after.rows, pid, i) {
      assert KeptAt(before, s.rows, pid, i);
      if i < |before| { StandsClip(before[i], s.rows, pid, i); }
    }
    forall i: nat ensures AddedAt(before, after, load, count, i) {
      assert AddedAt(before, s, load, count, i);
      if |before| <= i < |s.rows| {
        AddedClip(before, s, load, count, i);
      }
    }
    forall i: nat ensures FreshName(before, after.rows, pid, i) {
      assert FreshName(before, s.rows, pid, i);
      if |before| <= i < |s.rows| {
        assert after.rows[i] == ClipRow(s.rows, pid, i);
        ClipKeepsNames(s.rows, pid, i, s.rows[i].image.DisplayPath());
      }
    }
    forall k: nat | k < count ensures SectionThere(after.rows, load, k) {
      assert SectionThere(s.rows, load, k);
      if k < |load.metadata.maps| {
        ClipKeepsNames(s.rows, pid, |s.rows|, load.shortName + load.metadata.maps[k].section);
        assert s.rows[..|s.rows|] == s.rows && after.rows[..|s.rows|] == after.rows;
      }
    }
  }

  lemma {:induction false} TablesPublish(s: State, load: Module, n: nat)
    requires load.metadata.WellCounted() && n <= |load.metadata.tableMapCounts| && load.parent.image.cpumode == Kernel
    ensures var after := AcceptTables(s, load, n);
            Publishing(s.rows, after, load, load.metadata.CountAfter(n))
            && (n > 0 ==> LaidOut(after.rows, load.parent.pid))
  {
    if n == 0 {
      forall i: nat ensures KeptAt(s.rows, s.rows, load.parent.pid, i) {
        if i < |s.rows| { forall ip: u64 ensures StillThere(s.rows[i], s.rows, load.parent.pid, i, ip) { } }
      }
      forall i: nat ensures AddedAt(s.rows, s, load, 0, i) { }
      forall i: nat ensures FreshName(s.rows, s.rows, load.parent.pid, i) { }
    } else {
      TablesPublish(s, load, n - 1);
      var before := AcceptTables(s, load, n - 1);
      assert load.metadata.CountAfter(n - 1) <= load.metadata.CountAfter(n) <= |load.metadata.maps|;
      SectionsPublish(s.rows, before, load, load.metadata.CountAfter(n - 1), load.metadata.CountAfter(n));
      var added := AddSections(before, load, load.metadata.CountAfter(n - 1), load.metadata.CountAfter(n));
      PublishingClip(s.rows, added, load, load.metadata.CountAfter(n));
      ClipLaysOut(added.rows, load.parent.pid);
    }
  }

  // Publishing a kernel module: earlier rows keep their places, starts and images, and lose
  // addresses only to kernel rows that follow; every new row is the child of an accepted section,
  // up to clipping; every accepted section has a kernel row of its name, and no name is added
  // twice. A module already loaded or without symbols changes no row.
  ghost predicate Published(s: State, i: nat, metadata: LoadedModule, after: State)
    requires i < |s.rows| && s.rows[i].image.dso < |s.dsos|
  {
    var parent, tables := s.rows[i], |metadata.tableMapCounts|;
    var load := Module(parent, s.dsos[parent.image.dso].shortName, metadata);
    if s.dsos[parent.image.dso].loaded || !metadata.hasSymbols then after.rows == s.rows
    else
      && Publishing(Moved(s.rows, i, metadata.textOffset), after, load, metadata.CountAfter(tables))
      && (tables > 0 ==> LaidOut(after.rows, parent.pid))
  }

  lemma PublishAdds(s: State, i: nat, metadata: LoadedModule)
    requires i < |s.rows| && s.rows[i].image.dso < |s.dsos| && s.rows[i].image.cpumode == Kernel
    ensures Published(s, i, metadata, Publish(s, i, metadata))
  {
    var parent := s.rows[i];
    if !s.dsos[parent.image.dso].loaded && metadata.hasSymbols {
      TablesPublish(State(Moved(s.rows, i, metadata.textOffset), Claimed(s.dsos, parent.image.dso)),
                    Module(parent, s.dsos[parent.image.dso].shortName, metadata), |metadata.tableMapCounts|);
    }
  }

  // With kernel maps alone in the module's bucket, publication leaves all rows disjoint, so
  // every cached lookup keeps agreeing with the plain scan.
  lemma PublishDisjoint(s: State, i: nat, metadata: ModuleMetadata)
    requires metadata.WellCounted() && i < |s.rows| && s.rows[i].image.dso < |s.dsos|
    requires KernelOnly(s.rows, s.rows[i].pid) && Disjoint(s.rows)
    ensures Disjoint(Publish(s, i, metadata).rows) && KernelOnly(Publish(s, i, metadata).rows, s.rows[i].pid)
  {
    var pid, dso, after := s.rows[i].pid, s.rows[i].image.dso, Publish(s, i, metadata);
    if !s.dsos[dso].loaded && metadata.hasSymbols {
      var moved, tables := Moved(s.rows, i, metadata.textOffset), |metadata.tableMapCounts|;
      PublishAdds(s, i, metadata);
      StillKernelOnly(moved, after, Module(s.rows[i], s.dsos[dso].shortName, metadata), metadata.CountAfter(tables));
      MovedDisjoint(s.rows, i, metadata.textOffset);
      OthersApart(moved, after, Module(s.rows[i], s.dsos[dso].shortName, metadata), metadata.CountAfter(tables));
      if tables > 0 { LaidOutDisjoint(after.rows, pid); }
    }
  }

  lemma MovedDisjoint(rows: seq<Mapping>, i: nat, textOffset: Option<u64>)
    requires i < |rows| && Disjoint(rows)
    ensures Disjoint(Moved(rows, i, textOffset))
  {
    var moved := Moved(rows, i, textOffset);
    forall j: nat, k: nat | j < k < |moved| && moved[j].pid == moved[k].pid ensures !moved[j].Overlaps(moved[k]) {
      assert !rows[j].Overlaps(rows[k]);
    }
  }

  lemma StillKernelOnly(before: seq<Mapping>, after: State, load: Module, count: nat)
    requires Publishing(before, after, load, count) && load.parent.image.cpumode == Kernel
    requires KernelOnly(before, load.parent.pid)
    ensures KernelOnly(after.rows, load.parent.pid)
    ensures forall i: nat {:trigger after.rows[i]} ::
              |before| <= i < |after.rows| ==>
                InKernel(after.rows[i], load.parent.pid) && after.rows[i].image.dso < |after.dsos|
  {
    forall i: nat | |before| <= i < |after.rows|
      ensures InKernel(after.rows[i], load.parent.pid) && after.rows[i].image.dso < |after.dsos| {
      assert AddedAt(before, after, load, count, i);
    }
    forall i: nat | i < |after.rows| && after.rows[i].pid == load.parent.pid
      ensures after.rows[i].image.cpumode == Kernel {
      assert KeptAt(before, after.rows, load.parent.pid, i);
      if i < |before| { assert before[i].pid == load.parent.pid; }
    }
  }

  lemma OthersApart(before: seq<Mapping>, after: State, load: Module, count: nat)
    requires Publishing(before, after, load, count) && Disjoint(before) && load.parent.image.cpumode == Kernel
    requires KernelOnly(before, load.parent.pid)
    ensures ApartFrom(after.rows, load.parent.pid)
    ensures after.rows == before ==> Disjoint(after.rows)
  {
    StillKernelOnly(before, after, load, count);
    forall i: nat, j: nat | i < |after.rows| && after.rows[i].pid != load.parent.pid ensures Apart(after.rows, i, j) {
      assert KeptAt(before, after.rows, load.parent.pid, i) && KeptAt(before, after.rows, load.parent.pid, j);
      if i < j < |after.rows| && after.rows[j].pid == after.rows[i].pid {
        assert !before[i].Overlaps(before[j]);
      }
    }
  }
}
