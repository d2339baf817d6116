// Runs that mix mmap, fork and release records with kernel modules published as their frames
// are looked up.
module KernelRuns {
  import opened Basics
  import opened MappingRows
  import opened MappingFacts
  import opened KernelRows
  import opened MappingArenas
  import opened MmapIndexes
  import opened MmapTables
  import opened FrameLookups
  import opened KernelPublications

  const KERNEL_SPACE: u64 := 0xffff_8000_0000_0000
  const CONTEXT_MARKERS: u64 := 0xffff_ffff_ffff_f001

  // A record is replayed, or an address is looked up and what its map needs is loaded; the
  // load may fail.
  datatype Step = Record(event: Event) | Load(pid: u32, ip: u64, loaded: Option<LoadedModule>)

  // ----- On the flat list --------------------------------------------------

  // Where the newest row of the process containing the address stands.
  function LookupIndex(rows: seq<Mapping>, pid: u32, ip: u64): (r: Option<nat>)
    ensures r.Some? ==> r.value < |rows| && Lookup(rows, pid, ip) == Some(rows[r.value])
    ensures r.None? ==> Lookup(rows, pid, ip) == None
  {
    if rows == [] then None
    else if rows[|rows| - 1].pid == pid && rows[|rows| - 1].Contains(ip) then Some(|rows| - 1)
    else LookupIndex(rows[..|rows| - 1], pid, ip)
  }

  function ScanIndex(rows: seq<Mapping>, pid: u32, ip: u64): (r: Option<nat>)
    ensures r.Some? ==> r.value < |rows| && ScanMapping(rows, pid, ip) == Some(rows[r.value])
    ensures r.None? ==> ScanMapping(rows, pid, ip) == None
  {
    var user := LookupIndex(rows, pid, ip);
    if pid == GLOBAL_PID then user
    else
      var global := LookupIndex(rows, GLOBAL_PID, ip);
      if user.Some? && global.Some? then (if rows[user.value].start >= rows[global.value].start then user else global)
      else if user.Some? then user
      else global
  }

  // A recorded kernel module that has not been loaded yet.
  predicate NeedsPublication(m: Mapping, dsos: seq<NativeDso>) {
    && m.image.cpumode == Kernel && m.image.display.Some? && m.image.moduleLookup.None?
    && m.image.dso < |dsos| && !dsos[m.image.dso].loaded
  }

  predicate KernelFrame(m: Mapping, ip: u64) {
    || (m.image.cpumode == Kernel && m.image.display.Some? && !m.image.IsBracketed())
    || (HasPrefix(m.image.DisplayPath(), "[") && KERNEL_SPACE <= m.Relative(ip) < CONTEXT_MARKERS)
  }

  // A failed load counts as loaded for good; a frame outside the kernel has no cursor.
  function LoadAt(s: State, pid: u32, ip: u64, loaded: Option<LoadedModule>): State
  {
    match ScanIndex(s.rows, pid, ip)
    case None => s
    case Some(i) =>
      var m := s.rows[i];
      if !NeedsPublication(m, s.dsos) then s
      else if loaded.None? then State(s.rows, Claimed(s.dsos, m.image.dso))
      else if KernelFrame(m, ip) then Publish(s, i, loaded.value)
      else s
  }

  // A map of a kernel module that was recorded under its own name, and whose module is not loaded.
  ghost predicate Unloaded(m: Mapping, dsos: seq<NativeDso>) {
    && m.image.cpumode == Kernel && m.image.display.Some? && m.image.moduleLookup == None
    && m.image.dso < |dsos| && !dsos[m.image.dso].loaded
  }

  // An address of a module's own map, or one that lands in the kernel's half of the address space,
  // below the context markers, in a map that is shown in brackets.
  ghost predicate InModule(m: Mapping, ip: u64, relative: u64) {
    || (m.image.cpumode == Kernel && m.image.display.Some? && !(m.image.path != "" && m.image.path[0] == '['))
    || ((if m.image.display.Some? then "[" <= m.image.display.value else "[" <= m.image.path)
        && 0xffff_8000_0000_0000 <= relative < 0xffff_ffff_ffff_f001)
  }

  // What a lookup loads: nothing where no module is waiting; a failed load marks the module for
  // good; a successful one publishes it if the frame lies in it.
  lemma LoadIs(s: State, pid: u32, ip: u64, loaded: Option<LoadedModule>, relative: u64)
    ensures ScanMapping(s.rows, pid, ip).None? ==> LoadAt(s, pid, ip, loaded) == s
    ensures ScanMapping(s.rows, pid, ip).Some? && Translates(ScanMapping(s.rows, pid, ip).value, ip, relative) ==>
              var m := ScanMapping(s.rows, pid, ip).value;
              var after := LoadAt(s, pid, ip, loaded);
              if !Unloaded(m, s.dsos) then after == s
              else if loaded.None? then
                after.rows == s.rows && after.dsos == s.dsos[m.image.dso := s.dsos[m.image.dso].(loaded := true)]
              else if InModule(m, ip, relative) then
                exists i: nat :: i < |s.rows| && s.rows[i] == m && after == Publish(s, i, loaded.value)
              else after == s
  {
    var i := ScanIndex(s.rows, pid, ip);
    if i.Some? && Translates(s.rows[i.value], ip, relative) {
      FrameTranslates(s.rows[i.value], ip);
      TranslatesOnce(s.rows[i.value], ip, relative, s.rows[i.value].Relative(ip));
    }
  }

  function ApplyStep(s: State, step: Step): State
  {
    match step
    case Record(event) => s.(rows := ApplyEvent(s.rows, event))
    case Load(pid, ip, loaded) => LoadAt(s, pid, ip, loaded)
  }

  function ApplySteps(s: State, steps: seq<Step>): State
  {
    if steps == [] then s else ApplyStep(ApplySteps(s, steps[..|steps| - 1]), steps[|steps| - 1])
  }

  // ----- Kernel maps kept to their own processes ---------------------------

  // Kernel maps are recorded for these processes alone, nothing else is, and no fork crosses.
  predicate KeepsApart(step: Step, kernelPids: set<u32>, dsos: nat) {
    match step
    case Record(Mmap(m)) => m.image.dso < dsos && (m.pid in kernelPids <==> m.image.cpumode == Kernel)
    case Record(Fork(parent, child)) => parent in kernelPids <==> child in kernelPids
    case _ => true
  }

  ghost predicate InPlace(m: Mapping, kernelPids: set<u32>, dsos: nat) {
    m.image.dso < dsos && (m.pid in kernelPids <==> m.image.cpumode == Kernel)
  }

  ghost predicate Sane(s: State, kernelPids: set<u32>) {
    Disjoint(s.rows) && forall m {:trigger InPlace(m, kernelPids, |s.dsos|)} ::
      m in s.rows ==> InPlace(m, kernelPids, |s.dsos|)
  }

  ghost predicate SameKind(a: Mapping, b: Mapping) { a.pid == b.pid && a.image == b.image }

  lemma InsertKinds(rows: seq<Mapping>, m: Mapping, x: Mapping)
    requires x in InsertRow(rows, m)
    ensures x == m || exists y {:trigger SameKind(x, y)} :: y in rows && SameKind(x, y)
  {
    var s, f := Survivors(rows, m), Fragments(rows, m);
    var i :| 0 <= i < |s + f + [m]| && (s + f + [m])[i] == x;
    if i < |s| {
      var k := SurvivorSource(rows, m, i);
      assert SameKind(x, rows[k]);
    } else if i < |s| + |f| {
      var k := FragmentSource(rows, m, i - |s|);
      assert SameKind(x, rows[k]);
    }
  }

  lemma RecordSane(s: State, event: Event, kernelPids: set<u32>)
    requires Sane(s, kernelPids) && KeepsApart(Record(event), kernelPids, |s.dsos|)
    ensures Sane(s.(rows := ApplyEvent(s.rows, event)), kernelPids)
  {
    var after := ApplyEvent(s.rows, event);
    match event
    case Mmap(m) =>
      InsertKeepsDisjoint(s.rows, m);
      forall x | x in after ensures InPlace(x, kernelPids, |s.dsos|) {
        InsertKinds(s.rows, m, x);
        if x != m {
          var y :| y in s.rows && SameKind(x, y);
          assert InPlace(y, kernelPids, |s.dsos|);
        }
      }
    case Fork(parent, child) =>
      ForkKeepsDisjoint(s.rows, parent, child);
      RemovePidDisjoint(s.rows, child);
      RowsOfPidDisjoint(s.rows, parent);
      forall x | x in after ensures InPlace(x, kernelPids, |s.dsos|) { ForkKinds(s, parent, child, kernelPids, x); }
    case Release(pid) =>
      RemovePidDisjoint(s.rows, pid);
      forall x | x in after ensures InPlace(x, kernelPids, |s.dsos|) { }
  }

  lemma ForkKinds(s: State, parent: u32, child: u32, kernelPids: set<u32>, x: Mapping)
    requires Sane(s, kernelPids) && (parent in kernelPids <==> child in kernelPids)
             && x in ForkRows(s.rows, parent, child)
    ensures InPlace(x, kernelPids, |s.dsos|)
  {
    if parent == child {
      assert x in s.rows;
    } else {
      RemovePidDisjoint(s.rows, child);
      RowsOfPidDisjoint(s.rows, parent);
      var kept, mine := RemovePid(s.rows, child), RowsOfPid(s.rows, parent);
      var i :| 0 <= i < |kept + Relabel(mine, child)| && (kept + Relabel(mine, child))[i] == x;
      var y := if i < |kept| then kept[i] else mine[i - |kept|];
      assert y in s.rows;
      assert InPlace(y, kernelPids, |s.dsos|);
    }
  }

  lemma LoadSane(s: State, pid: u32, ip: u64, loaded: Option<LoadedModule>, kernelPids: set<u32>)
    requires Sane(s, kernelPids)
    ensures Sane(LoadAt(s, pid, ip, loaded), kernelPids) && |s.dsos| <= |LoadAt(s, pid, ip, loaded).dsos|
  {
    var i := ScanIndex(s.rows, pid, ip);
    if i.Some? && NeedsPublication(s.rows[i.value], s.dsos) {
      if loaded.Some? {
        PublishSane(s, i.value, loaded.value, kernelPids);
      } else {
        var after := LoadAt(s, pid, ip, loaded);
        forall m | m in after.rows ensures InPlace(m, kernelPids, |after.dsos|) {
          assert InPlace(m, kernelPids, |s.dsos|);
        }
      }
    }
  }

  lemma PublishSane(s: State, i: nat, metadata: LoadedModule, kernelPids: set<u32>)
    requires Sane(s, kernelPids) && i < |s.rows| && NeedsPublication(s.rows[i], s.dsos)
    ensures Sane(Publish(s, i, metadata), kernelPids) && |s.dsos| <= |Publish(s, i, metadata).dsos|
  {
    var parent, after := s.rows[i], Publish(s, i, metadata);
    assert InPlace(parent, kernelPids, |s.dsos|);
    forall k | 0 <= k < |s.rows| && s.rows[k].pid == parent.pid ensures s.rows[k].image.cpumode == Kernel {
      assert InPlace(s.rows[k], kernelPids, |s.dsos|);
    }
    PublishDisjoint(s, i, metadata);
    if metadata.hasSymbols {
      PublishAdds(s, i, metadata);
      var moved := Moved(s.rows, i, metadata.textOffset);
      var load := Module(parent, s.dsos[parent.image.dso].shortName, metadata);
      MovedKernelOnly(s.rows, i, metadata.textOffset, parent.pid);
      StillKernelOnly(moved, after, load, metadata.CountAfter(|metadata.tableMapCounts|));
      forall m | m in after.rows ensures InPlace(m, kernelPids, |after.dsos|) {
        var k: nat :| k < |after.rows| && after.rows[k] == m;
        assert KeptAt(moved, after.rows, parent.pid, k);
        if k < |moved| { assert InPlace(s.rows[k], kernelPids, |s.dsos|); }
      }
    } else {
      forall m | m in after.rows ensures InPlace(m, kernelPids, |after.dsos|) {
        assert InPlace(m, kernelPids, |s.dsos|);
      }
    }
  }

  lemma MovedKernelOnly(rows: seq<Mapping>, i: nat, textOffset: Option<u64>, pid: u32)
    requires i < |rows| && KernelOnly(rows, pid)
    ensures KernelOnly(Moved(rows, i, textOffset), pid)
  {
    var moved := Moved(rows, i, textOffset);
    forall k | 0 <= k < |moved| && moved[k].pid == pid ensures moved[k].image.cpumode == Kernel {
      assert rows[k].pid == pid;
    }
  }

  // Over every run that keeps kernel maps to their own processes, publications included, rows
  // stay disjoint, so that every cached lookup agrees with the plain scan after every step.
  lemma {:induction false} RunSane(s: State, steps: seq<Step>, kernelPids: set<u32>)
    requires Sane(s, kernelPids) && forall n :: 0 <= n < |steps| ==> KeepsApart(steps[n], kernelPids, |s.dsos|)
    ensures Sane(ApplySteps(s, steps), kernelPids) && |s.dsos| <= |ApplySteps(s, steps).dsos|
  {
    if steps != [] {
      var front, last := steps[..|steps| - 1], steps[|steps| - 1];
      RunSane(s, front, kernelPids);
      var before := ApplySteps(s, front);
      assert KeepsApart(last, kernelPids, |before.dsos|);
      match last
      case Record(event) => RecordSane(before, event, kernelPids);
      case Load(pid, ip, loaded) => LoadSane(before, pid, ip, loaded, kernelPids);
    }
  }

  // ----- In the table ------------------------------------------------------

  lemma {:induction false} OnlyIndex(rows: seq<Mapping>, pid: u32, ip: u64, p: nat)
    requires Disjoint(rows) && p < |rows| && rows[p].pid == pid && rows[p].Contains(ip)
    ensures LookupIndex(rows, pid, ip) == Some(p)
  {
    var n := |rows| - 1;
    if p < n {
      assert !rows[p].Overlaps(rows[n]) || rows[n].pid != pid;
      OnlyIndex(rows[..n], pid, ip, p);
    }
  }

  // The live slot showing the address, and its place in insertion order.
  method FindSlot(table: MmapTable, pid: u32, ip: u64) returns (slot: Option<nat>, ghost place: Option<nat>)
    requires table.Valid() && Disjoint(table.Rows())
    ensures place == LookupIndex(table.Rows(), pid, ip) && slot.Some? == place.Some?
    ensures slot.Some? ==>
              place.value < |table.mappings.view.order| && table.mappings.view.order[place.value] == slot.value
  {
    ghost var v := table.mappings.view;
    var found := table.SearchBucket(pid, table.BucketFor(pid), ip);
    match found
    case Err(_) =>
      MissesLookup(v.order, v.entries, pid, ip);
      return None, None;
    case Ok(index) =>
      assert Placed(v.order, index);
      ghost var p := PlaceOf(v.order, index);
      OnlyIndex(table.Rows(), pid, ip, p);
      return Some(index), Some(p);
  }

  // The map that a frame resolves to, as a slot: the local one unless the global one starts
  // after it.
  method FrameSlot(table: MmapTable, pid: u32, ip: u64) returns (slot: Option<nat>, ghost place: Option<nat>)
    requires table.Valid() && Disjoint(table.Rows())
    ensures place == ScanIndex(table.Rows(), pid, ip) && slot.Some? == place.Some?
    ensures slot.Some? ==>
              place.value < |table.mappings.view.order| && table.mappings.view.order[place.value] == slot.value
  {
    slot, place := FindSlot(table, pid, ip);
    if pid == GLOBAL_PID { return; }
    var globalSlot;
    ghost var globalPlace;
    globalSlot, globalPlace := FindSlot(table, GLOBAL_PID, ip);
    if slot.None? { return globalSlot, globalPlace; }
    if globalSlot.Some? {
      var user := table.mappings.Get(slot.value);
      var global := table.mappings.Get(globalSlot.value);
      if user.value.start < global.value.start { return globalSlot, globalPlace; }
    }
  }

  // What a frame's map needs is loaded, and the module published under a fresh cursor.
  method PrepareKernelCursor(table: MmapTable, dsos: DsoRegistry, pid: u32, ip: u64, loaded: Option<LoadedModule>)
    returns (cursor: Option<KernelMapCursor>)
    requires table.Valid() && Disjoint(table.Rows())
    requires forall m :: m in table.Rows() ==> m.image.dso < |dsos.entries|
    modifies table, table.mappings, dsos
    ensures table.Valid() && old(table.mappings.view.births) <= table.mappings.view.births
    ensures StateOf(table, dsos) == LoadAt(old(StateOf(table, dsos)), pid, ip, loaded)
    ensures cursor.Some? ==> Live(old(table.mappings.view.entries), cursor.value)
  {
    var slot;
    ghost var place;
    slot, place := FrameSlot(table, pid, ip);
    if slot.None? { return None; }
    assert table.Rows()[place.value] in table.Rows();
    var m := table.mappings.Get(slot.value);
    if !NeedsPublication(m.value, dsos.entries) { return None; }
    if loaded.None? {
      dsos.entries := dsos.entries[m.value.image.dso := dsos.entries[m.value.image.dso].(loaded := true)];
      return None;
    }
    if !KernelFrame(m.value, ip) { return None; }
    var id := table.mappings.InsertionId(slot.value);
    cursor := Some(KernelMapCursor(slot.value, id));
    ghost var v := table.mappings.view;
    ghost var at := PublishKernelModule(table, dsos, cursor.value, loaded.value);
    SamePlace(v, at, place.value);
  }

  lemma SamePlace(v: View, p: nat, q: nat)
    requires Ordered(v.order, v.entries) && p < |v.order| && q < |v.order| && v.order[p] == v.order[q]
    ensures p == q
  {
    AllDistinct(v.order, v.entries);
  }

  // A whole run does to the table what it does to the flat list, keeps the representation
  // invariant and disjointness, and forgets no insertion: every cursor taken before or during
  // it still denotes its own map or nothing.
  method ReplaySteps(table: MmapTable, dsos: DsoRegistry, steps: seq<Step>, ghost kernelPids: set<u32>)
    requires table.Valid() && Sane(StateOf(table, dsos), kernelPids)
    requires forall n :: 0 <= n < |steps| ==> KeepsApart(steps[n], kernelPids, |dsos.entries|)
    modifies table, table.mappings, dsos
    ensures table.Valid() && Sane(StateOf(table, dsos), kernelPids)
    ensures StateOf(table, dsos) == ApplySteps(old(StateOf(table, dsos)), steps)
    ensures old(table.mappings.view.births) <= table.mappings.view.births
  {
    ghost var s, births := StateOf(table, dsos), table.mappings.view.births;
    for n := 0 to |steps|
      invariant table.Valid() && births <= table.mappings.view.births
      invariant StateOf(table, dsos) == ApplySteps(s, steps[..n])
    {
      RunSane(s, steps[..n], kernelPids);
      assert steps[..n + 1][..n] == steps[..n];
      ReplayStep(table, dsos, steps[n], kernelPids);
    }
    RunSane(s, steps, kernelPids);
    assert steps[..|steps|] == steps;
  }

  method ReplayStep(table: MmapTable, dsos: DsoRegistry, step: Step, ghost kernelPids: set<u32>)
    requires table.Valid() && Sane(StateOf(table, dsos), kernelPids)
    modifies table, table.mappings, dsos
    ensures table.Valid() && old(table.mappings.view.births) <= table.mappings.view.births
    ensures StateOf(table, dsos) == ApplyStep(old(StateOf(table, dsos)), step)
  {
    match step
    case Record(event) => table.ReplayEvent(event);
    case Load(pid, ip, loaded) =>
      forall m | m in table.Rows() ensures m.image.dso < |dsos.entries| {
        assert InPlace(m, kernelPids, |dsos.entries|);
      }
      var _ := PrepareKernelCursor(table, dsos, pid, ip, loaded);
  }

  // After any such run, from any cache, a frame is what the plain scan of the run's rows finds.
  method FrameAfterRun(table: MmapTable, dsos: DsoRegistry, steps: seq<Step>, ghost kernelPids: set<u32>,
                       cache: MappingResolveCache, pid: u32, ip: u64) returns (r: Option<MappedFrame>)
    requires table.Valid() && Sane(StateOf(table, dsos), kernelPids)
    requires forall n :: 0 <= n < |steps| ==> KeepsApart(steps[n], kernelPids, |dsos.entries|)
    modifies table, table.mappings, dsos, cache
    ensures var rows := ApplySteps(old(StateOf(table, dsos)), steps).rows;
            r == ScanFrame(rows, pid, ip) && Resolves(rows, pid, ip, r)
  {
    ReplaySteps(table, dsos, steps, kernelPids);
    r := ResolveFrameCached(table, pid, ip, cache);
  }
}
