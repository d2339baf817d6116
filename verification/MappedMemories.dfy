// Reading a word of a process's memory from the object its newest user map shows there.
module MappedMemories {
  import opened Basics
  import opened MappingRows
  import opened MappingFacts
  import opened MmapTables
  import opened FrameLookups
  import opened DsoSources

  function RequestFor(frame: MappedFrame): DsoMapping {
    var image := frame.mapping.image;
    DsoMapping(image.dso, image.path, frame.relative, image.buildId)
  }

  // The word that the map owning the address shows there, from what the sources are bound to.
  function MappedAnswer(rows: seq<Mapping>, pid: u32, address: u64, sources: Sources, contents: Contents): Option<u64> {
    if address + 8 > U64_MAX then None
    else
      match ScanUserFrame(rows, pid, address)
      case None => None
      case Some(frame) => Answer(sources, contents, frame.mapping.image.dso, frame.relative)
  }

  // The same, read off the record history alone: the newest map recorded over the address, at
  // that map's own translation.
  ghost function OwnedAnswer(events: seq<Event>, pid: u32, address: u64, sources: Sources,
                             contents: Contents): Option<u64> {
    if address + 8 > U64_MAX then None
    else
      match Owner(events, pid, address)
      case None => None
      case Some(owner) =>
        if owner.image.cpumode == User then Answer(sources, contents, owner.image.dso, owner.Relative(address))
        else None
  }

  // The bytes that a read gives: those of the object that the process's user map shows at the
  // address, from where the map places it there.
  ghost predicate ReadsFrame(frame: Option<MappedFrame>, address: u64, sources: Sources, contents: Contents,
                             r: Option<u64>) {
    if frame.None? || address + 8 > U64_MAX then r == None
    else
      var image := frame.value.mapping.image;
      Direct(r, BoundIn(sources), FailedIn(sources), contents,
             DsoMapping(image.dso, image.path, frame.value.relative, image.buildId))
  }

  ghost predicate ReadsThrough(rows: seq<Mapping>, pid: u32, address: u64, sources: Sources, contents: Contents,
                               r: Option<u64>) {
    exists frame :: ResolvesUser(rows, pid, address, frame) && ReadsFrame(frame, address, sources, contents, r)
  }

  // The same from the history: the newest map recorded over the address shows its object there.
  ghost predicate ReadsOwner(owner: Option<Mapping>, address: u64, sources: Sources, contents: Contents,
                             r: Option<u64>) {
    if owner.None? || owner.value.image.cpumode != User || address + 8 > U64_MAX then r == None
    else exists offset: u64 :: Translates(owner.value, address, offset)
                               && ReadsFrame(Some(MappedFrame(owner.value, offset)), address, sources, contents, r)
  }

  lemma OwnerAnswers(events: seq<Event>, pid: u32, address: u64, sources: Sources, contents: Contents)
    ensures MappedAnswer(ApplyEvents([], events), pid, address, sources, contents) ==
              OwnedAnswer(events, pid, address, sources, contents)
  {
    UserFrameFromHistory(events, pid, address);
    var frame := ScanUserFrame(ApplyEvents([], events), pid, address);
    if frame.Some? {
      var owner := Owner(events, pid, address).value;
      FrameTranslates(owner, address);
      TranslatesOnce(owner, address, frame.value.relative, owner.Relative(address));
    }
  }

  // Whatever was cached or evicted before, the word read is the one shown by the map that a
  // plain scan finds. Where opens succeed it is the word of the file itself.
  method ReadMapped(table: MmapTable, dsos: DsoMemorySources, disk: Disk, cache: MappingResolveCache,
                    pid: u32, address: u64, debugDir: Option<string>,
                    cacheName: (string, string, seq<u8>) -> string) returns (r: Option<u64>)
    requires table.Valid() && Disjoint(table.Rows()) && dsos.Valid(disk)
    modifies cache, dsos, disk`script
    ensures table.Valid() && dsos.Valid(disk)
    ensures r == MappedAnswer(table.Rows(), pid, address, dsos.sources, disk.contents)
    ensures ReadsThrough(table.Rows(), pid, address, dsos.sources, disk.contents, r)
    ensures Ample(old(disk.script)) && address + 8 <= U64_MAX ==>
              Ample(disk.script) && FailedIn(dsos.sources) == FailedIn(old(dsos.sources))
              && match ScanUserFrame(table.Rows(), pid, address)
                 case None => dsos.sources == old(dsos.sources)
                 case Some(frame) =>
                   var m := RequestFor(frame);
                   BoundIn(dsos.sources) ==
                     BoundWith(BoundIn(old(dsos.sources)), disk.contents, m, CachedPath(debugDir, m, cacheName))
  {
    ScanUserResolves(table.Rows(), pid, address);
    if address + 8 > U64_MAX {
      assert ReadsFrame(ScanUserFrame(table.Rows(), pid, address), address, dsos.sources, disk.contents, None);
      return None;
    }
    var frame := ResolveUserFrameCached(table, pid, address, cache);
    if frame.None? {
      assert ReadsFrame(frame, address, dsos.sources, disk.contents, None);
      return None;
    }
    var m := RequestFor(frame.value);
    ghost var before, queue, script := dsos.sources, dsos.openOrder, disk.script;
    r := dsos.ReadU64(disk, m, CachedPath(debugDir, m, cacheName));
    assert ReadsFrame(frame, address, dsos.sources, disk.contents, r);
    if Ample(script) {
      AmpleEnsures(before, queue, script, dsos.sources, disk.script, disk.contents, m,
                   CachedPath(debugDir, m, cacheName));
    }
  }

  // After a replayed run of records, the word read is the one that the record history names.
  method ReadAfterRun(ghost events: seq<Event>, table: MmapTable, dsos: DsoMemorySources, disk: Disk,
                      cache: MappingResolveCache,
                      pid: u32, address: u64, debugDir: Option<string>,
                      cacheName: (string, string, seq<u8>) -> string) returns (r: Option<u64>)
    requires table.Valid() && table.Rows() == ApplyEvents([], events) && dsos.Valid(disk)
    modifies cache, dsos, disk`script
    ensures table.Valid() && dsos.Valid(disk)
    ensures r == OwnedAnswer(events, pid, address, dsos.sources, disk.contents)
    ensures ReadsOwner(Owner(events, pid, address), address, dsos.sources, disk.contents, r)
  {
    RunKeepsDisjoint(events);
    r := ReadMapped(table, dsos, disk, cache, pid, address, debugDir, cacheName);
    OwnerAnswers(events, pid, address, dsos.sources, disk.contents);
    OwnerReads(events, pid, address, dsos.sources, disk.contents, r);
  }

  lemma OwnerReads(events: seq<Event>, pid: u32, address: u64, sources: Sources, contents: Contents, r: Option<u64>)
    requires r == MappedAnswer(ApplyEvents([], events), pid, address, sources, contents)
    requires ReadsThrough(ApplyEvents([], events), pid, address, sources, contents, r)
    ensures ReadsOwner(Owner(events, pid, address), address, sources, contents, r)
  {
    var rows := ApplyEvents([], events);
    RunKeepsDisjoint(events);
    UserFrameFromHistory(events, pid, address);
    var frame :| ResolvesUser(rows, pid, address, frame) && ReadsFrame(frame, address, sources, contents, r);
    UserFrameIsOne(rows, pid, address, frame);
    if frame.Some? && address + 8 <= U64_MAX {
      var owner := Owner(events, pid, address).value;
      assert ReadsFrame(Some(MappedFrame(owner, frame.value.relative)), address, sources, contents, r);
    }
  }

  // With disjoint rows there is one user frame at most.
  lemma UserFrameIsOne(rows: seq<Mapping>, pid: u32, address: u64, frame: Option<MappedFrame>)
    requires Disjoint(rows) && ResolvesUser(rows, pid, address, frame)
    ensures frame == ScanUserFrame(rows, pid, address)
  {
    if frame.Some? {
      LookupIsOnly(rows, pid, address, frame.value.mapping);
      FrameTranslates(frame.value.mapping, address);
      TranslatesOnce(frame.value.mapping, address, frame.value.relative, frame.value.mapping.Relative(address));
    }
  }
}
