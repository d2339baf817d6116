// The lookup accelerators: index caches that outlive table changes, per-sample hints and
// proofs of unmapped gaps. None of them may ever change an answer.
module FrameLookups {
  import opened Basics
  import opened MappingRows
  import opened MappingFacts
  import opened MappingArenas
  import opened MmapIndexes
  import opened MmapSteps
  import opened MmapTables

  // Slot numbers remembered from earlier lookups. They are never trusted: the slot may have
  // been freed or given to another process since.
  class MappingResolveCache {
    var generation: nat
    var pid: Option<u32>
    var pidIndex: Option<nat>
    var globalIndex: Option<nat>

    constructor ()
    {
      generation, pid, pidIndex, globalIndex := 0, None, None, None;
    }

    method SelectPid(wanted: u32)
      modifies this
    {
      if pid != Some(wanted) { pid, pidIndex := Some(wanted), None; }
    }
  }

  // The CPU-mode filter applies after the containing map has been found.
  function Filtered(m: Option<Mapping>, userOnly: bool): Option<Mapping> {
    if m.Some? && userOnly && m.value.image.cpumode != User then None else m
  }

  function FrameAt(m: Option<Mapping>, ip: u64): Option<MappedFrame> {
    if m.Some? then Some(FrameOf(m.value, ip)) else None
  }

  lemma HitIsLookup(v: View, pid: u32, ip: u64, i: nat)
    requires Ordered(v.order, v.entries) && Disjoint(RowsOf(v.order, v.entries))
    requires i in v.entries && v.entries[i].mapping.pid == pid && v.entries[i].mapping.Contains(ip)
    ensures Lookup(RowsOf(v.order, v.entries), pid, ip) == Some(v.entries[i].mapping)
  {
    assert Placed(v.order, i);
    var k :| 0 <= k < |v.order| && v.order[k] == i;
    OnlyHit(RowsOf(v.order, v.entries), pid, ip, k);
  }

  // ----- Uncached and index-cached lookups ---------------------------------

  method ResolveFrame(table: MmapTable, pid: u32, ip: u64) returns (r: Option<MappedFrame>)
    requires table.Valid()
    ensures r == ScanFrame(table.Rows(), pid, ip)
    ensures Disjoint(table.Rows()) ==> Resolves(table.Rows(), pid, ip, r)
  {
    if Disjoint(table.Rows()) { ScanResolves(table.Rows(), pid, ip); }
    var user := ResolveRow(table, pid, ip);
    if pid == GLOBAL_PID { return FrameAt(user, ip); }
    var global := ResolveRow(table, GLOBAL_PID, ip);
    r := FrameAt(Prefer(user, global), ip);
  }

  method ResolveRow(table: MmapTable, pid: u32, ip: u64) returns (r: Option<Mapping>)
    requires table.Valid()
    ensures r == Lookup(table.Rows(), pid, ip)
  {
    var index := table.ResolveIndexForPid(pid, ip);
    if index.None? { return None; }
    r := table.mappings.Get(index.value);
  }

  // A remembered slot is used only if the map living there now contains the address.
  method ResolveWithCache(table: MmapTable, pid: u32, ip: u64, cached: Option<nat>, userOnly: bool)
    returns (r: Option<Mapping>, remembered: Option<nat>)
    requires table.Valid() && Disjoint(table.Rows())
    ensures r == Filtered(Lookup(table.Rows(), pid, ip), userOnly)
  {
    ghost var v := table.mappings.view;
    if cached.Some? {
      var live := table.mappings.Get(cached.value);
      if live.Some? && live.value.pid == pid && live.value.Contains(ip)
         && (!userOnly || live.value.image.cpumode == User) {
        HitIsLookup(v, pid, ip, cached.value);
        return live, cached;
      }
    }
    var found := table.SearchBucket(pid, table.BucketFor(pid), ip);
    match found
    case Err(_) =>
      MissesLookup(v.order, v.entries, pid, ip);
      return None, None;
    case Ok(index) =>
      HitIsLookup(v, pid, ip, index);
      var live := table.mappings.Get(index);
      r := Filtered(live, userOnly);
      remembered := if r.Some? then Some(index) else None;
  }

  // Whatever the cache holds, the answer is the plain scan's.
  method ResolveFrameCached(table: MmapTable, pid: u32, ip: u64, cache: MappingResolveCache)
    returns (r: Option<MappedFrame>)
    requires table.Valid() && Disjoint(table.Rows())
    modifies cache
    ensures r == ScanFrame(table.Rows(), pid, ip) && Resolves(table.Rows(), pid, ip, r)
  {
    ScanResolves(table.Rows(), pid, ip);
    if pid == GLOBAL_PID {
      var only, index := ResolveWithCache(table, pid, ip, cache.globalIndex, false);
      cache.globalIndex := index;
      return FrameAt(only, ip);
    }
    cache.SelectPid(pid);
    var user, userIndex := ResolveWithCache(table, pid, ip, cache.pidIndex, false);
    var global, globalIndex := ResolveWithCache(table, GLOBAL_PID, ip, cache.globalIndex, false);
    cache.pidIndex, cache.globalIndex := userIndex, globalIndex;
    r := FrameAt(Prefer(user, global), ip);
  }

  method ResolveUserFrameCached(table: MmapTable, pid: u32, ip: u64, cache: MappingResolveCache)
    returns (r: Option<MappedFrame>)
    requires table.Valid() && Disjoint(table.Rows())
    modifies cache
    ensures r == ScanUserFrame(table.Rows(), pid, ip) && ResolvesUser(table.Rows(), pid, ip, r)
  {
    ScanUserResolves(table.Rows(), pid, ip);
    cache.SelectPid(pid);
    var user, index := ResolveWithCache(table, pid, ip, cache.pidIndex, true);
    cache.pidIndex := index;
    r := FrameAt(user, ip);
  }

  // ----- Per-sample context ------------------------------------------------

  // A borrowed map with its range and translation worked out once.
  datatype Hint = Hint(mapping: Mapping, index: nat, start: u64, end: u64, bias: u64, userCpumode: bool)

  // An inclusive range of addresses known to be unmapped.
  datatype Miss = Miss(start: u64, last: u64)

  function HintFor(index: nat, m: Mapping): Hint {
    Hint(m, index, m.start, m.End(), m.Bias(), m.image.cpumode == User)
  }

  ghost predicate HintOk(hint: Option<Hint>, pid: u32, entries: Entries) {
    hint.Some? ==>
      && hint.value.index in entries
      && entries[hint.value.index].mapping.pid == pid
      && hint.value == HintFor(hint.value.index, entries[hint.value.index].mapping)
  }

  ghost predicate MissOk(miss: Option<Miss>, pid: u32, entries: Entries) {
    miss.Some? ==> forall ip: u64 :: miss.value.start <= ip <= miss.value.last ==> Misses(pid, entries, ip)
  }

  // The gap around a failed search is unmapped and contains the address searched for.
  lemma GapUnmapped(pid: u32, bucket: Bucket, entries: Entries, insertion: nat, ip: u64, miss: Miss)
    requires BucketOk(pid, bucket, entries) && ListsPid(pid, bucket, entries) && insertion <= |bucket|
    requires MaxEnd(bucket, entries, insertion) <= ip
    requires forall k :: insertion <= k < |bucket| ==> ip < bucket[k].start
    requires miss.start == MaxEnd(bucket, entries, insertion)
    requires miss.last == if insertion < |bucket| then bucket[insertion].start - 1 else U64_MAX
    ensures MissOk(Some(miss), pid, entries) && miss.start <= ip <= miss.last
  {
    forall at: u64 | miss.start <= at <= miss.last ensures Misses(pid, entries, at) {
      PrefixStops(bucket, entries, insertion, at);
      ArrangedStarts(pid, bucket, entries);
      SearchMisses(pid, bucket, entries, insertion, at);
    }
  }

  class FrameMappingContext {
    const table: MmapTable
    const pid: u32
    const user: Bucket
    const global: Bucket
    var userHint: Option<Hint>
    var globalHint: Option<Hint>
    var userMiss: Option<Miss>
    var globalMiss: Option<Miss>

    // The table is borrowed: it cannot change while the context lives.
    ghost predicate Valid()
      reads this, table, table.mappings
    {
      && table.Valid() && Disjoint(table.Rows())
      && user == table.BucketFor(pid) && global == table.BucketFor(GLOBAL_PID)
      && HintOk(userHint, pid, table.mappings.view.entries)
      && HintOk(globalHint, GLOBAL_PID, table.mappings.view.entries)
      && MissOk(userMiss, pid, table.mappings.view.entries)
      && MissOk(globalMiss, GLOBAL_PID, table.mappings.view.entries)
    }

    constructor (table: MmapTable, pid: u32, cache: MappingResolveCache)
      requires table.Valid() && Disjoint(table.Rows())
      modifies cache
      ensures Valid() && this.table == table && this.pid == pid
    {
      var pidIndex := if cache.generation == table.generation && cache.pid == Some(pid) then cache.pidIndex else None;
      var globalIndex := if cache.generation == table.generation then cache.globalIndex else None;
      cache.generation, cache.pid, cache.pidIndex, cache.globalIndex :=
        table.generation, Some(pid), pidIndex, globalIndex;
      this.table, this.pid := table, pid;
      user := table.BucketFor(pid);
      global := if pid == GLOBAL_PID then table.BucketFor(pid)
                else if !table.hasGlobalMappings then [] else table.BucketFor(GLOBAL_PID);
      var userHint' := FrameMappingHint(table, pid, pidIndex);
      var globalHint' := FrameMappingHint(table, GLOBAL_PID, globalIndex);
      userHint, globalHint, userMiss, globalMiss := userHint', globalHint', None, None;
      assert PidIndexed(table.IndexState(), table.mappings.view.entries, GLOBAL_PID);
    }

    // A containing hint or gap answers at once; anything else searches and remembers.
    method ResolveBucket(userOnly: bool, ghost of: u32, bucket: Bucket, ip: u64, hint: Option<Hint>, miss: Option<Miss>)
      returns (r: Option<MappedFrame>, cached: Option<nat>, hint': Option<Hint>, miss': Option<Miss>)
      requires Valid() && bucket == table.BucketFor(of)
      requires HintOk(hint, of, table.mappings.view.entries) && MissOk(miss, of, table.mappings.view.entries)
      ensures r == FrameAt(Filtered(Lookup(table.Rows(), of, ip), userOnly), ip)
      ensures HintOk(hint', of, table.mappings.view.entries) && MissOk(miss', of, table.mappings.view.entries)
      ensures cached.Some? ==> r.Some?
    {
      ghost var v := table.mappings.view;
      assert PidIndexed(table.IndexState(), v.entries, of);
      hint', miss' := hint, miss;
      if |bucket| == 0 {
        SearchMisses(of, bucket, v.entries, 0, ip);
        MissesLookup(v.order, v.entries, of, ip);
        return None, None, hint', miss';
      }
      if hint.Some? && hint.value.start <= ip < hint.value.end {
        HitIsLookup(v, of, ip, hint.value.index);
        if userOnly && !hint.value.userCpumode { return None, None, hint', miss'; }
        r := Some(MappedFrame(hint.value.mapping, WrapAdd(ip, hint.value.bias)));
        return r, Some(hint.value.index), hint', miss';
      }
      if miss.Some? && miss.value.start <= ip <= miss.value.last {
        MissesLookup(v.order, v.entries, of, ip);
        return None, None, hint', miss';
      }
      r, cached, hint', miss' := ResolveBucketMiss(userOnly, of, bucket, ip, hint, miss);
    }

    method ResolveBucketMiss(userOnly: bool, ghost of: u32, bucket: Bucket, ip: u64, hint: Option<Hint>,
                             miss: Option<Miss>)
      returns (r: Option<MappedFrame>, cached: Option<nat>, hint': Option<Hint>, miss': Option<Miss>)
      requires Valid() && bucket == table.BucketFor(of)
      requires HintOk(hint, of, table.mappings.view.entries) && MissOk(miss, of, table.mappings.view.entries)
      ensures r == FrameAt(Filtered(Lookup(table.Rows(), of, ip), userOnly), ip)
      ensures HintOk(hint', of, table.mappings.view.entries) && MissOk(miss', of, table.mappings.view.entries)
      ensures cached.Some? ==> r.Some?
      ensures match Lookup(table.Rows(), of, ip)
              case None => miss'.Some? && miss'.value.start <= ip <= miss'.value.last && hint' == hint
              case Some(m) =>
                && hint'.Some? && hint'.value.mapping == m && miss' == miss
                && (r.Some? ==> cached == Some(hint'.value.index))
    {
      ghost var v := table.mappings.view;
      assert PidIndexed(table.IndexState(), v.entries, of);
      hint', miss' := hint, miss;
      var found := table.SearchBucket(of, bucket, ip);
      if found.Err? {
        var insertion := found.error;
        assert insertion > 0 ==> Augmented(bucket, v.entries, insertion - 1);
        var gap := Miss(if insertion == 0 then 0 else bucket[insertion - 1].maxEnd,
                        if insertion < |bucket| then bucket[insertion].start - 1 else U64_MAX);
        GapUnmapped(of, bucket, v.entries, insertion, ip, gap);
        MissesLookup(v.order, v.entries, of, ip);
        return None, None, hint', Some(gap);
      }
      HitIsLookup(v, of, ip, found.value);
      var live := table.mappings.Get(found.value);
      var loaded := HintFor(found.value, live.value);
      if userOnly && !loaded.userCpumode { return None, None, Some(loaded), miss'; }
      return Some(MappedFrame(live.value, WrapAdd(ip, loaded.bias))), Some(found.value), Some(loaded), miss';
    }

    method ResolveLocal(userOnly: bool, ip: u64, cache: MappingResolveCache) returns (r: Option<MappedFrame>)
      requires Valid()
      modifies this`userHint, this`userMiss, cache
      ensures Valid() && r == FrameAt(Filtered(Lookup(table.Rows(), pid, ip), userOnly), ip)
    {
      var cached, hint, miss;
      r, cached, hint, miss := ResolveBucket(userOnly, pid, user, ip, userHint, userMiss);
      userHint, userMiss := hint, miss;
      cache.pidIndex := cached;
    }

    method ResolveGlobal(ip: u64, cache: MappingResolveCache) returns (r: Option<MappedFrame>)
      requires Valid()
      modifies this`globalHint, this`globalMiss, cache
      ensures Valid() && r == FrameAt(Lookup(table.Rows(), GLOBAL_PID, ip), ip)
    {
      var cached, hint, miss;
      r, cached, hint, miss := ResolveBucket(false, GLOBAL_PID, global, ip, globalHint, globalMiss);
      globalHint, globalMiss := hint, miss;
      cache.globalIndex := cached;
    }

    method ResolveUser(ip: u64, cache: MappingResolveCache) returns (r: Option<MappedFrame>)
      requires Valid()
      modifies this, cache
      ensures Valid() && r == ScanUserFrame(table.Rows(), pid, ip) && ResolvesUser(table.Rows(), pid, ip, r)
    {
      ScanUserResolves(table.Rows(), pid, ip);
      r := ResolveLocal(true, ip, cache);
    }

    // In any order of probes and whatever the cache held, the answer is the plain scan's.
    method Resolve(ip: u64, cache: MappingResolveCache) returns (r: Option<MappedFrame>)
      requires Valid()
      modifies this, cache
      ensures Valid() && r == ScanFrame(table.Rows(), pid, ip) && Resolves(table.Rows(), pid, ip, r)
    {
      r := Probe(ip, cache);
      ScanResolves(table.Rows(), pid, ip);
    }

    method Probe(ip: u64, cache: MappingResolveCache) returns (r: Option<MappedFrame>)
      requires Valid()
      modifies this, cache
      ensures Valid() && r == ScanFrame(table.Rows(), pid, ip)
    {
      var globalFrame := ResolveGlobal(ip, cache);
      if pid == GLOBAL_PID { return globalFrame; }
      var userFrame := ResolveLocal(false, ip, cache);
      if userFrame.Some? && globalFrame.Some? {
        r := if userFrame.value.mapping.start >= globalFrame.value.mapping.start then userFrame else globalFrame;
      } else {
        r := if userFrame.Some? then userFrame else globalFrame;
      }
    }
  }

  // A remembered slot becomes a hint if it now holds a map of the right process.
  method FrameMappingHint(table: MmapTable, pid: u32, index: Option<nat>) returns (hint: Option<Hint>)
    requires table.Valid()
    ensures HintOk(hint, pid, table.mappings.view.entries)
  {
    if index.None? { return None; }
    var live := table.mappings.Get(index.value);
    hint := if live.Some? && live.value.pid == pid then Some(HintFor(index.value, live.value)) else None;
  }
}
