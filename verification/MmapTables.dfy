// The address-map table: replays mmap, fork and exec records over the slot arena and the
// interval index, and resolves addresses. It is proved against the flat list of rows.
module MmapTables {
  import opened Basics
  import opened MappingRows
  import opened MappingFacts
  import opened MappingArenas
  import opened MappingOrders
  import opened MmapIndexes
  import opened MmapSteps

  // How many leading rows start below the bound.
  method PartitionPoint(bucket: Bucket, bound: int) returns (n: nat)
    requires forall j, k :: 0 <= j < k < |bucket| ==> bucket[j].start <= bucket[k].start
    ensures n <= |bucket|
    ensures forall k :: 0 <= k < n ==> bucket[k].start < bound
    ensures forall k :: n <= k < |bucket| ==> bound <= bucket[k].start
  {
    n := 0;
    var high := |bucket|;
    while n < high
      invariant n <= high <= |bucket|
      invariant forall k :: 0 <= k < n ==> bucket[k].start < bound
      invariant forall k :: high <= k < |bucket| ==> bound <= bucket[k].start
    {
      var mid := n + (high - n) / 2;
      if bucket[mid].start < bound { n := mid + 1; } else { high := mid; }
    }
  }

  // The library's sort by key: payloads come out in increasing order of their keys.
  method SortByKey<T(==)>(items: seq<(nat, T)>) returns (sorted: seq<(nat, T)>)
    requires forall j, k :: 0 <= j < k < |items| ==> items[j].0 != items[k].0
    ensures |sorted| == |items|
    ensures forall j, k :: 0 <= j < k < |sorted| ==> sorted[j].0 < sorted[k].0
    ensures forall x :: x in sorted <==> x in items
  {
    sorted := [];
    for n := 0 to |items|
      invariant |sorted| == n
      invariant forall j, k :: 0 <= j < k < n ==> sorted[j].0 < sorted[k].0
      invariant forall x :: x in sorted <==> x in items[..n]
    {
      var p := 0;
      while p < n && sorted[p].0 < items[n].0
        invariant p <= n
        invariant forall k :: 0 <= k < p ==> sorted[k].0 < items[n].0
      {
        p := p + 1;
      }
      forall k | p <= k < n ensures items[n].0 < sorted[k].0 {
        assert sorted[k] in items[..n];
      }
      var grown := sorted[..p] + [items[n]] + sorted[p..];
      assert forall x :: x in grown <==> x in sorted || x == items[n];
      assert items[..n + 1] == items[..n] + [items[n]];
      sorted := grown;
    }
    assert items[..|items|] == items;
  }

  class MmapTable {
    const mappings: MappingArena
    var mappingsByPid: map<u32, Bucket>
    var pidsWithMappings: set<u32>
    var executablePids: set<u32>
    var hasGlobalMappings: bool
    var hasGlobalExecutableMappings: bool
    var generation: nat

    ghost function IndexState(): Index
      reads this
    {
      Index(mappingsByPid, pidsWithMappings, executablePids, hasGlobalMappings, hasGlobalExecutableMappings)
    }

    ghost predicate Valid()
      reads this, mappings
    {
      mappings.Valid() && Coherent(IndexState(), mappings.view.entries)
    }

    ghost function Rows(): seq<Mapping>
      requires Valid()
      reads this, mappings
    {
      mappings.Rows()
    }

    constructor ()
      ensures Valid() && Rows() == [] && fresh(mappings)
    {
      mappings := new MappingArena();
      mappingsByPid, pidsWithMappings, executablePids := map[], {}, {};
      hasGlobalMappings, hasGlobalExecutableMappings, generation := false, false, 0;
    }

    function BucketFor(pid: u32): Bucket
      reads this
    {
      if pid in mappingsByPid then mappingsByPid[pid] else []
    }

    // Descends from the last row starting at or before the address; a running end at or
    // below the address ends the search. A failed search gives the insertion point.
    method SearchBucket(ghost pid: u32, bucket: Bucket, ip: u64) returns (r: Result<nat, nat>)
      requires Valid() && bucket == BucketFor(pid)
      ensures r.Ok? ==> r.value in mappings.view.entries
                        && mappings.view.entries[r.value].mapping.pid == pid
                        && mappings.view.entries[r.value].mapping.Contains(ip)
      ensures r.Err? ==> Misses(pid, mappings.view.entries, ip)
      ensures r.Err? ==> r.error <= |bucket|
                         && MaxEnd(bucket, mappings.view.entries, r.error) <= ip
                         && (forall k :: r.error <= k < |bucket| ==> ip < bucket[k].start)
    {
      ghost var entries := mappings.view.entries;
      assert PidIndexed(IndexState(), entries, pid);
      ArrangedStarts(pid, bucket, entries);
      var insertion := PartitionPoint(bucket, ip + 1);
      var upper: nat := insertion;
      while upper > 0
        invariant upper <= insertion
        invariant NoneReach(bucket, entries, upper, insertion, ip)
      {
        upper := upper - 1;
        var row := bucket[upper];
        assert Describes(row, pid, entries);
        assert Augmented(bucket, entries, upper);
        if row.maxEnd <= ip {
          PrefixStops(bucket, entries, upper + 1, ip);
          upper := 0;
          break;
        }
        var mapping := mappings.Get(row.index);
        if ip < mapping.value.End() {
          return Ok(row.index);
        }
      }
      NoneReachMax(bucket, entries, insertion, ip);
      SearchMisses(pid, bucket, entries, insertion, ip);
      return Err(insertion);
    }

    // Without disjointness the newest of several containing maps wins.
    method ResolveIndexForPid(pid: u32, ip: u64) returns (r: Option<nat>)
      requires Valid()
      ensures r.Some? ==> r.value in mappings.view.entries
                          && Lookup(Rows(), pid, ip) == Some(mappings.view.entries[r.value].mapping)
      ensures r.None? ==> Lookup(Rows(), pid, ip) == None
    {
      ghost var order, entries := mappings.view.order, mappings.view.entries;
      var bucket := BucketFor(pid);
      assert PidIndexed(IndexState(), entries, pid);
      ArrangedStarts(pid, bucket, entries);
      var insertion := PartitionPoint(bucket, ip + 1);
      var upper: nat := insertion;
      r := None;
      while upper > 0
        invariant upper <= insertion
        invariant NewestSoFar(pid, bucket, entries, upper, insertion, r, ip)
      {
        upper := upper - 1;
        var row := bucket[upper];
        assert Describes(row, pid, entries);
        if row.maxEnd <= ip {
          NoOlderReaches(pid, bucket, entries, upper, insertion, r, ip);
          upper := 0;
          break;
        }
        var mapping := mappings.Get(row.index);
        if ip < mapping.value.End() {
          FoundAt(pid, bucket, entries, upper, insertion, r, ip);
          if r.None? {
            r := Some(row.index);
          } else {
            var id := mappings.InsertionId(row.index);
            var latest := mappings.InsertionId(r.value);
            if id > latest { r := Some(row.index); }
          }
        }
      }
      if r.None? {
        SearchMisses(pid, bucket, entries, insertion, ip);
        MissesLookup(order, entries, pid, ip);
      } else {
        NewestFound(pid, bucket, mappings.view, insertion, r.value, ip);
      }
    }

    // Whether any live map of the process meets the half-open range.
    method HasOverlapping(pid: u32, start: u64, end: u64) returns (found: bool)
      requires Valid()
      ensures found <==> exists i ::
                i in mappings.view.entries && Meets(mappings.view.entries[i].mapping, pid, start, end)
    {
      ghost var entries := mappings.view.entries;
      var bucket := BucketFor(pid);
      assert PidIndexed(IndexState(), entries, pid);
      ArrangedStarts(pid, bucket, entries);
      var insertion := PartitionPoint(bucket, end);
      var upper: nat := insertion;
      while upper > 0
        invariant upper <= insertion
        invariant NoneReach(bucket, entries, upper, insertion, start)
      {
        upper := upper - 1;
        var row := bucket[upper];
        assert Describes(row, pid, entries);
        assert Augmented(bucket, entries, upper);
        if row.maxEnd <= start {
          PrefixStops(bucket, entries, upper + 1, start);
          upper := 0;
          break;
        }
        var mapping := mappings.Get(row.index);
        if start < mapping.value.End() && mapping.value.start < end {
          assert Meets(entries[row.index].mapping, pid, start, end);
          return true;
        }
      }
      NoneMeets(pid, bucket, entries, insertion, start, end);
      return false;
    }

    // Puts a fresh slot into its bucket, rewriting running ends only as far as they change.
    method IndexRow(base: Bucket, index: nat, mapping: Mapping, ghost before: Entries, ghost e: Entry)
      returns (bucket: Bucket)
      requires mappings.Valid() && mappings.view.entries == before[index := e] && e.mapping == mapping
      requires index !in before && (forall i :: i in before ==> before[i].id < e.id)
      requires BucketOk(mapping.pid, base, before) && ListsPid(mapping.pid, base, before)
      ensures BucketOk(mapping.pid, bucket, mappings.view.entries)
      ensures ListsPid(mapping.pid, bucket, mappings.view.entries)
      ensures bucket != []
    {
      ghost var pid, after := mapping.pid, mappings.view.entries;
      ArrangedStarts(pid, base, before);
      var position := PartitionPoint(base, mapping.start + 1);
      var maxEnd := if position == 0 then mapping.End() else Max(base[position - 1].maxEnd, mapping.End());
      var row := Indexed(mapping.start, maxEnd, index);
      bucket := base[..position] + [row] + base[position..];
      FreshRow(pid, base, before, position, row, e);
      var k := position + 1;
      while k < |bucket|
        invariant position < k <= |bucket|
        invariant SameRows(WithRow(base, position, row), bucket)
        invariant Arranged(pid, WithRow(base, position, row), after) && Arranged(pid, bucket, after)
        invariant AugmentedTo(bucket, after, k)
        invariant Shifted(base, position, bucket, k)
      {
        assert Describes(bucket[k], pid, after) && Augmented(bucket, after, k - 1);
        var next := mappings.Get(bucket[k].index);
        var updated := Max(bucket[k - 1].maxEnd, next.value.End());
        if bucket[k].maxEnd == updated {
          TailUnchanged(pid, base, before, position, row, e, bucket, k);
          break;
        }
        Rewritten(bucket, after, k);
        Raised(bucket, after, k);
        RaisedRows(pid, WithRow(base, position, row), bucket, after, k, updated);
        bucket := bucket[k := bucket[k].(maxEnd := updated)];
        k := k + 1;
      }
      SameRowsArranged(pid, WithRow(base, position, row), bucket, after);
    }

    // Adds one row at the end of the flat list.
    method InsertWithoutOverlapFix(mapping: Mapping) returns (ghost index: nat)
      requires Valid()
      modifies this, mappings
      ensures Valid()
      ensures index !in old(mappings.view).entries && mappings.view == Inserted(old(mappings.view), index, mapping)
      ensures Rows() == old(Rows()) + [mapping]
      ensures old(mappings.view.births) <= mappings.view.births && generation == old(generation)
    {
      ghost var ix, before := IndexState(), mappings.view;
      var pid := mapping.pid;
      var base := BucketFor(pid);
      assert PidIndexed(ix, before.entries, pid);
      var slot := mappings.Insert(mapping);
      index := slot;
      RowsInserted(before, slot, mapping);
      OlderThanNext(before);
      var bucket := IndexRow(base, slot, mapping, before.entries, Entry(|before.births|, mapping));
      InsertedCoherent(ix, before, index, mapping, bucket);
      RecordInsert(pid, bucket, mapping.image.MayExecute());
    }

    method RecordInsert(pid: u32, bucket: Bucket, mayExecute: bool)
      modifies this
      ensures IndexState() == WithPresence(old(IndexState()), pid, bucket, mayExecute)
      ensures generation == old(generation)
    {
      mappingsByPid := mappingsByPid[pid := bucket];
      if pid == GLOBAL_PID {
        hasGlobalMappings := true;
        hasGlobalExecutableMappings := hasGlobalExecutableMappings || mayExecute;
      } else {
        pidsWithMappings := pidsWithMappings + {pid};
        if mayExecute { executablePids := executablePids + {pid}; }
      }
    }

    method UpdatePresence(pid: u32, hasMappings: bool, mayExecute: bool)
      modifies this
      ensures mappingsByPid == old(mappingsByPid) && generation == old(generation)
      ensures IndexState() == Presence(old(IndexState()), pid, hasMappings, mayExecute)
    {
      if pid == GLOBAL_PID {
        hasGlobalMappings := hasMappings;
        hasGlobalExecutableMappings := mayExecute;
      } else {
        pidsWithMappings := if hasMappings then pidsWithMappings + {pid} else pidsWithMappings - {pid};
        executablePids := if mayExecute then executablePids + {pid} else executablePids - {pid};
      }
    }

    // Recomputes every running end and the presence of one process from its rows.
    method RebuildPidIndex(pid: u32, ghost ix: Index, ghost before: Entries)
      requires mappings.Valid() && pid in mappingsByPid
      requires Coherent(ix, before) && OnlyPidChanges(pid, before, mappings.view.entries)
      requires IndexState() == ix.(buckets := ix.buckets[pid := mappingsByPid[pid]])
      requires Arranged(pid, mappingsByPid[pid], mappings.view.entries)
      requires ListsPid(pid, mappingsByPid[pid], mappings.view.entries)
      modifies this
      ensures Coherent(IndexState(), mappings.view.entries) && generation == old(generation)
    {
      ghost var entries := mappings.view.entries;
      var bucket, maxEnd, mayExecute := mappingsByPid[pid], 0, false;
      ghost var base := bucket;
      for k := 0 to |bucket|
        invariant SameRows(base, bucket) && Arranged(pid, bucket, entries)
        invariant maxEnd == MaxEnd(bucket, entries, k)
        invariant AugmentedTo(bucket, entries, k)
        invariant mayExecute <==> exists j :: 0 <= j < k && ExecutableMap(entries, pid, base[j].index)
        modifies {}
      {
        assert Describes(bucket[k], pid, entries);
        var mapping := mappings.Get(bucket[k].index);
        maxEnd := Max(maxEnd, mapping.value.End());
        Raised(bucket, entries, k);
        RaisedMaxEnd(bucket, entries, k, maxEnd, k + 1);
        RaisedRows(pid, base, bucket, entries, k, maxEnd);
        assert SameRow(base[k], bucket[k]);
        bucket := bucket[k := bucket[k].(maxEnd := maxEnd)];
        mayExecute := mayExecute || mapping.value.image.MayExecute();
        assert mapping.value.image.MayExecute() <==> ExecutableMap(entries, pid, base[k].index);
      }
      SameRowsArranged(pid, base, bucket, entries);
      BucketExecutes(pid, base, entries);
      IndexingCoherent(ix, before, pid, bucket, mayExecute, entries);
      IndexingAgain(ix, pid, base, bucket, mayExecute);
      StoreBucket(pid, bucket, mayExecute);
    }

    method StoreBucket(pid: u32, bucket: Bucket, mayExecute: bool)
      modifies this
      ensures generation == old(generation)
      ensures IndexState() == Indexing(old(IndexState()), pid, bucket, mayExecute)
    {
      mappingsByPid := if bucket == [] then mappingsByPid - {pid} else mappingsByPid[pid := bucket];
      UpdatePresence(pid, bucket != [], mayExecute);
    }

    method Retain(bucket: Bucket, m: Mapping) returns (kept: Bucket, removed: seq<nat>)
      requires mappings.Valid() && Arranged(m.pid, bucket, mappings.view.entries)
      requires ListsPid(m.pid, bucket, mappings.view.entries)
      ensures Retained(m.pid, bucket, mappings.view.entries, m, kept, removed)
    {
      ghost var entries := mappings.view.entries;
      kept, removed := [], [];
      for n := 0 to |bucket|
        invariant Sifted(bucket, entries, m, n, kept, removed)
      {
        assert Describes(bucket[n], m.pid, entries);
        var mapping := mappings.Get(bucket[n].index);
        if mapping.value.Overlaps(m) {
          SiftRemove(bucket, entries, m, n, kept, removed);
          removed := removed + [bucket[n].index];
        } else {
          SiftKeep(bucket, entries, m, n, kept, removed);
          kept := kept + [bucket[n]];
        }
      }
      SiftDone(bucket, entries, m, kept, removed);
    }

    // Unlinks the given slots in insertion order and collects what is left of each.
    method RemoveAndSplit(removed: seq<nat>, m: Mapping) returns (splits: seq<Mapping>)
      requires mappings.Valid() && Ascending(removed, mappings.view.entries)
      requires forall k :: 0 <= k < |removed| ==> mappings.view.entries[removed[k]].mapping.Overlaps(m)
      modifies mappings
      ensures mappings.Valid() && mappings.view == RemovedAll(old(mappings.view), SetOf(removed))
      ensures splits == SplitAll(RowsOf(removed, old(mappings.view.entries)), m)
    {
      ghost var v := mappings.view;
      splits := [];
      RemovedNone(v);
      for n := 0 to |removed|
        invariant mappings.Valid() && mappings.view == RemovedAll(v, SetOf(removed[..n]))
        invariant splits == SplitAll(RowsOf(removed[..n], v.entries), m)
      {
        ghost var k := NextDoomed(v, removed, n);
        var mapping := mappings.Remove(removed[n], k);
        splits := splits + Split(mapping, m);
        SplitNext(removed, v.entries, n, m);
      }
      assert removed[..|removed|] == removed;
    }

    // Frees the slots of a bucket that overlap the new map; the rest of the bucket stays.
    method TakeOverlapping(bucket: Bucket, m: Mapping) returns (kept: Bucket, splits: seq<Mapping>)
      requires mappings.Valid()
      requires Arranged(m.pid, bucket, mappings.view.entries) && ListsPid(m.pid, bucket, mappings.view.entries)
      modifies mappings
      ensures mappings.Valid() && mappings.view.births == old(mappings.view.births)
      ensures mappings.Rows() == Survivors(old(mappings.Rows()), m) && splits == Fragments(old(mappings.Rows()), m)
      ensures Arranged(m.pid, kept, mappings.view.entries) && ListsPid(m.pid, kept, mappings.view.entries)
      ensures OnlyPidChanges(m.pid, old(mappings.view.entries), mappings.view.entries)
    {
      ghost var v := mappings.view;
      var removed;
      kept, removed := Retain(bucket, m);
      var sorted := SortByInsertionId(removed);
      OverlapRemoved(v, bucket, m, kept, removed, sorted);
      splits := RemoveAndSplit(sorted, m);
    }

    // Takes every map of the process that overlaps the new one out of the table.
    method RemoveOverlapping(m: Mapping) returns (splits: seq<Mapping>)
      requires Valid()
      modifies this, mappings
      ensures Valid() && generation == old(generation)
      ensures Rows() == Survivors(old(Rows()), m) && splits == Fragments(old(Rows()), m)
      ensures mappings.view.births == old(mappings.view.births)
    {
      ghost var ix, before := IndexState(), mappings.view.entries;
      assert PidIndexed(ix, before, m.pid);
      var kept;
      kept, splits := TakeOverlapping(BucketFor(m.pid), m);
      mappingsByPid := mappingsByPid[m.pid := kept];
      RebuildPidIndex(m.pid, ix, before);
    }

    method SortByInsertionId(slots: seq<nat>) returns (sorted: seq<nat>)
      requires mappings.Valid()
      requires forall k :: 0 <= k < |slots| ==> slots[k] in mappings.view.entries
      requires forall j, k :: 0 <= j < k < |slots| ==> slots[j] != slots[k]
      ensures Ascending(sorted, mappings.view.entries)
      ensures forall i :: i in sorted <==> i in slots
    {
      ghost var v := mappings.view;
      var keyed: seq<(nat, nat)> := [];
      for n := 0 to |slots|
        invariant |keyed| == n
        invariant forall k :: 0 <= k < n ==> keyed[k] == (v.entries[slots[k]].id, slots[k])
      {
        var id := mappings.InsertionId(slots[n]);
        keyed := keyed + [(id, slots[n])];
      }
      forall j, k | 0 <= j < k < |keyed| ensures keyed[j].0 != keyed[k].0 {
        IdsDistinct(v, slots[j], slots[k]);
      }
      var pairs := SortByKey(keyed);
      sorted := seq(|pairs|, k requires 0 <= k < |pairs| => pairs[k].1);
      KeyedSlots(v.entries, slots, keyed, pairs, sorted);
    }

    method InsertAll(rows: seq<Mapping>)
      requires Valid()
      modifies this, mappings
      ensures Valid() && generation == old(generation)
      ensures Rows() == old(Rows()) + rows
      ensures old(mappings.view.births) <= mappings.view.births
    {
      ghost var before, births, sofar := Rows(), mappings.view.births, Rows();
      for n := 0 to |rows|
        invariant Valid() && generation == old(generation)
        invariant Rows() == sofar && births <= mappings.view.births
        invariant sofar == before + rows[..n]
      {
        var _ := InsertWithoutOverlapFix(rows[n]);
        AppendNext(before, rows, n);
        sofar := sofar + [rows[n]];
      }
      assert rows[..|rows|] == rows;
    }

    // Replays one mmap record: whatever it overlaps is cut, then it goes last.
    method InsertMapping(mapping: Mapping)
      requires Valid()
      modifies this, mappings
      ensures Valid() && generation == old(generation)
      ensures Rows() == InsertRow(old(Rows()), mapping)
      ensures old(mappings.view.births) <= mappings.view.births
    {
      var overlaps := HasOverlapping(mapping.pid, mapping.start, mapping.End());
      if !overlaps {
        NothingDisplaced(mappings.view, mapping);
        var _ := InsertWithoutOverlapFix(mapping);
      } else {
        var splits := RemoveOverlapping(mapping);
        InsertAll(splits);
        var _ := InsertWithoutOverlapFix(mapping);
      }
    }

    // Unlinks every slot of a bucket, in bucket order.
    method RemoveBucket(ghost pid: u32, bucket: Bucket)
      requires mappings.Valid()
      requires Arranged(pid, bucket, mappings.view.entries) && ListsPid(pid, bucket, mappings.view.entries)
      modifies mappings
      ensures mappings.Valid()
              && mappings.view == RemovedAll(old(mappings.view), PidSlots(old(mappings.view.entries), pid))
    {
      ghost var v := mappings.view;
      RemovedNone(v);
      assert Indices(bucket[..0]) == [];
      for n := 0 to |bucket|
        invariant mappings.Valid() && mappings.view == RemovedAll(v, SetOf(Indices(bucket[..n])))
      {
        ghost var k := NextInBucket(v, pid, bucket, n);
        var _ := mappings.Remove(bucket[n].index, k);
      }
      assert bucket[..|bucket|] == bucket;
      BucketSlots(pid, bucket, v.entries);
    }

    // Drops every map of a process: the group behind it has been retired.
    method RemovePidMappings(pid: u32)
      requires Valid()
      modifies this, mappings
      ensures Valid() && generation == old(generation)
      ensures Rows() == RemovePid(old(Rows()), pid)
      ensures mappings.view.births == old(mappings.view.births)
    {
      ghost var ix, v := IndexState(), mappings.view;
      assert PidIndexed(ix, v.entries, pid);
      RemoveBucket(pid, BucketFor(pid));
      PidRemoved(v, pid);
      IndexingCoherent(ix, v.entries, pid, [], false, mappings.view.entries);
      StoreBucket(pid, [], false);
    }

    // The bucket positions of a process in insertion order of their slots.
    method SortPositions(ghost pid: u32, base: Bucket) returns (positions: seq<nat>)
      requires mappings.Valid() && Arranged(pid, base, mappings.view.entries)
      ensures ByInsertion(base, mappings.view.entries, positions)
    {
      ghost var v := mappings.view;
      DistinctRows(pid, base, v.entries);
      var keyed: seq<(nat, nat)> := [];
      for n := 0 to |base|
        invariant |keyed| == n
        invariant forall k :: 0 <= k < n ==> keyed[k] == (v.entries[base[k].index].id, k)
      {
        assert Describes(base[n], pid, v.entries);
        var id := mappings.InsertionId(base[n].index);
        keyed := keyed + [(id, n)];
      }
      forall j, k | 0 <= j < k < |keyed| ensures keyed[j].0 != keyed[k].0 {
        IdsDistinct(v, base[j].index, base[k].index);
      }
      var pairs := SortByKey(keyed);
      positions := seq(|pairs|, k requires 0 <= k < |pairs| => pairs[k].1);
      KeyedPositions(base, v.entries, keyed, pairs, positions);
    }

    // Replays a fork: the child's maps become copies of its parent's, whose sorted bucket
    // and running ends are reused while the slots are filled in insertion order.
    method ClonePidMappings(parent: u32, child: u32)
      requires Valid()
      modifies this, mappings
      ensures Valid() && generation == old(generation)
      ensures Rows() == ForkRows(old(Rows()), parent, child)
      ensures old(mappings.view.births) <= mappings.view.births
    {
      if parent == child { return; }
      ghost var ix, v := IndexState(), mappings.view;
      BucketsOk(ix, v.entries, parent);
      BucketsOk(ix, v.entries, child);
      var base := BucketFor(parent);
      var positions := SortPositions(parent, base);
      RemoveBucket(child, BucketFor(child));
      ghost var w := mappings.view;
      ForkStart(v, w, parent, child, base, positions);
      var bucket, mayExecute := CopyRows(parent, child, base, positions);
      ForkDone(ix, v, w, mappings.view, parent, child, base, positions, bucket, mayExecute);
      StoreBucket(child, bucket, mayExecute);
    }

    method CopyRows(ghost parent: u32, child: u32, base: Bucket, positions: seq<nat>)
      returns (bucket: Bucket, mayExecute: bool)
      requires mappings.Valid() && Copying(mappings.view, parent, child, base, positions, 0, base, mappings.view)
      modifies mappings
      ensures mappings.Valid()
      ensures Copying(old(mappings.view), parent, child, base, positions, |positions|, bucket, mappings.view)
      ensures mayExecute == AnyExecutes(old(mappings.view), base, positions, |positions|)
    {
      ghost var w := mappings.view;
      bucket, mayExecute := base, false;
      for n := 0 to |positions|
        invariant mappings.Valid()
        invariant Copying(w, parent, child, base, positions, n, bucket, mappings.view)
        invariant mayExecute == AnyExecutes(w, base, positions, n)
      {
        var executes;
        bucket, executes := CopyRow(w, parent, child, base, positions, n, bucket);
        mayExecute := mayExecute || executes;
      }
    }

    method CopyRow(ghost w: View, ghost parent: u32, child: u32, base: Bucket, positions: seq<nat>, n: nat,
                   bucket: Bucket)
      returns (next: Bucket, executes: bool)
      requires mappings.Valid() && Copying(w, parent, child, base, positions, n, bucket, mappings.view)
      requires n < |positions|
      modifies mappings
      ensures mappings.Valid() && Copying(w, parent, child, base, positions, n + 1, next, mappings.view)
      ensures executes <==> CopyExecutes(w, base, positions, n)
    {
      ghost var now := mappings.view;
      NextCopy(w, parent, child, base, positions, n, bucket, now);
      var mapping := mappings.Get(base[positions[n]].index);
      executes := mapping.value.image.MayExecute();
      var index := mappings.Insert(mapping.value.(pid := child));
      next := bucket[positions[n] := bucket[positions[n]].(index := index)];
      CopyStep(w, parent, child, base, positions, n, bucket, now, index);
    }

    // A published module's text offset replaces the recorded one; ranges do not move.
    method MoveOffset(slot: nat, offset: u64)
      requires Valid() && slot in mappings.view.entries
      modifies mappings
      ensures Valid()
      ensures mappings.view ==
                Updated(old(mappings.view), slot, old(mappings.view.entries)[slot].mapping.(pgoff := offset))
    {
      ghost var v := mappings.view;
      var mapping := mappings.Get(slot);
      mappings.Update(slot, mapping.value.(pgoff := offset));
      OffsetCoherent(IndexState(), v, slot, offset);
    }

    // Replays a run of mmap, fork and release records.
    method Replay(events: seq<Event>)
      requires Valid()
      modifies this, mappings
      ensures Valid() && generation == old(generation)
      ensures Rows() == ApplyEvents(old(Rows()), events)
      ensures old(mappings.view.births) <= mappings.view.births
    {
      ghost var rows, births := Rows(), mappings.view.births;
      for n := 0 to |events|
        invariant Valid() && generation == old(generation)
        invariant Rows() == ApplyEvents(rows, events[..n]) && births <= mappings.view.births
      {
        assert events[..n + 1][..n] == events[..n];
        ReplayEvent(events[n]);
      }
      assert events[..|events|] == events;
    }

    method ReplayEvent(event: Event)
      requires Valid()
      modifies this, mappings
      ensures Valid() && generation == old(generation)
      ensures Rows() == ApplyEvent(old(Rows()), event)
      ensures old(mappings.view.births) <= mappings.view.births
    {
      match event
      case Mmap(mapping) => InsertMapping(mapping);
      case Fork(parent, child) => ClonePidMappings(parent, child);
      case Release(pid) => RemovePidMappings(pid);
    }

    // Presence of a process counts the global maps too.
    method HasMappingsForPid(pid: u32) returns (r: bool)
      requires Valid()
      ensures r <==> HasRow(Rows(), pid) || HasRow(Rows(), GLOBAL_PID)
    {
      PresenceOfRows(IndexState(), mappings.view, pid);
      PresenceOfRows(IndexState(), mappings.view, GLOBAL_PID);
      r := hasGlobalMappings || pid in pidsWithMappings;
    }

    method HasExecutableMappingsForPid(pid: u32) returns (r: bool)
      requires Valid()
      ensures r <==> HasExecutableRow(Rows(), pid) || HasExecutableRow(Rows(), GLOBAL_PID)
    {
      PresenceOfRows(IndexState(), mappings.view, pid);
      PresenceOfRows(IndexState(), mappings.view, GLOBAL_PID);
      r := hasGlobalExecutableMappings || pid in executablePids;
    }
  }
}
