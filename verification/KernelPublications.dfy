// Publishing a loaded kernel module in the table: it does to the flat list exactly what
// KernelRows.Publish says, and keeps the whole representation invariant.
module KernelPublications {
  import opened Basics
  import opened MappingRows
  import opened KernelRows
  import opened MappingArenas
  import opened MappingOrders
  import opened MmapIndexes
  import opened MmapSteps
  import opened MmapTables

  // ----- Clipping ----------------------------------------------------------

  ghost predicate KernelMap(entries: Entries, pid: u32, i: nat) {
    i in entries && entries[i].mapping.pid == pid && entries[i].mapping.image.cpumode == Kernel
  }

  ghost predicate Earlier(entries: Entries, i: nat, j: nat) {
    && i in entries && j in entries
    && (entries[i].mapping.start < entries[j].mapping.start
        || (entries[i].mapping.start == entries[j].mapping.start && entries[i].id < entries[j].id))
  }

  // Kernel slots of a process in bucket order.
  ghost predicate KernelOrder(entries: Entries, pid: u32, slots: seq<nat>) {
    && (forall k :: 0 <= k < |slots| ==> KernelMap(entries, pid, slots[k]))
    && (forall j, k :: 0 <= j < k < |slots| ==> Earlier(entries, slots[j], slots[k]))
    && (forall i {:trigger Placed(slots, i)} :: KernelMap(entries, pid, i) ==> Placed(slots, i))
  }

  function NextInOrder(entries: Entries, slots: seq<nat>, k: nat): Option<u64>
    requires k < |slots|
  {
    if k + 1 < |slots| && slots[k + 1] in entries then Some(entries[slots[k + 1]].mapping.start) else None
  }

  // The entries after the first n kernel maps have been clipped.
  function Clipped(entries: Entries, slots: seq<nat>, n: nat): Entries
    requires n <= |slots| && forall k :: 0 <= k < |slots| ==> slots[k] in entries
  {
    if n == 0 then entries
    else
      var e := entries[slots[n - 1]];
      Clipped(entries, slots, n - 1)[slots[n - 1] := e.(mapping := Clip(e.mapping, NextInOrder(entries, slots, n - 1)))]
  }

  lemma {:induction false} ClippedOthers(entries: Entries, slots: seq<nat>, n: nat, i: nat)
    requires n <= |slots| && (forall k :: 0 <= k < |slots| ==> slots[k] in entries)
    requires forall k :: 0 <= k < n ==> slots[k] != i
    ensures i in Clipped(entries, slots, n) <==> i in entries
    ensures i in entries ==> Clipped(entries, slots, n)[i] == entries[i]
  {
    if n > 0 { ClippedOthers(entries, slots, n - 1, i); }
  }

  lemma {:induction false} ClippedSlot(entries: Entries, slots: seq<nat>, n: nat, k: nat)
    requires k < n <= |slots| && (forall j :: 0 <= j < |slots| ==> slots[j] in entries)
    requires forall i, j :: 0 <= i < j < |slots| ==> slots[i] != slots[j]
    ensures slots[k] in Clipped(entries, slots, n)
    ensures Clipped(entries, slots, n)[slots[k]]
            == entries[slots[k]].(mapping := Clip(entries[slots[k]].mapping, NextInOrder(entries, slots, k)))
  {
    if k < n - 1 { ClippedSlot(entries, slots, n - 1, k); }
  }

  // Nothing but a kernel map's length changes.
  ghost predicate ClippedAt(before: Entries, after: Entries, pid: u32, i: nat) {
    && (i in before <==> i in after)
    && (i in before && i in after ==>
          && after[i].id == before[i].id
          && after[i].mapping == before[i].mapping.(len := after[i].mapping.len)
          && (!KernelMap(before, pid, i) ==> after[i] == before[i]))
  }

  ghost predicate OnlyClipped(before: Entries, after: Entries, pid: u32) {
    forall i: nat {:trigger ClippedAt(before, after, pid, i)} :: ClippedAt(before, after, pid, i)
  }

  lemma KernelDistinct(entries: Entries, pid: u32, slots: seq<nat>)
    requires KernelOrder(entries, pid, slots)
    ensures forall k :: 0 <= k < |slots| ==> slots[k] in entries
    ensures forall i, j :: 0 <= i < j < |slots| ==> slots[i] != slots[j]
  {
    forall i, j | 0 <= i < j < |slots| ensures slots[i] != slots[j] {
      assert Earlier(entries, slots[i], slots[j]);
    }
  }

  lemma ClippedOnly(entries: Entries, pid: u32, slots: seq<nat>)
    requires KernelOrder(entries, pid, slots) && (forall k :: 0 <= k < |slots| ==> slots[k] in entries)
    ensures OnlyClipped(entries, Clipped(entries, slots, |slots|), pid)
  {
    KernelDistinct(entries, pid, slots);
    var after := Clipped(entries, slots, |slots|);
    forall i: nat ensures ClippedAt(entries, after, pid, i) {
      if Placed(slots, i) {
        var k :| 0 <= k < |slots| && slots[k] == i;
        ClippedSlot(entries, slots, |slots|, k);
      } else {
        ClippedOthers(entries, slots, |slots|, i);
      }
    }
  }

  lemma EarlierFollows(entries: Entries, pid: u32, slots: seq<nat>, k: nat, l: nat)
    requires KernelOrder(entries, pid, slots) && k < |slots| && l < |slots| && k != l
    ensures Earlier(entries, slots[k], slots[l]) <==> k < l
  {
    if k < l {
      assert Earlier(entries, slots[k], slots[l]);
    } else {
      assert Earlier(entries, slots[l], slots[k]);
    }
  }

  // ----- Clipping slots clips rows -----------------------------------------

  lemma PlaceIsRow(v: View, pid: u32, p: nat)
    requires Ordered(v.order, v.entries) && p < |v.order|
    ensures v.order[p] in v.entries && RowsOf(v.order, v.entries)[p] == v.entries[v.order[p]].mapping
    ensures InKernel(RowsOf(v.order, v.entries)[p], pid) <==> KernelMap(v.entries, pid, v.order[p])
  {
  }

  // Places and slots follow each other alike.
  lemma FollowsIsEarlier(v: View, p: nat, q: nat)
    requires Ordered(v.order, v.entries) && p < |v.order| && q < |v.order| && p != q
    ensures Follows(RowsOf(v.order, v.entries), p, q) <==> Earlier(v.entries, v.order[p], v.order[q])
  {
    assert InsertedBefore(v.order, v.entries, if p < q then p else q, if p < q then q else p);
  }

  lemma PlaceOf(order: seq<nat>, i: nat) returns (p: nat)
    requires Placed(order, i)
    ensures p < |order| && order[p] == i
  {
    p :| p < |order| && order[p] == i;
  }

  // The next kernel slot in order has the least start of the kernel rows that follow.
  lemma NextIsNext(v: View, pid: u32, slots: seq<nat>, k: nat, p: nat)
    requires Ordered(v.order, v.entries) && KernelOrder(v.entries, pid, slots) && k < |slots|
    requires p < |v.order| && v.order[p] == slots[k]
    ensures NextInOrder(v.entries, slots, k) == NextStart(RowsOf(v.order, v.entries), pid, p)
  {
    var rows := RowsOf(v.order, v.entries);
    forall q: nat | KernelAfter(rows, pid, p, q)
      ensures k + 1 < |slots| && slots[k + 1] in v.entries && v.entries[slots[k + 1]].mapping.start <= rows[q].start
    {
      LaterKernel(v, pid, slots, k, p, q);
    }
    if k + 1 < |slots| {
      KernelDistinct(v.entries, pid, slots);
      assert Placed(v.order, slots[k + 1]);
      var q := PlaceOf(v.order, slots[k + 1]);
      PlaceIsRow(v, pid, q);
      assert p != q && Earlier(v.entries, slots[k], slots[k + 1]);
      FollowsIsEarlier(v, p, q);
      assert KernelAfter(rows, pid, p, q);
      NextStartIs(rows, pid, p, rows[q].start);
    } else {
      NoNextStart(rows, pid, p);
    }
  }

  lemma LaterKernel(v: View, pid: u32, slots: seq<nat>, k: nat, p: nat, q: nat)
    requires Ordered(v.order, v.entries) && KernelOrder(v.entries, pid, slots) && k < |slots|
    requires p < |v.order| && v.order[p] == slots[k]
    requires KernelAfter(RowsOf(v.order, v.entries), pid, p, q)
    ensures k + 1 < |slots| && slots[k + 1] in v.entries
    ensures v.entries[slots[k + 1]].mapping.start <= RowsOf(v.order, v.entries)[q].start
  {
    PlaceIsRow(v, pid, q);
    assert p != q;
    FollowsIsEarlier(v, p, q);
    assert Placed(slots, v.order[q]);
    var l := PlaceOf(slots, v.order[q]);
    KernelDistinct(v.entries, pid, slots);
    EarlierFollows(v.entries, pid, slots, k, l);
    if k + 1 < l { assert Earlier(v.entries, slots[k + 1], slots[l]); }
  }

  lemma ClippedRows(v: View, pid: u32, slots: seq<nat>)
    requires Ordered(v.order, v.entries) && KernelOrder(v.entries, pid, slots)
    requires forall k :: 0 <= k < |slots| ==> slots[k] in v.entries
    requires forall p :: 0 <= p < |v.order| ==> v.order[p] in Clipped(v.entries, slots, |slots|)
    ensures RowsOf(v.order, Clipped(v.entries, slots, |slots|)) == ClipRows(RowsOf(v.order, v.entries), pid)
  {
    var rows, after := RowsOf(v.order, v.entries), Clipped(v.entries, slots, |slots|);
    forall p: nat | p < |v.order| ensures after[v.order[p]].mapping == ClipRow(rows, pid, p) {
      PlaceIsRow(v, pid, p);
      if KernelMap(v.entries, pid, v.order[p]) {
        assert Placed(slots, v.order[p]);
        var k := PlaceOf(slots, v.order[p]);
        KernelDistinct(v.entries, pid, slots);
        ClippedSlot(v.entries, slots, |slots|, k);
        NextIsNext(v, pid, slots, k, p);
      } else {
        ClippedOthers(v.entries, slots, |slots|, v.order[p]);
      }
    }
  }

  // ----- The clipping pass -------------------------------------------------

  lemma ClippedView(v: View, pid: u32, slots: seq<nat>, n: nat)
    requires Ordered(v.order, v.entries) && KernelOrder(v.entries, pid, slots) && n < |slots|
    requires forall k :: 0 <= k < |slots| ==> slots[k] in v.entries
    ensures var now := Clipped(v.entries, slots, n);
            slots[n] in now && now[slots[n]] == v.entries[slots[n]]
            && Clipped(v.entries, slots, n + 1)
               == now[slots[n] := now[slots[n]].(mapping := Clip(now[slots[n]].mapping,
                                                                 NextInOrder(v.entries, slots, n)))]
    ensures n + 1 < |slots| ==> var now := Clipped(v.entries, slots, n);
            slots[n + 1] in now && now[slots[n + 1]] == v.entries[slots[n + 1]]
  {
    KernelDistinct(v.entries, pid, slots);
    ClippedOthers(v.entries, slots, n, slots[n]);
    if n + 1 < |slots| { ClippedOthers(v.entries, slots, n, slots[n + 1]); }
  }

  lemma OnlyClippedIndex(pid: u32, bucket: Bucket, before: Entries, after: Entries)
    requires OnlyClipped(before, after, pid)
    requires Arranged(pid, bucket, before) && ListsPid(pid, bucket, before)
    ensures Arranged(pid, bucket, after) && ListsPid(pid, bucket, after)
    ensures OnlyPidChanges(pid, before, after)
  {
    forall k | 0 <= k < |bucket| ensures Describes(bucket[k], pid, after) {
      assert Describes(bucket[k], pid, before) && ClippedAt(before, after, pid, bucket[k].index);
    }
    forall j, k | 0 <= j < k < |bucket| ensures Precedes(bucket[j], bucket[k], after) {
      assert Describes(bucket[j], pid, before) && Describes(bucket[k], pid, before);
      assert ClippedAt(before, after, pid, bucket[j].index) && ClippedAt(before, after, pid, bucket[k].index);
      assert Precedes(bucket[j], bucket[k], before);
    }
    forall i | i in after && after[i].mapping.pid == pid ensures Lists(bucket, i) {
      assert ClippedAt(before, after, pid, i);
    }
    forall i: nat
      ensures i in before && before[i].mapping.pid != pid ==> i in after && after[i] == before[i]
      ensures i in after && after[i].mapping.pid != pid ==> i in before && after[i] == before[i]
    {
      assert ClippedAt(before, after, pid, i);
    }
  }

  method KernelSlots(table: MmapTable, pid: u32, bucket: Bucket) returns (slots: seq<nat>)
    requires table.mappings.Valid()
    requires Arranged(pid, bucket, table.mappings.view.entries) && ListsPid(pid, bucket, table.mappings.view.entries)
    ensures KernelOrder(table.mappings.view.entries, pid, slots)
    ensures forall k :: 0 <= k < |slots| ==> slots[k] in table.mappings.view.entries
  {
    ghost var entries := table.mappings.view.entries;
    slots := [];
    for n := 0 to |bucket|
      invariant forall k :: 0 <= k < |slots| ==> KernelMap(entries, pid, slots[k])
      invariant forall j, k :: 0 <= j < k < |slots| ==> Earlier(entries, slots[j], slots[k])
      invariant forall k, j :: 0 <= k < |slots| && n <= j < |bucket| ==> Earlier(entries, slots[k], bucket[j].index)
      invariant forall k :: 0 <= k < n && KernelMap(entries, pid, bucket[k].index) ==> Placed(slots, bucket[k].index)
    {
      assert Describes(bucket[n], pid, entries);
      RowEarlier(pid, bucket, entries, n);
      var mapping := table.mappings.Get(bucket[n].index);
      if mapping.value.image.cpumode == Kernel {
        PlacedStill(slots, bucket[n].index);
        slots := slots + [bucket[n].index];
      }
    }
    forall i | KernelMap(entries, pid, i) ensures Placed(slots, i) {
      assert Lists(bucket, i);
      var k :| 0 <= k < |bucket| && bucket[k].index == i;
    }
  }

  lemma RowEarlier(pid: u32, bucket: Bucket, entries: Entries, n: nat)
    requires Arranged(pid, bucket, entries) && n < |bucket|
    ensures forall j :: n < j < |bucket| ==> Earlier(entries, bucket[n].index, bucket[j].index)
  {
    forall j | n < j < |bucket| ensures Earlier(entries, bucket[n].index, bucket[j].index) {
      assert Describes(bucket[n], pid, entries) && Describes(bucket[j], pid, entries);
      assert Precedes(bucket[n], bucket[j], entries);
    }
  }

  lemma PlacedStill(slots: seq<nat>, x: nat)
    ensures Placed(slots + [x], x)
    ensures forall i :: Placed(slots, i) ==> Placed(slots + [x], i)
  {
    var grown := slots + [x];
    assert grown[|slots|] == x;
    forall i | Placed(slots, i) ensures Placed(grown, i) {
      var k :| 0 <= k < |slots| && slots[k] == i;
      assert grown[k] == i;
    }
  }

  lemma ClipDone(v: View, pid: u32, bucket: Bucket, slots: seq<nat>)
    requires Ordered(v.order, v.entries) && KernelOrder(v.entries, pid, slots)
    requires BucketOk(pid, bucket, v.entries) && ListsPid(pid, bucket, v.entries)
    requires forall k :: 0 <= k < |slots| ==> slots[k] in v.entries
    ensures var after := Clipped(v.entries, slots, |slots|);
            OnlyPidChanges(pid, v.entries, after) && Arranged(pid, bucket, after) && ListsPid(pid, bucket, after)
            && (forall p :: 0 <= p < |v.order| ==> v.order[p] in after)
            && RowsOf(v.order, after) == ClipRows(RowsOf(v.order, v.entries), pid)
  {
    ClippedOnly(v.entries, pid, slots);
    OnlyClippedIndex(pid, bucket, v.entries, Clipped(v.entries, slots, |slots|));
    StillOrdered(v.order, v.entries, Clipped(v.entries, slots, |slots|), pid);
    ClippedRows(v, pid, slots);
  }

  lemma StillOrdered(order: seq<nat>, before: Entries, after: Entries, pid: u32)
    requires Ordered(order, before) && OnlyClipped(before, after, pid)
    ensures forall p :: 0 <= p < |order| ==> order[p] in after
  {
    forall p | 0 <= p < |order| ensures order[p] in after {
      assert ClippedAt(before, after, pid, order[p]);
    }
  }

  lemma LiveIsIndexed(ix: Index, entries: Entries, i: nat)
    requires Coherent(ix, entries) && i in entries
    ensures entries[i].mapping.pid in ix.buckets
  {
    assert PidIndexed(ix, entries, entries[i].mapping.pid);
    assert Lists(BucketOf(ix, entries[i].mapping.pid), i);
  }

  // Clips every kernel map of the process to the next one's start and rebuilds the index.
  method ClipKernelMaps(table: MmapTable, pid: u32)
    requires table.Valid() && pid in table.mappingsByPid
    modifies table, table.mappings
    ensures table.Valid() && table.generation == old(table.generation)
    ensures table.Rows() == ClipRows(old(table.Rows()), pid)
    ensures ClippedExactly(old(table.Rows()), table.Rows(), pid)
    ensures table.mappings.view.births == old(table.mappings.view.births)
  {
    ghost var ix, before := table.IndexState(), table.mappings.view.entries;
    ClipIsExact(table.Rows(), pid);
    BucketsOk(ix, before, pid);
    ClipBucket(table, pid, table.BucketFor(pid));
    assert ix.buckets[pid := ix.buckets[pid]] == ix.buckets;
    table.RebuildPidIndex(pid, ix, before);
  }

  method ClipBucket(table: MmapTable, pid: u32, bucket: Bucket)
    requires table.mappings.Valid()
    requires BucketOk(pid, bucket, table.mappings.view.entries) && ListsPid(pid, bucket, table.mappings.view.entries)
    modifies table.mappings
    ensures table.mappings.Valid() && table.mappings.view.births == old(table.mappings.view.births)
    ensures table.mappings.Rows() == ClipRows(old(table.mappings.Rows()), pid)
    ensures Arranged(pid, bucket, table.mappings.view.entries) && ListsPid(pid, bucket, table.mappings.view.entries)
    ensures OnlyPidChanges(pid, old(table.mappings.view.entries), table.mappings.view.entries)
  {
    ghost var v := table.mappings.view;
    var slots := KernelSlots(table, pid, bucket);
    ClipDone(v, pid, bucket, slots);
    ClipSlots(table.mappings, pid, slots);
  }

  method ClipSlots(mappings: MappingArena, ghost pid: u32, slots: seq<nat>)
    requires mappings.Valid() && KernelOrder(mappings.view.entries, pid, slots)
    requires forall k :: 0 <= k < |slots| ==> slots[k] in mappings.view.entries
    modifies mappings
    ensures mappings.Valid()
    ensures mappings.view == old(mappings.view).(entries := Clipped(old(mappings.view.entries), slots, |slots|))
  {
    ghost var v := mappings.view;
    for k := 0 to |slots|
      invariant mappings.Valid() && mappings.view == v.(entries := Clipped(v.entries, slots, k))
    {
      ClipSlot(mappings, v, pid, slots, k);
    }
  }

  method ClipSlot(mappings: MappingArena, ghost v: View, ghost pid: u32, slots: seq<nat>, k: nat)
    requires mappings.Valid() && Ordered(v.order, v.entries) && KernelOrder(v.entries, pid, slots) && k < |slots|
    requires forall j :: 0 <= j < |slots| ==> slots[j] in v.entries
    requires mappings.view == v.(entries := Clipped(v.entries, slots, k))
    modifies mappings
    ensures mappings.Valid() && mappings.view == v.(entries := Clipped(v.entries, slots, k + 1))
  {
    ClippedView(v, pid, slots, k);
    var mapping := mappings.Get(slots[k]);
    var next: Option<Mapping> := None;
    if k + 1 < |slots| { next := mappings.Get(slots[k + 1]); }
    mappings.Update(slots[k], Clip(mapping.value, if next.Some? then Some(next.value.start) else None));
  }

  // ----- Publishing a module -----------------------------------------------

  class DsoRegistry {
    var entries: seq<NativeDso>

    constructor (entries: seq<NativeDso>)
      ensures this.entries == entries
    {
      this.entries := entries;
    }
  }

  ghost function StateOf(table: MmapTable, dsos: DsoRegistry): State
    requires table.Valid()
    reads table, table.mappings, dsos
  {
    State(table.Rows(), dsos.entries)
  }

  lemma {:induction false} HasNameAt(rows: seq<Mapping>, pid: u32, name: string)
    ensures HasName(rows, pid, name) <==> exists k {:trigger Named(rows[k], pid, name)} ::
              0 <= k < |rows| && Named(rows[k], pid, name)
  {
    if rows != [] {
      var n := |rows| - 1;
      HasNameAt(rows[..n], pid, name);
      if HasName(rows[..n], pid, name) {
        var k :| 0 <= k < n && Named(rows[..n][k], pid, name);
        assert Named(rows[k], pid, name);
      }
      forall k | 0 <= k < |rows| && Named(rows[k], pid, name) ensures HasName(rows, pid, name) {
        if k < n { assert Named(rows[..n][k], pid, name); }
      }
    }
  }

  // The bucket is searched for the name of a kernel map.
  method HasKernelName(table: MmapTable, pid: u32, name: string) returns (found: bool)
    requires table.Valid()
    ensures found <==> HasName(table.Rows(), pid, name)
  {
    ghost var v, rows := table.mappings.view, table.Rows();
    HasNameAt(rows, pid, name);
    BucketsOk(table.IndexState(), v.entries, pid);
    var bucket := table.BucketFor(pid);
    for n := 0 to |bucket|
      invariant forall k :: 0 <= k < n ==> Unnamed(v.entries, pid, name, bucket[k].index)
    {
      assert Describes(bucket[n], pid, v.entries);
      var mapping := table.mappings.Get(bucket[n].index);
      if mapping.value.image.cpumode == Kernel && mapping.value.image.DisplayPath() == name {
        assert Placed(v.order, bucket[n].index);
        ghost var p := PlaceOf(v.order, bucket[n].index);
        assert Named(rows[p], pid, name);
        return true;
      }
    }
    forall p | 0 <= p < |rows| ensures !Named(rows[p], pid, name) {
      if rows[p].pid == pid {
        assert Lists(bucket, v.order[p]);
        var k :| 0 <= k < |bucket| && bucket[k].index == v.order[p];
        assert Unnamed(v.entries, pid, name, bucket[k].index);
      }
    }
    found := false;
  }

  ghost predicate Unnamed(entries: Entries, pid: u32, name: string, i: nat) {
    i in entries ==> !Named(entries[i].mapping, pid, name)
  }

  // A name already present leaves the table and the registry alone; otherwise exactly the
  // section's child is inserted, as it is, under a new registered object.
  method AddSectionMap(table: MmapTable, dsos: DsoRegistry, load: Module, k: nat)
    requires table.Valid() && k < |load.metadata.maps|
    modifies table, table.mappings, dsos
    ensures table.Valid() && table.generation == old(table.generation)
    ensures StateOf(table, dsos) == AddSection(old(StateOf(table, dsos)), load, k)
    ensures var name := load.shortName + load.metadata.maps[k].section;
            if old(HasName(table.Rows(), load.parent.pid, name)) then table.mappings.view == old(table.mappings.view)
            else
              var child := SectionChild(load.parent, load.metadata.maps[k], name, old(|dsos.entries|), load.metadata);
              table.mappings.view.births == old(table.mappings.view.births) + [child]
  {
    var section, name := load.metadata.maps[k], load.shortName + load.metadata.maps[k].section;
    var present := HasKernelName(table, load.parent.pid, name);
    if present { return; }
    var child := SectionChild(load.parent, section, name, |dsos.entries|, load.metadata);
    dsos.entries := dsos.entries + [NativeDso(name, true)];
    var _ := table.InsertWithoutOverlapFix(child);
  }

  ghost predicate SectionsAdded(s: State, load: Module, published: nat, count: nat, now: State)
    requires count <= |load.metadata.maps|
  {
    AddSections(s, load, published, count) == now
  }

  method AddSectionMaps(table: MmapTable, dsos: DsoRegistry, load: Module,
                        published: nat, count: nat)
    requires table.Valid() && published <= count <= |load.metadata.maps|
    modifies table, table.mappings, dsos
    ensures table.Valid() && table.generation == old(table.generation)
    ensures SectionsAdded(old(StateOf(table, dsos)), load, published, count, StateOf(table, dsos))
    ensures old(table.mappings.view.births) <= table.mappings.view.births
  {
    ghost var s, births := StateOf(table, dsos), table.mappings.view.births;
    NoSectionAdded(s, load, published);
    for k := published to count
      invariant table.Valid() && table.generation == old(table.generation) && births <= table.mappings.view.births
      invariant SectionsAdded(s, load, published, k, StateOf(table, dsos))
    {
      AddNextSection(table, dsos, load, s, published, k);
    }
  }

  lemma NoSectionAdded(s: State, load: Module, published: nat)
    requires published <= |load.metadata.maps|
    ensures SectionsAdded(s, load, published, published, s)
  {
  }

  method AddNextSection(table: MmapTable, dsos: DsoRegistry, load: Module, ghost s: State, ghost published: nat, k: nat)
    requires table.Valid() && published <= k < |load.metadata.maps|
    requires SectionsAdded(s, load, published, k, StateOf(table, dsos))
    modifies table, table.mappings, dsos
    ensures table.Valid() && table.generation == old(table.generation)
    ensures SectionsAdded(s, load, published, k + 1, StateOf(table, dsos))
    ensures old(table.mappings.view.births) <= table.mappings.view.births
  {
    AddSectionMap(table, dsos, load, k);
  }

  lemma RowIsIndexed(table: MmapTable, pid: u32)
    requires table.Valid() && HasRow(table.Rows(), pid)
    ensures pid in table.mappingsByPid
  {
    var rows, v := table.Rows(), table.mappings.view;
    var p :| 0 <= p < |rows| && rows[p].pid == pid;
    LiveIsIndexed(table.IndexState(), v.entries, v.order[p]);
  }

  // One accepted symbol table: its sections join the bucket, then every kernel map of the
  // process is clipped, even when nothing new was added.
  method AcceptTable(table: MmapTable, dsos: DsoRegistry, load: Module,
                     published: nat, count: nat)
    requires table.Valid() && published <= count <= |load.metadata.maps| && HasRow(table.Rows(), load.parent.pid)
    modifies table, table.mappings, dsos
    ensures table.Valid() && table.generation == old(table.generation) && HasRow(table.Rows(), load.parent.pid)
    ensures var added := AddSections(old(StateOf(table, dsos)), load, published, count);
            StateOf(table, dsos) == added.(rows := ClipRows(added.rows, load.parent.pid))
    ensures old(table.mappings.view.births) <= table.mappings.view.births
  {
    ghost var s := StateOf(table, dsos);
    AddSectionMaps(table, dsos, load, published, count);
    RowStays(s, load, published, count);
    RowIsIndexed(table, load.parent.pid);
    ClipKernelMaps(table, load.parent.pid);
  }

  lemma {:induction false} RowStays(s: State, load: Module, published: nat, count: nat)
    requires count <= |load.metadata.maps| && HasRow(s.rows, load.parent.pid)
    ensures var added := AddSections(s, load, published, count);
            HasRow(added.rows, load.parent.pid) && HasRow(ClipRows(added.rows, load.parent.pid), load.parent.pid)
  {
    if published < count {
      RowStays(s, load, published, count - 1);
      var before := AddSections(s, load, published, count - 1);
      var k :| 0 <= k < |before.rows| && before.rows[k].pid == load.parent.pid;
      var added := AddSections(s, load, published, count);
      assert added.rows[k].pid == load.parent.pid && ClipRows(added.rows, load.parent.pid)[k].pid == load.parent.pid;
    } else {
      var k :| 0 <= k < |s.rows| && s.rows[k].pid == load.parent.pid;
      assert ClipRows(s.rows, load.parent.pid)[k].pid == load.parent.pid;
    }
  }

  method AcceptSymbolTables(table: MmapTable, dsos: DsoRegistry, load: Module)
    requires table.Valid() && load.metadata.WellCounted() && HasRow(table.Rows(), load.parent.pid)
    modifies table, table.mappings, dsos
    ensures table.Valid() && table.generation == old(table.generation)
    ensures StateOf(table, dsos) == AcceptTables(old(StateOf(table, dsos)), load, |load.metadata.tableMapCounts|)
    ensures old(table.mappings.view.births) <= table.mappings.view.births
  {
    ghost var s, births := StateOf(table, dsos), table.mappings.view.births;
    var published: nat := 0;
    for n := 0 to |load.metadata.tableMapCounts|
      invariant table.Valid() && table.generation == old(table.generation) && births <= table.mappings.view.births
      invariant published == load.metadata.CountAfter(n) && HasRow(table.Rows(), load.parent.pid)
      invariant StateOf(table, dsos) == AcceptTables(s, load, n)
    {
      assert load.metadata.CountAfter(n) <= load.metadata.CountAfter(n + 1) <= |load.metadata.maps|;
      AcceptTable(table, dsos, load, published, load.metadata.tableMapCounts[n]);
      published := load.metadata.tableMapCounts[n];
    }
  }

  ghost predicate Live(entries: Entries, cursor: KernelMapCursor) {
    cursor.slot in entries && entries[cursor.slot].id == cursor.insertionId
  }

  // A stale cursor or a module already loaded publishes nothing. Otherwise the rows and the
  // registered objects become exactly those of the flat list's publication.
  method PublishKernelModule(table: MmapTable, dsos: DsoRegistry, cursor: KernelMapCursor, metadata: LoadedModule)
    returns (ghost place: nat)
    requires table.Valid()
    requires Live(table.mappings.view.entries, cursor) ==>
               table.mappings.view.entries[cursor.slot].mapping.image.dso < |dsos.entries|
    modifies table, table.mappings, dsos
    ensures table.Valid() && old(table.mappings.view.births) <= table.mappings.view.births
    ensures !Live(old(table.mappings.view.entries), cursor) ==>
              StateOf(table, dsos) == old(StateOf(table, dsos)) && table.generation == old(table.generation)
    ensures Live(old(table.mappings.view.entries), cursor) ==>
              && place < |old(table.mappings.view.order)| && old(table.mappings.view.order)[place] == cursor.slot
              && old(table.Rows())[place].image.dso < |old(dsos.entries)|
              && StateOf(table, dsos) == Publish(old(StateOf(table, dsos)), place, metadata)
              && (old(table.Rows())[place].image.cpumode == Kernel ==>
                    Published(old(StateOf(table, dsos)), place, metadata, StateOf(table, dsos)))
              && table.generation == old(table.generation)
                 + if metadata.hasSymbols && !old(dsos.entries)[old(table.Rows())[place].image.dso].loaded then 1 else 0
  {
    ghost var s, v := StateOf(table, dsos), table.mappings.view;
    place := PublishAtCursor(table, dsos, cursor, metadata);
    if Live(v.entries, cursor) && s.rows[place].image.cpumode == Kernel { PublishAdds(s, place, metadata); }
  }

  method PublishAtCursor(table: MmapTable, dsos: DsoRegistry, cursor: KernelMapCursor, metadata: LoadedModule)
    returns (ghost place: nat)
    requires table.Valid()
    requires Live(table.mappings.view.entries, cursor) ==>
               table.mappings.view.entries[cursor.slot].mapping.image.dso < |dsos.entries|
    modifies table, table.mappings, dsos
    ensures table.Valid() && old(table.mappings.view.births) <= table.mappings.view.births
    ensures !Live(old(table.mappings.view.entries), cursor) ==>
              StateOf(table, dsos) == old(StateOf(table, dsos)) && table.generation == old(table.generation)
    ensures Live(old(table.mappings.view.entries), cursor) ==>
              && place < |old(table.mappings.view.order)| && old(table.mappings.view.order)[place] == cursor.slot
              && old(table.Rows())[place].image.dso < |old(dsos.entries)|
              && StateOf(table, dsos) == Publish(old(StateOf(table, dsos)), place, metadata)
              && table.generation == old(table.generation)
                 + if metadata.hasSymbols && !old(dsos.entries)[old(table.Rows())[place].image.dso].loaded then 1 else 0
  {
    ghost var v := table.mappings.view;
    place := 0;
    var parent := table.mappings.GetCursor(cursor);
    if parent.None? { return; }
    assert Placed(v.order, cursor.slot);
    place := PlaceOf(v.order, cursor.slot);
    var dso := parent.value.image.dso;
    if dsos.entries[dso].loaded { return; }
    dsos.entries := dsos.entries[dso := dsos.entries[dso].(loaded := true)];
    if !metadata.hasSymbols { return; }
    PublishSymbols(table, dsos, place, cursor.slot, Module(parent.value, dsos.entries[dso].shortName, metadata));
  }

  method PublishSymbols(table: MmapTable, dsos: DsoRegistry, ghost place: nat, slot: nat, load: Module)
    requires table.Valid() && load.metadata.WellCounted()
    requires place < |table.mappings.view.order| && table.mappings.view.order[place] == slot
    requires table.Rows()[place] == load.parent
    modifies table, table.mappings, dsos
    ensures table.Valid() && table.generation == old(table.generation) + 1
    ensures var moved := State(Moved(old(table.Rows()), place, load.metadata.textOffset), old(dsos.entries));
            StateOf(table, dsos) == AcceptTables(moved, load, |load.metadata.tableMapCounts|)
    ensures old(table.mappings.view.births) <= table.mappings.view.births
  {
    MoveParent(table, place, slot, load.metadata.textOffset);
    assert table.Rows()[place].pid == load.parent.pid;
    AcceptSymbolTables(table, dsos, load);
    table.generation := table.generation + 1;
  }

  method MoveParent(table: MmapTable, ghost place: nat, slot: nat, textOffset: Option<u64>)
    requires table.Valid() && place < |table.mappings.view.order| && table.mappings.view.order[place] == slot
    modifies table.mappings
    ensures table.Valid() && table.Rows() == Moved(old(table.Rows()), place, textOffset)
    ensures table.mappings.view.births == old(table.mappings.view.births)
  {
    if textOffset.Some? {
      ghost var v := table.mappings.view;
      table.MoveOffset(slot, textOffset.value);
      MovedRows(v, place, textOffset.value);
    }
  }

  lemma MovedRows(v: View, p: nat, offset: u64)
    requires Ordered(v.order, v.entries) && p < |v.order|
    requires var w := Updated(v, v.order[p], v.entries[v.order[p]].mapping.(pgoff := offset));
                 Ordered(w.order, w.entries)
    ensures var w := Updated(v, v.order[p], v.entries[v.order[p]].mapping.(pgoff := offset));
            RowsOf(w.order, w.entries) == Moved(RowsOf(v.order, v.entries), p, Some(offset))
  {
    AllDistinct(v.order, v.entries);
  }

  // A cursor later yields the map it was taken on or nothing: a map found under its slot
  // and insertion id is the one that was there, whatever happened to the table in between.
  lemma CursorKeepsItsMap(s: Storage, v: View, t: Storage, w: View, cursor: KernelMapCursor)
    requires Consistent(s, v) && Consistent(t, w) && v.births <= w.births
    requires Live(v.entries, cursor) && Live(w.entries, cursor)
    ensures SameMap(w.entries[cursor.slot].mapping, v.entries[cursor.slot].mapping)
  {
    assert BornAt(v.births, v.entries, cursor.slot) && BornAt(w.births, w.entries, cursor.slot);
    assert v.births[cursor.insertionId] == w.births[cursor.insertionId];
  }
}
