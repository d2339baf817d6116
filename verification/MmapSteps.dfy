// The lemmas behind each table operation: what an insert, an overlap removal, a release and
// a fork do to the index and to the flat list.
module MmapSteps {
  import opened Basics
  import opened MappingRows
  import opened MappingFacts
  import opened MappingArenas
  import opened MappingOrders
  import opened MmapIndexes

  lemma ArrangedStarts(pid: u32, bucket: Bucket, entries: Entries)
    requires Arranged(pid, bucket, entries)
    ensures forall j, k :: 0 <= j < k < |bucket| ==> bucket[j].start <= bucket[k].start
  {
    forall j, k | 0 <= j < k < |bucket| ensures bucket[j].start <= bucket[k].start {
      assert Describes(bucket[j], pid, entries) && Describes(bucket[k], pid, entries);
      assert Precedes(bucket[j], bucket[k], entries);
    }
  }

  // Row k does not contain the address, or was inserted no later than the one found.
  ghost predicate NotNewer(bucket: Bucket, entries: Entries, k: nat, found: nat, ip: u64)
    requires k < |bucket| && found in entries
  {
    EndAt(bucket, entries, k) <= ip
    || (bucket[k].index in entries && entries[bucket[k].index].id <= entries[found].id)
  }

  lemma NewerStill(bucket: Bucket, entries: Entries, lo: nat, hi: nat, found: nat, newer: nat, ip: u64)
    requires hi <= |bucket| && found in entries && newer in entries && entries[found].id < entries[newer].id
    requires NoneNewer(bucket, entries, lo, hi, found, ip)
    ensures NoneNewer(bucket, entries, lo, hi, newer, ip)
  {
    forall k | lo <= k < hi ensures NotNewer(bucket, entries, k, newer, ip) {
      assert NotNewer(bucket, entries, k, found, ip);
    }
  }

  ghost predicate NoneNewer(bucket: Bucket, entries: Entries, lo: nat, hi: nat, found: nat, ip: u64)
    requires hi <= |bucket| && found in entries
  {
    forall k {:trigger NotNewer(bucket, entries, k, found, ip)} ::
      lo <= k < hi ==> NotNewer(bucket, entries, k, found, ip)
  }

  // The newest row found so far among the rows from lo on that can contain the address.
  ghost predicate NewestSoFar(pid: u32, bucket: Bucket, entries: Entries, lo: nat, hi: nat, found: Option<nat>, ip: u64)
    requires hi <= |bucket|
  {
    match found
    case None => NoneReach(bucket, entries, lo, hi, ip)
    case Some(i) =>
      && i in entries && entries[i].mapping.pid == pid && entries[i].mapping.Contains(ip)
      && NoneNewer(bucket, entries, lo, hi, i, ip)
  }

  lemma NoOlderReaches(pid: u32, bucket: Bucket, entries: Entries, lo: nat, hi: nat, found: Option<nat>, ip: u64)
    requires lo < hi <= |bucket| && NewestSoFar(pid, bucket, entries, lo + 1, hi, found, ip)
    requires BucketOk(pid, bucket, entries) && bucket[lo].maxEnd <= ip
    ensures NewestSoFar(pid, bucket, entries, 0, hi, found, ip)
  {
    assert Augmented(bucket, entries, lo);
    PrefixStops(bucket, entries, lo + 1, ip);
  }

  lemma FoundAt(pid: u32, bucket: Bucket, entries: Entries, lo: nat, hi: nat, found: Option<nat>, ip: u64)
    requires lo < hi <= |bucket| && NewestSoFar(pid, bucket, entries, lo + 1, hi, found, ip)
    requires Describes(bucket[lo], pid, entries) && bucket[lo].start <= ip < EndAt(bucket, entries, lo)
    ensures var i := bucket[lo].index;
            NewestSoFar(pid, bucket, entries, lo, hi,
                        if found.None? || entries[i].id > entries[found.value].id then Some(i) else found, ip)
  {
    if found.Some? && entries[bucket[lo].index].id > entries[found.value].id {
      NewerStill(bucket, entries, lo + 1, hi, found.value, bucket[lo].index, ip);
    }
  }

  // When the running end of row k is already right, so is every one after it.
  lemma TailUnchanged(pid: u32, base: Bucket, before: Entries, position: nat, row: Indexed, e: Entry, bucket: Bucket,
                      k: nat)
    requires BucketOk(pid, base, before) && row.index !in before
    requires position <= |base| && position < k < |bucket|
    requires SameRows(WithRow(base, position, row), bucket)
    requires Shifted(base, position, bucket, k)
    requires Augmented(bucket, before[row.index := e], k)
    ensures var after := before[row.index := e];
            forall j :: k <= j < |bucket| ==> Augmented(bucket, after, j)
  {
    var after := before[row.index := e];
    forall i | 0 <= i < |base| ensures base[i].index in before { assert Describes(base[i], pid, before); }
    forall j | k <= j < |bucket| ensures Augmented(bucket, after, j) {
      assert Augmented(base, before, k - 1) && Augmented(base, before, j - 1);
      SameRowsMaxEnd(WithRow(base, position, row), bucket, after, k + 1);
      WithRowSuffix(base, before, position, row, e, k, j);
      SameRowsMaxEnd(WithRow(base, position, row), bucket, after, j + 1);
    }
  }

  // Right after the new row goes in, every running end up to it is right.
  lemma FreshRow(pid: u32, base: Bucket, before: Entries, position: nat, row: Indexed, e: Entry)
    requires BucketOk(pid, base, before) && ListsPid(pid, base, before) && row.index !in before
    requires position <= |base| && e.mapping.pid == pid && e.mapping.start == row.start
    requires forall i :: i in before ==> before[i].id < e.id
    requires forall k :: 0 <= k < position ==> base[k].start <= row.start
    requires forall k :: position <= k < |base| ==> row.start < base[k].start
    requires row.maxEnd == if position == 0 then e.mapping.End() else Max(base[position - 1].maxEnd, e.mapping.End())
    ensures var b, after := WithRow(base, position, row), before[row.index := e];
            Arranged(pid, b, after) && ListsPid(pid, b, after) && Shifted(base, position, b, position + 1)
            && AugmentedTo(b, after, position + 1)
  {
    var b, after := WithRow(base, position, row), before[row.index := e];
    WithRowArranged(pid, base, before, position, row, e);
    WithRowLists(pid, base, before, position, row, e);
    forall i | 0 <= i < |base| ensures base[i].index in before { assert Describes(base[i], pid, before); }
    forall j | 0 <= j <= position ensures Augmented(b, after, j) {
      WithRowPrefix(base, before, position, row, e, j);
      if j < position {
        WithRowPrefix(base, before, position, row, e, j + 1);
        assert Augmented(base, before, j);
      } else if j > 0 {
        assert Augmented(base, before, j - 1);
      }
    }
  }

  lemma Rewritten(bucket: Bucket, entries: Entries, k: nat)
    requires 0 < k < |bucket| && AugmentedTo(bucket, entries, k)
    ensures Max(bucket[k - 1].maxEnd, EndAt(bucket, entries, k)) == MaxEnd(bucket, entries, k + 1)
  {
    assert Augmented(bucket, entries, k - 1);
  }

  lemma AddedExecutes(before: Entries, index: nat, e: Entry)
    requires index !in before
    ensures Executes(before[index := e], e.mapping.pid)
            == (Executes(before, e.mapping.pid) || e.mapping.image.MayExecute())
  {
    var pid, after := e.mapping.pid, before[index := e];
    forall i | ExecutableMap(before, pid, i) ensures ExecutableMap(after, pid, i) { }
    forall i | ExecutableMap(after, pid, i) && i != index ensures ExecutableMap(before, pid, i) { }
    if e.mapping.image.MayExecute() { assert ExecutableMap(after, pid, index); }
  }

  // A process that gains a map keeps the presence it had and may gain executability.
  function WithPresence(ix: Index, pid: u32, bucket: Bucket, mayExecute: bool): Index {
    if pid == GLOBAL_PID then
      ix.(buckets := ix.buckets[pid := bucket], hasGlobal := true,
          hasGlobalExecutable := ix.hasGlobalExecutable || mayExecute)
    else
      ix.(buckets := ix.buckets[pid := bucket], pids := ix.pids + {pid},
          executable := if mayExecute then ix.executable + {pid} else ix.executable)
  }

  lemma InsertedCoherent(ix: Index, v: View, index: nat, mapping: Mapping, bucket: Bucket)
    requires Coherent(ix, v.entries) && index !in v.entries && bucket != []
    requires BucketOk(mapping.pid, bucket, Inserted(v, index, mapping).entries)
    requires ListsPid(mapping.pid, bucket, Inserted(v, index, mapping).entries)
    ensures Coherent(WithPresence(ix, mapping.pid, bucket, mapping.image.MayExecute()),
                     Inserted(v, index, mapping).entries)
  {
    var pid, after := mapping.pid, Inserted(v, index, mapping).entries;
    assert PidIndexed(ix, v.entries, pid);
    AddedExecutes(v.entries, index, Entry(|v.births|, mapping));
    IndexingCoherent(ix, v.entries, pid, bucket, Executes(after, pid), after);
    assert WithPresence(ix, pid, bucket, mapping.image.MayExecute()) == Indexing(ix, pid, bucket, Executes(after, pid));
  }

  lemma NewestFound(pid: u32, bucket: Bucket, v: View, insertion: nat, found: nat, ip: u64)
    requires Ordered(v.order, v.entries)
    requires Arranged(pid, bucket, v.entries) && ListsPid(pid, bucket, v.entries) && insertion <= |bucket|
    requires found in v.entries && v.entries[found].mapping.pid == pid && v.entries[found].mapping.Contains(ip)
    requires NoneNewer(bucket, v.entries, 0, insertion, found, ip)
    requires forall k :: insertion <= k < |bucket| ==> ip < bucket[k].start
    ensures Lookup(RowsOf(v.order, v.entries), pid, ip) == Some(v.entries[found].mapping)
  {
    assert Placed(v.order, found);
    forall n | 0 <= n < |v.order| && v.entries[v.order[n]].mapping.pid == pid
        && v.entries[v.order[n]].mapping.Contains(ip)
      ensures v.entries[v.order[n]].id <= v.entries[found].id
    {
      assert Lists(bucket, v.order[n]);
      var k :| 0 <= k < |bucket| && bucket[k].index == v.order[n];
      assert Describes(bucket[k], pid, v.entries);
      assert k < insertion ==> NotNewer(bucket, v.entries, k, found, ip);
    }
    NewestIsLookup(v.order, v.entries, pid, ip, found);
  }

  ghost predicate Meets(m: Mapping, pid: u32, start: u64, end: u64) {
    m.pid == pid && start < m.End() && m.start < end
  }

  lemma NoneMeets(pid: u32, bucket: Bucket, entries: Entries, insertion: nat, start: u64, end: u64)
    requires Arranged(pid, bucket, entries) && ListsPid(pid, bucket, entries) && insertion <= |bucket|
    requires NoneReach(bucket, entries, 0, insertion, start)
    requires forall k :: insertion <= k < |bucket| ==> end <= bucket[k].start
    ensures forall i :: i in entries ==> !Meets(entries[i].mapping, pid, start, end)
  {
    forall i | i in entries && entries[i].mapping.pid == pid ensures !Meets(entries[i].mapping, pid, start, end) {
      assert Lists(bucket, i);
      var k :| 0 <= k < |bucket| && bucket[k].index == i;
      assert Describes(bucket[k], pid, entries);
      assert EndAt(bucket, entries, k) == entries[i].mapping.End();
    }
  }

  lemma IndexingAgain(ix: Index, pid: u32, base: Bucket, bucket: Bucket, executes: bool)
    ensures Indexing(ix.(buckets := ix.buckets[pid := base]), pid, bucket, executes) ==
              Indexing(ix, pid, bucket, executes)
  {
    assert ix.buckets[pid := base] - {pid} == ix.buckets - {pid};
    assert ix.buckets[pid := base][pid := bucket] == ix.buckets[pid := bucket];
  }

  // The first n rows of the bucket have been sifted: those that do not overlap the new map
  // were kept in order, the slots of the others were set aside.
  ghost predicate Sifted(bucket: Bucket, entries: Entries, m: Mapping, n: nat, kept: Bucket, removed: seq<nat>) {
    && n <= |bucket|
    && Arranged(m.pid, kept, entries)
    && (forall k, j :: 0 <= k < |kept| && n <= j < |bucket| ==>
          kept[k].index in entries && bucket[j].index in entries && Precedes(kept[k], bucket[j], entries))
    && (forall k :: 0 <= k < |kept| ==> kept[k].index in entries && !Displaced(entries[kept[k].index].mapping, m))
    && (forall k, j :: 0 <= k < |removed| && n <= j < |bucket| ==> removed[k] != bucket[j].index)
    && (forall k :: 0 <= k < |removed| ==> removed[k] in entries && Displaced(entries[removed[k]].mapping, m))
    && (forall j, k :: 0 <= j < k < |removed| ==> removed[j] != removed[k])
    && (forall k :: 0 <= k < n ==> Decided(kept, removed, bucket[k].index))
  }

  ghost predicate Decided(kept: Bucket, removed: seq<nat>, i: nat) {
    Lists(kept, i) || i in removed
  }

  lemma SiftKeep(bucket: Bucket, entries: Entries, m: Mapping, n: nat, kept: Bucket, removed: seq<nat>)
    requires Arranged(m.pid, bucket, entries) && Sifted(bucket, entries, m, n, kept, removed) && n < |bucket|
    requires bucket[n].index in entries && !Displaced(entries[bucket[n].index].mapping, m)
    ensures Sifted(bucket, entries, m, n + 1, kept + [bucket[n]], removed)
  {
    DistinctRows(m.pid, bucket, entries);
    var grown := kept + [bucket[n]];
    forall k | 0 <= k <= n ensures Decided(grown, removed, bucket[k].index) {
      if k == n {
        assert grown[|kept|].index == bucket[n].index;
      } else {
        assert Decided(kept, removed, bucket[k].index);
        if Lists(kept, bucket[k].index) {
          var j :| 0 <= j < |kept| && kept[j].index == bucket[k].index;
          assert grown[j].index == bucket[k].index;
        }
      }
    }
  }

  lemma SiftRemove(bucket: Bucket, entries: Entries, m: Mapping, n: nat, kept: Bucket, removed: seq<nat>)
    requires Arranged(m.pid, bucket, entries) && Sifted(bucket, entries, m, n, kept, removed) && n < |bucket|
    requires bucket[n].index in entries && Displaced(entries[bucket[n].index].mapping, m)
    ensures Sifted(bucket, entries, m, n + 1, kept, removed + [bucket[n].index])
  {
    DistinctRows(m.pid, bucket, entries);
    var grown := removed + [bucket[n].index];
    forall k | 0 <= k <= n ensures Decided(kept, grown, bucket[k].index) {
      assert k < n ==> Decided(kept, removed, bucket[k].index);
      assert grown[|removed|] == bucket[n].index;
    }
  }

  lemma SiftDone(bucket: Bucket, entries: Entries, m: Mapping, kept: Bucket, removed: seq<nat>)
    requires ListsPid(m.pid, bucket, entries)
    requires Sifted(bucket, entries, m, |bucket|, kept, removed)
    ensures Retained(m.pid, bucket, entries, m, kept, removed)
  {
    forall i | i in entries && entries[i].mapping.pid == m.pid && i !in removed
      ensures Lists(kept, i) && !Displaced(entries[i].mapping, m)
    {
      assert Lists(bucket, i);
      var k :| 0 <= k < |bucket| && bucket[k].index == i;
      assert Decided(kept, removed, bucket[k].index);
    }
  }

  lemma AppendNext(before: seq<Mapping>, rows: seq<Mapping>, n: nat)
    requires n < |rows|
    ensures before + rows[..n] + [rows[n]] == before + rows[..n + 1]
  {
  }

  lemma BucketsOk(ix: Index, entries: Entries, pid: u32)
    requires Coherent(ix, entries)
    ensures BucketOk(pid, BucketOf(ix, pid), entries) && ListsPid(pid, BucketOf(ix, pid), entries)
  {
    assert PidIndexed(ix, entries, pid);
  }

  lemma DistinctRows(pid: u32, bucket: Bucket, entries: Entries)
    requires Arranged(pid, bucket, entries)
    ensures forall k :: 0 <= k < |bucket| ==> Describes(bucket[k], pid, entries)
    ensures forall j, k :: 0 <= j < k < |bucket| ==> bucket[j].index != bucket[k].index
  {
    forall j, k | 0 <= j < k < |bucket| ensures bucket[j].index != bucket[k].index {
      assert Describes(bucket[j], pid, entries) && Describes(bucket[k], pid, entries);
      assert Precedes(bucket[j], bucket[k], entries);
    }
  }

  lemma IdsDistinct(v: View, i: nat, j: nat)
    requires Ordered(v.order, v.entries) && i in v.entries && j in v.entries && i != j
    ensures v.entries[i].id != v.entries[j].id
  {
    assert Placed(v.order, i) && Placed(v.order, j);
    var k :| 0 <= k < |v.order| && v.order[k] == i;
    var l :| 0 <= l < |v.order| && v.order[l] == j;
    assert InsertedBefore(v.order, v.entries, if k < l then k else l, if k < l then l else k);
  }

  // Splitting a bucket into the rows that stay and the slots that must go.
  ghost predicate Retained(pid: u32, bucket: Bucket, entries: Entries, m: Mapping, kept: Bucket, removed: seq<nat>) {
    && Arranged(pid, kept, entries)
    && (forall k :: 0 <= k < |kept| ==> kept[k].index !in removed)
    && (forall k :: 0 <= k < |removed| ==> removed[k] in entries && Displaced(entries[removed[k]].mapping, m))
    && (forall j, k :: 0 <= j < k < |removed| ==> removed[j] != removed[k])
    && (forall i {:trigger Lists(kept, i)} :: i in entries && entries[i].mapping.pid == pid && i !in removed ==>
          Lists(kept, i) && !Displaced(entries[i].mapping, m))
  }

  lemma RemovedExactly(bucket: Bucket, entries: Entries, m: Mapping, kept: Bucket, removed: seq<nat>)
    requires Retained(m.pid, bucket, entries, m, kept, removed)
    ensures forall i :: i in entries ==> (i in removed <==> Displaced(entries[i].mapping, m))
  {
    forall i | i in entries && Displaced(entries[i].mapping, m) ensures i in removed {
      var listed := Lists(kept, i);
    }
  }

  lemma KeptCoherent(pid: u32, bucket: Bucket, entries: Entries, m: Mapping, kept: Bucket, removed: seq<nat>)
    requires Retained(pid, bucket, entries, m, kept, removed) && m.pid == pid
    ensures Arranged(pid, kept, entries - SetOf(removed)) && ListsPid(pid, kept, entries - SetOf(removed))
    ensures OnlyPidChanges(pid, entries, entries - SetOf(removed))
  {
    var after := entries - SetOf(removed);
    forall k | 0 <= k < |kept| ensures Describes(kept[k], pid, after) {
      assert Describes(kept[k], pid, entries);
    }
    forall j, k | 0 <= j < k < |kept| ensures Precedes(kept[j], kept[k], after) {
      assert Describes(kept[j], pid, entries) && Describes(kept[k], pid, entries);
      assert Precedes(kept[j], kept[k], entries);
    }
  }

  lemma KeyedSlots(entries: Entries, slots: seq<nat>, keyed: seq<(nat, nat)>, pairs: seq<(nat, nat)>, sorted: seq<nat>)
    requires |keyed| == |slots| == |pairs| == |sorted|
    requires forall k :: 0 <= k < |slots| ==> slots[k] in entries && keyed[k] == (entries[slots[k]].id, slots[k])
    requires forall j, k :: 0 <= j < k < |pairs| ==> pairs[j].0 < pairs[k].0
    requires forall x :: x in pairs <==> x in keyed
    requires forall k :: 0 <= k < |pairs| ==> sorted[k] == pairs[k].1
    ensures Ascending(sorted, entries)
    ensures forall i :: i in sorted <==> i in slots
  {
    forall k | 0 <= k < |pairs|
      ensures pairs[k].1 in entries && pairs[k].0 == entries[pairs[k].1].id && sorted[k] in slots
    {
      assert pairs[k] in keyed;
    }
    forall k | 0 <= k < |slots| ensures slots[k] in sorted {
      assert keyed[k] in pairs;
      var j :| 0 <= j < |pairs| && pairs[j] == keyed[k];
      assert sorted[j] == slots[k];
    }
  }

  lemma RemovedNone(v: View)
    ensures RemovedAll(v, SetOf([])) == v
  {
    RestNone(v.order);
    assert SetOf([]) == {};
    assert v.entries - {} == v.entries;
  }

  // Where the next slot to remove now stands.
  lemma NextDoomed(v: View, removed: seq<nat>, n: nat) returns (k: nat)
    requires Ordered(v.order, v.entries) && Ascending(removed, v.entries) && n < |removed|
    ensures k < |Rest(v.order, SetOf(removed[..n]))| && Rest(v.order, SetOf(removed[..n]))[k] == removed[n]
    ensures Removed(RemovedAll(v, SetOf(removed[..n])), k) == RemovedAll(v, SetOf(removed[..n + 1]))
  {
    var dead, x := SetOf(removed[..n]), removed[n];
    RestMembers(v.order, dead);
    assert Placed(v.order, x);
    assert x in v.order;
    DoomedNext(removed, v.entries, n);
    k :| 0 <= k < |Rest(v.order, dead)| && Rest(v.order, dead)[k] == x;
    RemoveStep(v, dead, k);
  }

  lemma DoomedNext(removed: seq<nat>, entries: Entries, n: nat)
    requires Ascending(removed, entries) && n < |removed|
    ensures removed[n] !in SetOf(removed[..n])
    ensures SetOf(removed[..n + 1]) == SetOf(removed[..n]) + {removed[n]}
  {
    forall j | 0 <= j < n ensures removed[j] != removed[n] { assert InsertedBefore(removed, entries, j, n); }
    assert removed[..n + 1] == removed[..n] + [removed[n]];
  }

  lemma SplitNext(removed: seq<nat>, entries: Entries, n: nat, m: Mapping)
    requires n < |removed|
    requires forall k :: 0 <= k < |removed| ==> removed[k] in entries && entries[removed[k]].mapping.Overlaps(m)
    ensures SplitAll(RowsOf(removed[..n + 1], entries), m)
            == SplitAll(RowsOf(removed[..n], entries), m) + Split(entries[removed[n]].mapping, m)
  {
    assert RowsOf(removed[..n + 1], entries) == RowsOf(removed[..n], entries) + [entries[removed[n]].mapping];
    SplitAllAppend(RowsOf(removed[..n], entries), entries[removed[n]].mapping, m);
  }

  // Removing exactly the overlapped slots leaves the survivors and yields the fragments.
  lemma OverlapRows(v: View, removed: seq<nat>, m: Mapping)
    requires Ordered(v.order, v.entries) && Ascending(removed, v.entries)
    requires forall i :: i in v.entries ==> (i in removed <==> Displaced(v.entries[i].mapping, m))
    ensures var w := RemovedAll(v, SetOf(removed));
            (forall k :: 0 <= k < |w.order| ==> w.order[k] in w.entries)
            && RowsOf(w.order, w.entries) == Survivors(RowsOf(v.order, v.entries), m)
    ensures (forall k :: 0 <= k < |removed| ==> v.entries[removed[k]].mapping.Overlaps(m))
            && SplitAll(RowsOf(removed, v.entries), m) == Fragments(RowsOf(v.order, v.entries), m)
  {
    var dead := SetOf(removed);
    assert DeadIfDisplaced(v.order, v.entries, dead, m);
    RestIsSurvivors(v.order, v.entries, dead, m);
    RestMembers(v.order, dead);
    assert RowsOf(Rest(v.order, dead), v.entries) == RowsOf(Rest(v.order, dead), v.entries - dead);
    forall k | 0 <= k < |removed| ensures removed[k] in v.order {
      assert Placed(v.order, removed[k]);
    }
    AscendingIsChosen(v.order, v.entries, removed);
    ChosenIsFragments(v.order, v.entries, dead, m);
  }

  lemma OverlapRemoved(v: View, bucket: Bucket, m: Mapping, kept: Bucket, removed: seq<nat>, sorted: seq<nat>)
    requires Ordered(v.order, v.entries) && Retained(m.pid, bucket, v.entries, m, kept, removed)
    requires Ascending(sorted, v.entries) && forall i :: i in sorted <==> i in removed
    ensures forall k :: 0 <= k < |sorted| ==> v.entries[sorted[k]].mapping.Overlaps(m)
    ensures var w := RemovedAll(v, SetOf(sorted));
            (forall k :: 0 <= k < |w.order| ==> w.order[k] in w.entries)
            && RowsOf(w.order, w.entries) == Survivors(RowsOf(v.order, v.entries), m)
            && Arranged(m.pid, kept, w.entries) && ListsPid(m.pid, kept, w.entries)
            && OnlyPidChanges(m.pid, v.entries, w.entries)
    ensures SplitAll(RowsOf(sorted, v.entries), m) == Fragments(RowsOf(v.order, v.entries), m)
  {
    KeptCoherent(m.pid, bucket, v.entries, m, kept, removed);
    RemovedExactly(bucket, v.entries, m, kept, removed);
    assert SetOf(sorted) == SetOf(removed);
    OverlapRows(v, sorted, m);
  }

  lemma NothingDisplaced(v: View, m: Mapping)
    requires Ordered(v.order, v.entries)
    requires forall i :: i in v.entries ==> !Meets(v.entries[i].mapping, m.pid, m.start, m.End())
    ensures InsertRow(RowsOf(v.order, v.entries), m) == RowsOf(v.order, v.entries) + [m]
  {
    NoneDisplaced(RowsOf(v.order, v.entries), m);
  }

  lemma {:induction false} NoneDisplaced(rows: seq<Mapping>, m: Mapping)
    requires forall k :: 0 <= k < |rows| ==> !Displaced(rows[k], m)
    ensures Survivors(rows, m) == rows && Fragments(rows, m) == []
  {
    if rows != [] { NoneDisplaced(rows[1..], m); }
  }

  // The live slots of one process.
  function PidSlots(entries: Entries, pid: u32): set<nat> {
    set i | i in entries && entries[i].mapping.pid == pid
  }

  function Indices(bucket: Bucket): seq<nat> {
    seq(|bucket|, k requires 0 <= k < |bucket| => bucket[k].index)
  }

  lemma NextInBucket(v: View, pid: u32, bucket: Bucket, n: nat) returns (k: nat)
    requires Ordered(v.order, v.entries) && Arranged(pid, bucket, v.entries) && n < |bucket|
    ensures var w := RemovedAll(v, SetOf(Indices(bucket[..n])));
            k < |w.order| && w.order[k] == bucket[n].index
            && Removed(w, k) == RemovedAll(v, SetOf(Indices(bucket[..n + 1])))
  {
    var dead, x := SetOf(Indices(bucket[..n])), bucket[n].index;
    IndexIsNew(pid, bucket, v.entries, n);
    RestMembers(v.order, dead);
    assert Placed(v.order, x);
    assert x in v.order && x !in dead;
    k :| 0 <= k < |Rest(v.order, dead)| && Rest(v.order, dead)[k] == x;
    RemoveStep(v, dead, k);
    IndicesNext(bucket, n);
  }

  lemma IndexIsNew(pid: u32, bucket: Bucket, entries: Entries, n: nat)
    requires Arranged(pid, bucket, entries) && n < |bucket|
    ensures bucket[n].index in entries && bucket[n].index !in Indices(bucket[..n])
  {
    DistinctRows(pid, bucket, entries);
    assert Describes(bucket[n], pid, entries);
  }

  lemma IndicesNext(bucket: Bucket, n: nat)
    requires n < |bucket|
    ensures SetOf(Indices(bucket[..n + 1])) == SetOf(Indices(bucket[..n])) + {bucket[n].index}
  {
    var a, b := Indices(bucket[..n]), Indices(bucket[..n + 1]);
    assert |b| == |a| + 1 && b[n] == bucket[n].index;
    forall k | 0 <= k < n ensures b[k] == a[k] { }
    assert b == a + [bucket[n].index];
  }

  lemma BucketSlots(pid: u32, bucket: Bucket, entries: Entries)
    requires Arranged(pid, bucket, entries) && ListsPid(pid, bucket, entries)
    ensures SetOf(Indices(bucket)) == PidSlots(entries, pid)
  {
    forall i | i in Indices(bucket) ensures i in PidSlots(entries, pid) {
      var k :| 0 <= k < |bucket| && bucket[k].index == i;
      assert Describes(bucket[k], pid, entries);
    }
    forall i | i in PidSlots(entries, pid) ensures i in Indices(bucket) {
      assert Lists(bucket, i);
      var k :| 0 <= k < |bucket| && bucket[k].index == i;
      assert Indices(bucket)[k] == i;
    }
  }

  lemma PidRemoved(v: View, pid: u32)
    requires Ordered(v.order, v.entries)
    ensures var w := RemovedAll(v, PidSlots(v.entries, pid));
            OnlyPidChanges(pid, v.entries, w.entries) && PidSlots(w.entries, pid) == {}
            && (forall k :: 0 <= k < |w.order| ==> w.order[k] in w.entries)
            && RowsOf(w.order, w.entries) == RemovePid(RowsOf(v.order, v.entries), pid)
            && BucketOk(pid, [], w.entries) && ListsPid(pid, [], w.entries) && !Executes(w.entries, pid)
  {
    var dead := PidSlots(v.entries, pid);
    assert DeadIfPid(v.order, v.entries, dead, pid);
    RestIsRemovePid(v.order, v.entries, dead, pid);
    RestMembers(v.order, dead);
    assert RowsOf(Rest(v.order, dead), v.entries) == RowsOf(Rest(v.order, dead), v.entries - dead);
  }

  // The positions of a bucket listed in insertion order of their slots.
  ghost predicate ByInsertion(base: Bucket, entries: Entries, positions: seq<nat>) {
    && (forall k :: 0 <= k < |positions| ==> positions[k] < |base| && base[positions[k]].index in entries)
    && (forall j, k :: 0 <= j < k < |positions| ==>
          entries[base[positions[j]].index].id < entries[base[positions[k]].index].id)
    && (forall p {:trigger Placed(positions, p)} :: 0 <= p < |base| ==> Placed(positions, p))
  }

  lemma KeyedPositions(base: Bucket, entries: Entries, keyed: seq<(nat, nat)>, pairs: seq<(nat, nat)>,
                       positions: seq<nat>)
    requires |keyed| == |base| == |pairs| == |positions|
    requires forall k :: 0 <= k < |base| ==> base[k].index in entries && keyed[k] == (entries[base[k].index].id, k)
    requires forall j, k :: 0 <= j < k < |pairs| ==> pairs[j].0 < pairs[k].0
    requires forall x :: x in pairs <==> x in keyed
    requires forall k :: 0 <= k < |pairs| ==> positions[k] == pairs[k].1
    ensures ByInsertion(base, entries, positions)
  {
    forall k | 0 <= k < |pairs|
      ensures positions[k] < |base| && pairs[k].0 == entries[base[positions[k]].index].id
    {
      assert pairs[k] in keyed;
    }
    forall p | 0 <= p < |base| ensures Placed(positions, p) {
      assert keyed[p] in pairs;
      var j :| 0 <= j < |pairs| && pairs[j] == keyed[p];
      assert positions[j] == p;
    }
  }

  ghost predicate SourceRow(w: View, parent: u32, base: Bucket, positions: seq<nat>, k: nat) {
    k < |positions| && positions[k] < |base| && Describes(base[positions[k]], parent, w.entries)
  }

  ghost predicate CopyExecutes(w: View, base: Bucket, positions: seq<nat>, k: nat) {
    k < |positions| && positions[k] < |base| && base[positions[k]].index in w.entries
    && w.entries[base[positions[k]].index].mapping.image.MayExecute()
  }

  ghost predicate AnyExecutes(w: View, base: Bucket, positions: seq<nat>, n: nat) {
    n > 0 && (AnyExecutes(w, base, positions, n - 1) || CopyExecutes(w, base, positions, n - 1))
  }

  lemma {:induction false} AnyExecutesMeans(w: View, base: Bucket, positions: seq<nat>, n: nat)
    ensures AnyExecutes(w, base, positions, n) <==> exists k :: 0 <= k < n && CopyExecutes(w, base, positions, k)
  {
    if n > 0 { AnyExecutesMeans(w, base, positions, n - 1); }
  }

  // The k-th slot in insertion order has been copied and the child's bucket points at the copy.
  ghost predicate Copied(w: View, child: u32, base: Bucket, positions: seq<nat>, bucket: Bucket, now: View, k: nat) {
    && k < |positions| && positions[k] < |base| == |bucket| && base[positions[k]].index in w.entries
    && bucket[positions[k]].index in now.entries && bucket[positions[k]].index !in w.entries
    && bucket[positions[k]] == base[positions[k]].(index := bucket[positions[k]].index)
    && now.entries[bucket[positions[k]].index]
       == Entry(|w.births| + k, w.entries[base[positions[k]].index].mapping.(pid := child))
  }

  ghost predicate CopyOf(bucket: Bucket, positions: seq<nat>, n: nat, i: nat) {
    exists k :: 0 <= k < n && k < |positions| && positions[k] < |bucket| && bucket[positions[k]].index == i
  }

  function SlotsAt(base: Bucket, positions: seq<nat>): seq<nat>
    requires forall k :: 0 <= k < |positions| ==> positions[k] < |base|
  {
    seq(|positions|, k requires 0 <= k < |positions| => base[positions[k]].index)
  }

  // After n slots of the parent have been copied in insertion order: the child's bucket
  // points at the copies for those rows and still at the parent's slots for the others.
  ghost predicate Copying(w: View, parent: u32, child: u32, base: Bucket, positions: seq<nat>, n: nat,
                          bucket: Bucket, now: View) {
    && n <= |positions| && |bucket| == |base|
    && w.births <= now.births && |now.births| == |w.births| + n
    && (forall i :: i in w.entries ==> i in now.entries && now.entries[i] == w.entries[i])
    && (forall k :: 0 <= k < |positions| ==> SourceRow(w, parent, base, positions, k))
    && (forall j, k :: 0 <= j < k < |positions| ==> positions[j] != positions[k])
    && (forall k :: n <= k < |positions| && positions[k] < |base| ==> bucket[positions[k]] == base[positions[k]])
    && (forall k :: 0 <= k < n ==> Copied(w, child, base, positions, bucket, now, k))
    && (forall i {:trigger CopyOf(bucket, positions, n, i)} ::
          i in now.entries && i !in w.entries ==> CopyOf(bucket, positions, n, i))
    && CopiedRows(w, child, base, positions, n, now)
  }

  ghost predicate CopiedRows(w: View, child: u32, base: Bucket, positions: seq<nat>, n: nat, now: View) {
    && n <= |positions|
    && (forall k :: 0 <= k < |w.order| ==> w.order[k] in w.entries)
    && (forall k :: 0 <= k < |now.order| ==> now.order[k] in now.entries)
    && (forall k :: 0 <= k < |positions| ==> positions[k] < |base| && base[positions[k]].index in w.entries)
    && RowsOf(now.order, now.entries)
       == RowsOf(w.order, w.entries) + Relabel(RowsOf(SlotsAt(base, positions)[..n], w.entries), child)
  }

  lemma CopyRowStep(w: View, child: u32, base: Bucket, positions: seq<nat>, n: nat, now: View, index: nat)
    requires CopiedRows(w, child, base, positions, n, now) && n < |positions| && index !in now.entries
    ensures CopiedRows(w, child, base, positions, n + 1,
                       Inserted(now, index, w.entries[base[positions[n]].index].mapping.(pid := child)))
  {
    var m := w.entries[base[positions[n]].index].mapping;
    var slots, next := SlotsAt(base, positions), Inserted(now, index, m.(pid := child));
    assert RowsOf(next.order, next.entries) == RowsOf(now.order, now.entries) + [m.(pid := child)];
    assert RowsOf(slots[..n + 1], w.entries) == RowsOf(slots[..n], w.entries) + [m];
    assert Relabel(RowsOf(slots[..n + 1], w.entries), child) ==
             Relabel(RowsOf(slots[..n], w.entries), child) + [m.(pid := child)];
  }

  lemma NextCopy(w: View, parent: u32, child: u32, base: Bucket, positions: seq<nat>, n: nat, bucket: Bucket, now: View)
    requires Copying(w, parent, child, base, positions, n, bucket, now) && n < |positions|
    ensures positions[n] < |base| && bucket[positions[n]] == base[positions[n]]
    ensures base[positions[n]].index in w.entries && base[positions[n]].index in now.entries
    ensures now.entries[base[positions[n]].index] == w.entries[base[positions[n]].index]
    ensures w.entries[base[positions[n]].index].mapping.image.MayExecute() <==> CopyExecutes(w, base, positions, n)
  {
    assert SourceRow(w, parent, base, positions, n);
  }

  lemma CopyStep(w: View, parent: u32, child: u32, base: Bucket, positions: seq<nat>, n: nat, bucket: Bucket,
                 now: View, index: nat)
    requires Copying(w, parent, child, base, positions, n, bucket, now) && n < |positions|
    requires index !in now.entries && positions[n] < |base| && base[positions[n]].index in w.entries
    ensures Copying(w, parent, child, base, positions, n + 1,
                    bucket[positions[n] := bucket[positions[n]].(index := index)],
                    Inserted(now, index, w.entries[base[positions[n]].index].mapping.(pid := child)))
  {
    var p := positions[n];
    var m := w.entries[base[p].index].mapping.(pid := child);
    var after, next := bucket[p := bucket[p].(index := index)], Inserted(now, index, m);
    CopyRowStep(w, child, base, positions, n, now, index);
    forall k | 0 <= k <= n ensures Copied(w, child, base, positions, after, next, k) {
      assert SourceRow(w, parent, base, positions, k);
      assert k < n ==> Copied(w, child, base, positions, bucket, now, k);
    }
    forall i | i in next.entries && i !in w.entries ensures CopyOf(after, positions, n + 1, i) {
      if i == index {
        assert after[positions[n]].index == i;
      } else {
        assert CopyOf(bucket, positions, n, i);
        var k :| 0 <= k < n && k < |positions| && positions[k] < |bucket| && bucket[positions[k]].index == i;
        assert positions[k] != p;
        assert after[positions[k]].index == i;
      }
    }
  }

  lemma NothingCopied(w: View, parent: u32, child: u32, base: Bucket, positions: seq<nat>)
    requires Ordered(w.order, w.entries)
    requires forall k :: 0 <= k < |positions| ==> SourceRow(w, parent, base, positions, k)
    ensures CopiedRows(w, child, base, positions, 0, w)
  {
    forall k | 0 <= k < |positions| ensures positions[k] < |base| && base[positions[k]].index in w.entries {
      assert SourceRow(w, parent, base, positions, k);
    }
    var rows, copies := RowsOf(w.order, w.entries), Relabel(RowsOf(SlotsAt(base, positions)[..0], w.entries), child);
    assert |copies| == 0;
    assert rows + copies == rows;
  }

  lemma ForkStart(v: View, w: View, parent: u32, child: u32, base: Bucket, positions: seq<nat>)
    requires Ordered(v.order, v.entries) && Ordered(w.order, w.entries) && parent != child
    requires w == RemovedAll(v, PidSlots(v.entries, child))
    requires Arranged(parent, base, v.entries) && ByInsertion(base, v.entries, positions)
    ensures Copying(w, parent, child, base, positions, 0, base, w)
  {
    PidRemoved(v, child);
    forall k | 0 <= k < |positions| ensures SourceRow(w, parent, base, positions, k) {
      assert Describes(base[positions[k]], parent, v.entries);
    }
    NothingCopied(w, parent, child, base, positions);
  }

  // The finished child bucket: copies in the parent's order, running ends included.
  lemma CopiedBucket(w: View, now: View, parent: u32, child: u32, base: Bucket, positions: seq<nat>, bucket: Bucket)
    requires Copying(w, parent, child, base, positions, |positions|, bucket, now)
    requires BucketOk(parent, base, w.entries) && ByInsertion(base, w.entries, positions)
    ensures BucketOk(child, bucket, now.entries)
  {
    forall p | 0 <= p < |base| ensures CopiedAt(w, child, base, positions, bucket, now, p) {
      assert Placed(positions, p);
      var k :| 0 <= k < |positions| && positions[k] == p;
      assert Copied(w, child, base, positions, bucket, now, k);
      assert Describes(base[p], parent, w.entries);
    }
    forall p | 0 <= p < |base| ensures Describes(bucket[p], child, now.entries) {
      assert CopiedAt(w, child, base, positions, bucket, now, p) && Describes(base[p], parent, w.entries);
    }
    forall p, q | 0 <= p < q < |base| ensures Precedes(bucket[p], bucket[q], now.entries) {
      CopiedInOrder(w, now, parent, child, base, positions, bucket, p, q);
    }
    forall p | 0 <= p < |base| ensures Augmented(bucket, now.entries, p) {
      CopiedMaxEnd(w, now, child, base, positions, bucket, p + 1);
      assert Augmented(base, w.entries, p) && CopiedAt(w, child, base, positions, bucket, now, p);
    }
  }

  ghost predicate CopiedAt(w: View, child: u32, base: Bucket, positions: seq<nat>, bucket: Bucket, now: View, p: nat) {
    && p < |base| == |bucket| && base[p].index in w.entries && bucket[p].index in now.entries
    && bucket[p] == base[p].(index := bucket[p].index)
    && now.entries[bucket[p].index].mapping == w.entries[base[p].index].mapping.(pid := child)
  }

  lemma CopiedInOrder(w: View, now: View, parent: u32, child: u32, base: Bucket, positions: seq<nat>, bucket: Bucket,
                      p: nat, q: nat)
    requires Copying(w, parent, child, base, positions, |positions|, bucket, now)
    requires Arranged(parent, base, w.entries) && ByInsertion(base, w.entries, positions)
    requires p < q < |base| && bucket[p].index in now.entries && bucket[q].index in now.entries
    ensures Precedes(bucket[p], bucket[q], now.entries)
  {
    assert Placed(positions, p) && Placed(positions, q);
    var j :| 0 <= j < |positions| && positions[j] == p;
    var k :| 0 <= k < |positions| && positions[k] == q;
    assert Copied(w, child, base, positions, bucket, now, j) && Copied(w, child, base, positions, bucket, now, k);
    assert Precedes(base[p], base[q], w.entries);
    if k < j { assert w.entries[base[q].index].id < w.entries[base[p].index].id; }
  }

  lemma {:induction false} CopiedMaxEnd(w: View, now: View, child: u32, base: Bucket, positions: seq<nat>,
                                        bucket: Bucket, n: nat)
    requires n <= |base| == |bucket|
    requires forall p :: 0 <= p < |base| ==> CopiedAt(w, child, base, positions, bucket, now, p)
    ensures MaxEnd(bucket, now.entries, n) == MaxEnd(base, w.entries, n)
  {
    if n > 0 {
      CopiedMaxEnd(w, now, child, base, positions, bucket, n - 1);
      assert CopiedAt(w, child, base, positions, bucket, now, n - 1);
    }
  }

  // No map of the child is left out of its bucket, and every other process is untouched.
  lemma CopiedSlots(w: View, now: View, parent: u32, child: u32, base: Bucket, positions: seq<nat>, bucket: Bucket,
                    mayExecute: bool)
    requires Copying(w, parent, child, base, positions, |positions|, bucket, now)
    requires PidSlots(w.entries, child) == {}
    requires mayExecute == AnyExecutes(w, base, positions, |positions|)
    ensures ListsPid(child, bucket, now.entries) && OnlyPidChanges(child, w.entries, now.entries)
    ensures mayExecute == Executes(now.entries, child)
  {
    AnyExecutesMeans(w, base, positions, |positions|);
    assert forall i :: i in w.entries && w.entries[i].mapping.pid == child ==> i in PidSlots(w.entries, child);
    forall i | i in now.entries && i !in w.entries
      ensures now.entries[i].mapping.pid == child && Lists(bucket, i)
      ensures ExecutableMap(now.entries, child, i) ==> mayExecute
    {
      assert CopyOf(bucket, positions, |positions|, i);
      var k :| 0 <= k < |positions| && positions[k] < |bucket| && bucket[positions[k]].index == i;
      assert Copied(w, child, base, positions, bucket, now, k);
      assert ExecutableMap(now.entries, child, i) <==> CopyExecutes(w, base, positions, k);
    }
    if mayExecute {
      var k :| 0 <= k < |positions| && CopyExecutes(w, base, positions, k);
      assert Copied(w, child, base, positions, bucket, now, k);
      assert ExecutableMap(now.entries, child, bucket[positions[k]].index);
    }
  }

  ghost predicate SameEntry(a: Entries, b: Entries, i: nat) {
    i in a && i in b && a[i] == b[i]
  }

  lemma ParentRows(v: View, w: View, parent: u32, base: Bucket, positions: seq<nat>)
    requires Ordered(v.order, v.entries) && Arranged(parent, base, v.entries) && ListsPid(parent, base, v.entries)
    requires ByInsertion(base, v.entries, positions)
    requires forall k ::
               0 <= k < |base| ==> base[k].index in w.entries && SameEntry(v.entries, w.entries, base[k].index)
    ensures RowsOf(SlotsAt(base, positions), w.entries) == RowsOfPid(RowsOf(v.order, v.entries), parent)
  {
    var slots, wanted := SlotsAt(base, positions), PidSlots(v.entries, parent);
    forall k | 0 <= k < |slots| ensures slots[k] in v.order && slots[k] in wanted {
      assert Describes(base[positions[k]], parent, v.entries);
      assert Placed(v.order, slots[k]);
    }
    forall i | i in wanted ensures i in slots {
      assert Lists(base, i);
      var p :| 0 <= p < |base| && base[p].index == i;
      assert Placed(positions, p);
      var k :| 0 <= k < |positions| && positions[k] == p;
      assert slots[k] == i;
    }
    assert SetOf(slots) == wanted;
    AscendingIsChosen(v.order, v.entries, slots);
    assert DeadIfPid(v.order, v.entries, wanted, parent);
    ChosenIsRowsOfPid(v.order, v.entries, wanted, parent);
    forall k | 0 <= k < |slots| ensures SameEntry(v.entries, w.entries, slots[k]) { }
    assert RowsOf(slots, w.entries) == RowsOf(slots, v.entries);
  }

  lemma ForkCoherent(ix: Index, v: View, w: View, now: View, parent: u32, child: u32, base: Bucket, positions: seq<nat>,
                     bucket: Bucket, mayExecute: bool)
    requires Coherent(ix, v.entries) && parent != child && BucketOk(parent, base, v.entries)
    requires ByInsertion(base, v.entries, positions)
    requires OnlyPidChanges(child, v.entries, w.entries) && PidSlots(w.entries, child) == {}
    requires Copying(w, parent, child, base, positions, |positions|, bucket, now)
    requires mayExecute == AnyExecutes(w, base, positions, |positions|)
    ensures Coherent(Indexing(ix, child, bucket, mayExecute), now.entries)
  {
    ForkedBase(v, w, parent, child, base, positions);
    CopiedBucket(w, now, parent, child, base, positions, bucket);
    CopiedSlots(w, now, parent, child, base, positions, bucket, mayExecute);
    IndexingCoherent(ix, v.entries, child, bucket, mayExecute, now.entries);
  }

  lemma ForkDone(ix: Index, v: View, w: View, now: View, parent: u32, child: u32, base: Bucket, positions: seq<nat>,
                 bucket: Bucket, mayExecute: bool)
    requires Ordered(v.order, v.entries) && Coherent(ix, v.entries) && parent != child
    requires base == BucketOf(ix, parent) && ByInsertion(base, v.entries, positions)
    requires w == RemovedAll(v, PidSlots(v.entries, child))
    requires Copying(w, parent, child, base, positions, |positions|, bucket, now)
    requires mayExecute == AnyExecutes(w, base, positions, |positions|)
    ensures Coherent(Indexing(ix, child, bucket, mayExecute), now.entries)
    ensures forall k :: 0 <= k < |now.order| ==> now.order[k] in now.entries
    ensures RowsOf(now.order, now.entries) == ForkRows(RowsOf(v.order, v.entries), parent, child)
  {
    PidRemoved(v, child);
    assert PidIndexed(ix, v.entries, parent);
    ForkedRows(v, w, now, parent, child, base, positions, bucket);
    ForkCoherent(ix, v, w, now, parent, child, base, positions, bucket, mayExecute);
  }

  lemma ForkedRows(v: View, w: View, now: View, parent: u32, child: u32, base: Bucket, positions: seq<nat>,
                   bucket: Bucket)
    requires Ordered(v.order, v.entries) && parent != child
    requires BucketOk(parent, base, v.entries) && ListsPid(parent, base, v.entries)
             && ByInsertion(base, v.entries, positions)
    requires w == RemovedAll(v, PidSlots(v.entries, child))
    requires Copying(w, parent, child, base, positions, |positions|, bucket, now)
    ensures RowsOf(now.order, now.entries) == ForkRows(RowsOf(v.order, v.entries), parent, child)
  {
    PidRemoved(v, child);
    DistinctRows(parent, base, v.entries);
    ParentRows(v, w, parent, base, positions);
    var slots := SlotsAt(base, positions);
    assert slots[..|positions|] == slots;
  }

  lemma ForkedBase(v: View, w: View, parent: u32, child: u32, base: Bucket, positions: seq<nat>)
    requires BucketOk(parent, base, v.entries) && ByInsertion(base, v.entries, positions) && parent != child
    requires OnlyPidChanges(child, v.entries, w.entries)
    ensures BucketOk(parent, base, w.entries) && ByInsertion(base, w.entries, positions)
  {
    OtherBucket(child, base, v.entries, w.entries, parent);
    forall k | 0 <= k < |base| ensures SameEntry(v.entries, w.entries, base[k].index) {
      assert Describes(base[k], parent, v.entries);
    }
  }

  ghost predicate SameButOffset(a: Entry, b: Entry) {
    b == a.(mapping := a.mapping.(pgoff := b.mapping.pgoff))
  }

  // The maps changed at most in their file offsets.
  ghost predicate OnlyOffsets(before: Entries, after: Entries) {
    && before.Keys == after.Keys
    && forall i {:trigger SameButOffset(before[i], after[i])} :: i in before ==> SameButOffset(before[i], after[i])
  }

  lemma OffsetBucket(pid: u32, b: Bucket, before: Entries, after: Entries)
    requires BucketOk(pid, b, before) && OnlyOffsets(before, after)
    ensures BucketOk(pid, b, after)
  {
    forall k | 0 <= k < |b| ensures Describes(b[k], pid, after) && EndAt(b, before, k) == EndAt(b, after, k) {
      assert Describes(b[k], pid, before) && SameButOffset(before[b[k].index], after[b[k].index]);
    }
    forall j, k | 0 <= j < k < |b| ensures Precedes(b[j], b[k], after) {
      assert Precedes(b[j], b[k], before) && Describes(b[j], pid, before) && Describes(b[k], pid, before);
      assert SameButOffset(before[b[j].index], after[b[j].index])
             && SameButOffset(before[b[k].index], after[b[k].index]);
    }
    forall k | 0 <= k < |b| ensures Augmented(b, after, k) {
      assert Augmented(b, before, k);
      MaxEndFrame(b, before, after, k + 1);
    }
  }

  lemma OffsetPid(ix: Index, before: Entries, after: Entries, pid: u32)
    requires PidIndexed(ix, before, pid) && OnlyOffsets(before, after)
    ensures PidIndexed(ix, after, pid)
  {
    OffsetBucket(pid, BucketOf(ix, pid), before, after);
    forall i ensures ExecutableMap(after, pid, i) == ExecutableMap(before, pid, i) {
      assert i in before ==> SameButOffset(before[i], after[i]);
    }
    forall i | i in after && after[i].mapping.pid == pid ensures Lists(BucketOf(ix, pid), i) {
      assert SameButOffset(before[i], after[i]) && before[i].mapping.pid == pid;
    }
  }

  lemma OffsetCoherent(ix: Index, v: View, slot: nat, offset: u64)
    requires Coherent(ix, v.entries) && slot in v.entries
    ensures Coherent(ix, Updated(v, slot, v.entries[slot].mapping.(pgoff := offset)).entries)
  {
    var after := Updated(v, slot, v.entries[slot].mapping.(pgoff := offset)).entries;
    forall pid: u32 ensures PidIndexed(ix, after, pid) { OffsetPid(ix, v.entries, after, pid); }
  }

  // ----- Presence ----------------------------------------------------------

  ghost predicate Present(ix: Index, pid: u32) {
    if pid == GLOBAL_PID then ix.hasGlobal else pid in ix.pids
  }

  ghost predicate PresentExecutable(ix: Index, pid: u32) {
    if pid == GLOBAL_PID then ix.hasGlobalExecutable else pid in ix.executable
  }

  // The presence flags say exactly whether the flat list has a row, and an executable one.
  lemma PresenceOfRows(ix: Index, v: View, pid: u32)
    requires Ordered(v.order, v.entries) && Coherent(ix, v.entries)
    ensures var rows := RowsOf(v.order, v.entries);
            (Present(ix, pid) <==> HasRow(rows, pid)) && (PresentExecutable(ix, pid) <==> HasExecutableRow(rows, pid))
  {
    var rows, bucket := RowsOf(v.order, v.entries), BucketOf(ix, pid);
    assert PidIndexed(ix, v.entries, pid);
    if Present(ix, pid) {
      assert Describes(bucket[0], pid, v.entries);
      var k := RowOfSlot(v, bucket[0].index);
      assert rows[k].pid == pid;
    }
    if HasRow(rows, pid) {
      var k :| 0 <= k < |rows| && rows[k].pid == pid;
      assert Lists(bucket, v.order[k]);
    }
    if Executes(v.entries, pid) {
      var i :| ExecutableMap(v.entries, pid, i);
      var k := RowOfSlot(v, i);
      assert rows[k].pid == pid && rows[k].image.MayExecute();
    }
    forall k | 0 <= k < |rows| && rows[k].pid == pid && rows[k].image.MayExecute() ensures Executes(v.entries, pid) {
      assert ExecutableMap(v.entries, pid, v.order[k]);
    }
  }

  lemma RowOfSlot(v: View, i: nat) returns (k: nat)
    requires Ordered(v.order, v.entries) && i in v.entries
    ensures k < |v.order| && v.order[k] == i
  {
    assert Placed(v.order, i);
    k :| 0 <= k < |v.order| && v.order[k] == i;
  }
}
