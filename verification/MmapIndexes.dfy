// The per-process interval index over the arena: buckets sorted by start and then by
// insertion, each row carrying the largest end so far, plus exact presence flags.
module MmapIndexes {
  import opened Basics
  import opened MappingRows
  import opened MappingArenas

  datatype Indexed = Indexed(start: u64, maxEnd: u64, index: nat)

  type Entries = map<nat, Entry>
  type Bucket = seq<Indexed>

  function EndAt(bucket: Bucket, entries: Entries, k: nat): u64
    requires k < |bucket|
  {
    if bucket[k].index in entries then entries[bucket[k].index].mapping.End() else 0
  }

  // The largest end among the first n rows.
  function MaxEnd(bucket: Bucket, entries: Entries, n: nat): u64
    requires n <= |bucket|
  {
    if n == 0 then 0 else Max(MaxEnd(bucket, entries, n - 1), EndAt(bucket, entries, n - 1))
  }

  ghost predicate Augmented(bucket: Bucket, entries: Entries, k: nat)
    requires k < |bucket|
  {
    bucket[k].maxEnd == MaxEnd(bucket, entries, k + 1)
  }

  // The rows before n carry their running ends.
  ghost predicate AugmentedTo(bucket: Bucket, entries: Entries, n: nat)
    requires n <= |bucket|
  {
    forall j {:trigger Augmented(bucket, entries, j)} :: 0 <= j < n ==> Augmented(bucket, entries, j)
  }

  ghost predicate Describes(row: Indexed, pid: u32, entries: Entries) {
    row.index in entries && entries[row.index].mapping.pid == pid && entries[row.index].mapping.start == row.start
  }

  ghost predicate Precedes(a: Indexed, b: Indexed, entries: Entries) {
    a.index in entries && b.index in entries ==>
      a.start < b.start || (a.start == b.start && entries[a.index].id < entries[b.index].id)
  }

  // The rows of one process in order; their running ends may still have to be computed.
  ghost predicate Arranged(pid: u32, bucket: Bucket, entries: Entries) {
    && (forall k {:trigger Describes(bucket[k], pid, entries)} ::
          0 <= k < |bucket| ==> Describes(bucket[k], pid, entries))
    && (forall j, k {:trigger Precedes(bucket[j], bucket[k], entries)} ::
          0 <= j < k < |bucket| ==> Precedes(bucket[j], bucket[k], entries))
  }

  ghost predicate BucketOk(pid: u32, bucket: Bucket, entries: Entries) {
    && Arranged(pid, bucket, entries)
    && AugmentedTo(bucket, entries, |bucket|)
  }

  ghost predicate Lists(bucket: Bucket, i: nat) {
    exists k :: 0 <= k < |bucket| && bucket[k].index == i
  }

  ghost predicate ListsPid(pid: u32, bucket: Bucket, entries: Entries) {
    forall i {:trigger Lists(bucket, i)} :: i in entries && entries[i].mapping.pid == pid ==> Lists(bucket, i)
  }

  ghost predicate ExecutableMap(entries: Entries, pid: u32, i: nat) {
    i in entries && entries[i].mapping.pid == pid && entries[i].mapping.image.MayExecute()
  }

  ghost predicate Executes(entries: Entries, pid: u32) {
    exists i :: ExecutableMap(entries, pid, i)
  }

  datatype Index = Index(
    buckets: map<u32, Bucket>,
    pids: set<u32>,
    executable: set<u32>,
    hasGlobal: bool,
    hasGlobalExecutable: bool)

  function BucketOf(ix: Index, pid: u32): Bucket {
    if pid in ix.buckets then ix.buckets[pid] else []
  }

  ghost predicate PidIndexed(ix: Index, entries: Entries, pid: u32) {
    && BucketOk(pid, BucketOf(ix, pid), entries)
    && ListsPid(pid, BucketOf(ix, pid), entries)
    && (pid in ix.buckets ==> ix.buckets[pid] != [])
    && (if pid == GLOBAL_PID then ix.hasGlobal else pid in ix.pids) == (pid in ix.buckets)
    && (if pid == GLOBAL_PID then ix.hasGlobalExecutable else pid in ix.executable)
       == Executes(entries, pid)
  }

  ghost predicate Coherent(ix: Index, entries: Entries) {
    && (forall pid :: PidIndexed(ix, entries, pid))
    && GLOBAL_PID !in ix.pids && GLOBAL_PID !in ix.executable
  }

  function Presence(ix: Index, pid: u32, hasMappings: bool, mayExecute: bool): Index {
    if pid == GLOBAL_PID then
      ix.(hasGlobal := hasMappings, hasGlobalExecutable := mayExecute)
    else
      ix.(pids := if hasMappings then ix.pids + {pid} else ix.pids - {pid},
          executable := if mayExecute then ix.executable + {pid} else ix.executable - {pid})
  }

  // Every update replaces one process's bucket and restates its presence.
  function Indexing(ix: Index, pid: u32, bucket: Bucket, executes: bool): Index {
    Presence(ix.(buckets := if bucket == [] then ix.buckets - {pid} else ix.buckets[pid := bucket]),
             pid, bucket != [], executes)
  }

  // The live slots of every process but one are the same.
  ghost predicate OnlyPidChanges(pid: u32, before: Entries, after: Entries) {
    && (forall i :: i in before && before[i].mapping.pid != pid ==> i in after && after[i] == before[i])
    && (forall i :: i in after && after[i].mapping.pid != pid ==> i in before && after[i] == before[i])
  }

  lemma {:induction false} MaxEndFrame(bucket: Bucket, before: Entries, after: Entries, n: nat)
    requires n <= |bucket|
    requires forall k :: 0 <= k < n ==> EndAt(bucket, before, k) == EndAt(bucket, after, k)
    ensures MaxEnd(bucket, after, n) == MaxEnd(bucket, before, n)
  {
    if n > 0 { MaxEndFrame(bucket, before, after, n - 1); }
  }

  // A bucket describes, orders and bounds the rows of its own process only.
  lemma OtherBucket(pid: u32, b: Bucket, before: Entries, after: Entries, other: u32)
    requires BucketOk(other, b, before) && other != pid && OnlyPidChanges(pid, before, after)
    ensures BucketOk(other, b, after)
  {
    forall k | 0 <= k < |b| ensures Describes(b[k], other, after) && after[b[k].index] == before[b[k].index] {
      assert Describes(b[k], other, before);
    }
    forall j, k | 0 <= j < k < |b| ensures Precedes(b[j], b[k], after) { assert Precedes(b[j], b[k], before); }
    forall k | 0 <= k < |b| ensures Augmented(b, after, k) {
      assert Augmented(b, before, k);
      MaxEndFrame(b, before, after, k + 1);
    }
  }

  lemma OtherPidIndexed(ix: Index, before: Entries, pid: u32, bucket: Bucket, executes: bool, after: Entries,
                        other: u32)
    requires PidIndexed(ix, before, other) && other != pid
    requires OnlyPidChanges(pid, before, after)
    ensures PidIndexed(Indexing(ix, pid, bucket, executes), after, other)
  {
    var b := BucketOf(ix, other);
    assert BucketOf(Indexing(ix, pid, bucket, executes), other) == b;
    OtherBucket(pid, b, before, after, other);
    forall i ensures ExecutableMap(before, other, i) == ExecutableMap(after, other, i) { }
    forall i | i in after && after[i].mapping.pid == other ensures Lists(b, i) {
      assert before[i].mapping.pid == other;
    }
  }

  lemma IndexingCoherent(ix: Index, before: Entries, pid: u32, bucket: Bucket, executes: bool, after: Entries)
    requires Coherent(ix, before) && OnlyPidChanges(pid, before, after)
    requires BucketOk(pid, bucket, after) && ListsPid(pid, bucket, after)
    requires executes == Executes(after, pid)
    ensures Coherent(Indexing(ix, pid, bucket, executes), after)
  {
    var jx := Indexing(ix, pid, bucket, executes);
    forall other: u32 ensures PidIndexed(jx, after, other) {
      if other != pid {
        assert PidIndexed(ix, before, other);
        OtherPidIndexed(ix, before, pid, bucket, executes, after, other);
      } else {
        assert BucketOf(jx, pid) == bucket;
      }
    }
  }

  // ----- Searching a bucket ------------------------------------------------

  lemma {:induction false} MaxEndBounds(bucket: Bucket, entries: Entries, n: nat, k: nat)
    requires k < n <= |bucket|
    ensures EndAt(bucket, entries, k) <= MaxEnd(bucket, entries, n)
  {
    if k < n - 1 { MaxEndBounds(bucket, entries, n - 1, k); }
  }

  // Rows from lo up to hi do not reach past the address.
  ghost predicate NoneReach(bucket: Bucket, entries: Entries, lo: nat, hi: nat, ip: u64) {
    forall k :: lo <= k < hi && k < |bucket| ==> EndAt(bucket, entries, k) <= ip
  }

  lemma PrefixStops(bucket: Bucket, entries: Entries, n: nat, ip: u64)
    requires n <= |bucket| && MaxEnd(bucket, entries, n) <= ip
    ensures NoneReach(bucket, entries, 0, n, ip)
  {
    forall k | 0 <= k < n ensures EndAt(bucket, entries, k) <= ip {
      MaxEndBounds(bucket, entries, n, k);
    }
  }

  lemma {:induction false} NoneReachMax(bucket: Bucket, entries: Entries, n: nat, ip: u64)
    requires n <= |bucket| && NoneReach(bucket, entries, 0, n, ip)
    ensures MaxEnd(bucket, entries, n) <= ip
  {
    if n > 0 { NoneReachMax(bucket, entries, n - 1, ip); }
  }

  // No live map of the process contains the address.
  ghost predicate Misses(pid: u32, entries: Entries, ip: u64) {
    forall i :: i in entries && entries[i].mapping.pid == pid ==> !entries[i].mapping.Contains(ip)
  }

  lemma SearchMisses(pid: u32, bucket: Bucket, entries: Entries, insertion: nat, ip: u64)
    requires Arranged(pid, bucket, entries) && ListsPid(pid, bucket, entries)
    requires insertion <= |bucket|
    requires NoneReach(bucket, entries, 0, insertion, ip)
    requires forall k :: insertion <= k < |bucket| ==> ip < bucket[k].start
    ensures Misses(pid, entries, ip)
  {
    forall i | i in entries && entries[i].mapping.pid == pid
      ensures !entries[i].mapping.Contains(ip)
    {
      assert Lists(bucket, i);
      var k :| 0 <= k < |bucket| && bucket[k].index == i;
      assert Describes(bucket[k], pid, entries);
      assert EndAt(bucket, entries, k) == entries[i].mapping.End();
    }
  }

  lemma {:induction false} MissesLookup(order: seq<nat>, entries: Entries, pid: u32, ip: u64)
    requires forall k :: 0 <= k < |order| ==> order[k] in entries
    requires Misses(pid, entries, ip)
    ensures Lookup(RowsOf(order, entries), pid, ip) == None
  {
  }

  // The live map with the largest insertion id among those containing the address is the
  // newest row of the flat list containing it.
  lemma {:induction false} NewestIsLookup(order: seq<nat>, entries: Entries, pid: u32, ip: u64, i: nat)
    requires forall k :: 0 <= k < |order| ==> order[k] in entries
    requires IdsAscend(order, entries)
    requires Placed(order, i) && entries[i].mapping.pid == pid && entries[i].mapping.Contains(ip)
    requires forall k ::
               0 <= k < |order| && entries[order[k]].mapping.pid == pid && entries[order[k]].mapping.Contains(ip)
               ==> entries[order[k]].id <= entries[i].id
    ensures Lookup(RowsOf(order, entries), pid, ip) == Some(entries[i].mapping)
  {
    var n := |order| - 1;
    var k :| 0 <= k < |order| && order[k] == i;
    if k < n {
      var front := order[..n];
      assert front[k] == i && InsertedBefore(order, entries, k, n);
      assert RowsOf(order, entries)[..n] == RowsOf(front, entries);
      forall j, l | 0 <= j < l < n ensures InsertedBefore(front, entries, j, l) {
        assert InsertedBefore(order, entries, j, l);
      }
      NewestIsLookup(front, entries, pid, ip, i);
    }
  }

  // ----- Adding a row ------------------------------------------------------

  function WithRow(bucket: Bucket, position: nat, row: Indexed): Bucket
    requires position <= |bucket|
  {
    bucket[..position] + [row] + bucket[position..]
  }

  lemma WithRowArranged(pid: u32, bucket: Bucket, entries: Entries, position: nat, row: Indexed, e: Entry)
    requires Arranged(pid, bucket, entries) && position <= |bucket|
    requires row.index !in entries && e.mapping.pid == pid && e.mapping.start == row.start
    requires forall i :: i in entries ==> entries[i].id < e.id
    requires forall k :: 0 <= k < position ==> bucket[k].start <= row.start
    requires forall k :: position <= k < |bucket| ==> row.start < bucket[k].start
    ensures Arranged(pid, WithRow(bucket, position, row), entries[row.index := e])
  {
    var b, es := WithRow(bucket, position, row), entries[row.index := e];
    forall k | 0 <= k < |b| ensures Describes(b[k], pid, es) {
      if k != position { assert Describes(bucket[if k < position then k else k - 1], pid, entries); }
    }
    forall j, k | 0 <= j < k < |b| ensures Precedes(b[j], b[k], es) {
      if j != position { assert Describes(bucket[if j < position then j else j - 1], pid, entries); }
      if k != position { assert Describes(bucket[if k < position then k else k - 1], pid, entries); }
      if j != position && k != position {
        assert Precedes(bucket[if j < position then j else j - 1], bucket[if k < position then k else k - 1], entries);
      }
    }
  }

  lemma WithRowLists(pid: u32, bucket: Bucket, entries: Entries, position: nat, row: Indexed, e: Entry)
    requires ListsPid(pid, bucket, entries) && position <= |bucket|
    ensures ListsPid(pid, WithRow(bucket, position, row), entries[row.index := e])
  {
    var b, es := WithRow(bucket, position, row), entries[row.index := e];
    forall i | i in es && es[i].mapping.pid == pid ensures Lists(b, i) {
      if i == row.index {
        assert b[position].index == i;
      } else {
        assert Lists(bucket, i);
        var k :| 0 <= k < |bucket| && bucket[k].index == i;
        assert b[if k < position then k else k + 1].index == i;
      }
    }
  }

  // The same rows in the same order; running ends may differ.
  ghost predicate SameRow(r: Indexed, q: Indexed) { r.start == q.start && r.index == q.index }

  ghost predicate SameRows(a: Bucket, b: Bucket) {
    |a| == |b| && forall k {:trigger SameRow(a[k], b[k])} :: 0 <= k < |a| ==> SameRow(a[k], b[k])
  }

  lemma SameRowsArranged(pid: u32, a: Bucket, b: Bucket, entries: Entries)
    requires SameRows(a, b) && Arranged(pid, a, entries)
    ensures Arranged(pid, b, entries)
    ensures ListsPid(pid, a, entries) ==> ListsPid(pid, b, entries)
  {
    forall k | 0 <= k < |b| ensures Describes(b[k], pid, entries) {
      assert Describes(a[k], pid, entries) && SameRow(a[k], b[k]);
    }
    forall j, k | 0 <= j < k < |b| ensures Precedes(b[j], b[k], entries) {
      assert SameRow(a[j], b[j]) && SameRow(a[k], b[k]);
      assert Precedes(a[j], a[k], entries);
    }
    if ListsPid(pid, a, entries) {
      forall i | i in entries && entries[i].mapping.pid == pid ensures Lists(b, i) {
        assert Lists(a, i);
        var k :| 0 <= k < |a| && a[k].index == i;
        assert SameRow(a[k], b[k]) && b[k].index == i;
      }
    }
  }

  lemma {:induction false} SameRowsMaxEnd(a: Bucket, b: Bucket, entries: Entries, n: nat)
    requires SameRows(a, b) && n <= |a|
    ensures MaxEnd(a, entries, n) == MaxEnd(b, entries, n)
  {
    if n > 0 {
      assert SameRow(a[n - 1], b[n - 1]);
      SameRowsMaxEnd(a, b, entries, n - 1);
    }
  }

  // A bucket whose rows from n on still carry the running ends they had before the new row.
  ghost predicate Shifted(bucket: Bucket, position: nat, rows: Bucket, n: nat) {
    |rows| == |bucket| + 1 && forall k :: n <= k < |rows| && position < k ==> rows[k] == bucket[k - 1]
  }

  lemma {:induction false} WithRowPrefix(bucket: Bucket, entries: Entries, position: nat, row: Indexed, e: Entry,
                                         n: nat)
    requires n <= position <= |bucket| && row.index !in entries
    requires forall k :: 0 <= k < |bucket| ==> bucket[k].index in entries
    ensures MaxEnd(WithRow(bucket, position, row), entries[row.index := e], n) == MaxEnd(bucket, entries, n)
  {
    if n > 0 { WithRowPrefix(bucket, entries, position, row, e, n - 1); }
  }

  // Once the running maximum agrees with the one before the insert, it agrees from there on.
  lemma {:induction false} WithRowSuffix(bucket: Bucket, entries: Entries, position: nat, row: Indexed, e: Entry,
                                         m: nat, n: nat)
    requires position < m <= n <= |bucket| && row.index !in entries
    requires forall k :: 0 <= k < |bucket| ==> bucket[k].index in entries
    requires MaxEnd(WithRow(bucket, position, row), entries[row.index := e], m + 1) == MaxEnd(bucket, entries, m)
    ensures MaxEnd(WithRow(bucket, position, row), entries[row.index := e], n + 1) == MaxEnd(bucket, entries, n)
  {
    if m < n {
      WithRowSuffix(bucket, entries, position, row, e, m, n - 1);
      assert WithRow(bucket, position, row)[n] == bucket[n - 1];
    }
  }

  // ----- Recomputing a bucket ----------------------------------------------

  lemma {:induction false} RaisedMaxEnd(was: Bucket, entries: Entries, k: nat, end: u64, n: nat)
    requires k < |was| && n <= |was|
    ensures MaxEnd(was[k := was[k].(maxEnd := end)], entries, n) == MaxEnd(was, entries, n)
  {
    if n > 0 { RaisedMaxEnd(was, entries, k, end, n - 1); }
  }

  lemma Raised(was: Bucket, entries: Entries, k: nat)
    requires k < |was| && AugmentedTo(was, entries, k)
    ensures AugmentedTo(was[k := was[k].(maxEnd := MaxEnd(was, entries, k + 1))], entries, k + 1)
  {
    var end := MaxEnd(was, entries, k + 1);
    var bucket := was[k := was[k].(maxEnd := end)];
    forall j | 0 <= j <= k ensures Augmented(bucket, entries, j) {
      RaisedMaxEnd(was, entries, k, end, j + 1);
      if j < k { assert Augmented(was, entries, j); }
    }
  }

  lemma RaisedRows(pid: u32, base: Bucket, was: Bucket, entries: Entries, k: nat, end: u64)
    requires SameRows(base, was) && Arranged(pid, base, entries) && k < |was|
    ensures SameRows(base, was[k := was[k].(maxEnd := end)])
    ensures Arranged(pid, was[k := was[k].(maxEnd := end)], entries)
  {
    var bucket := was[k := was[k].(maxEnd := end)];
    forall j | 0 <= j < |base| ensures SameRow(base[j], bucket[j]) { assert SameRow(base[j], was[j]); }
    SameRowsArranged(pid, base, bucket, entries);
  }

  lemma BucketExecutes(pid: u32, bucket: Bucket, entries: Entries)
    requires ListsPid(pid, bucket, entries)
    ensures Executes(entries, pid) <==>
            exists j :: 0 <= j < |bucket| && ExecutableMap(entries, pid, bucket[j].index)
  {
    if Executes(entries, pid) {
      var i :| ExecutableMap(entries, pid, i);
      assert Lists(bucket, i);
      var j :| 0 <= j < |bucket| && bucket[j].index == i;
      assert ExecutableMap(entries, pid, bucket[j].index);
    }
  }
}
