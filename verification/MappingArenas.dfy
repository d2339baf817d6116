// The slot arena: maps live in reusable slots threaded by a doubly linked list that
// keeps the flat list's insertion order.
module MappingArenas {
  import opened Basics
  import opened MappingRows

  datatype Slot = Slot(mapping: Option<Mapping>, previous: Option<nat>, next: Option<nat>, insertionId: nat)

  // A live slot: the map it holds and the insertion that put it there.
  datatype Entry = Entry(id: nat, mapping: Mapping)

  ghost predicate Placed(order: seq<nat>, i: nat) {
    exists k :: 0 <= k < |order| && order[k] == i
  }

  ghost predicate InsertedBefore(order: seq<nat>, entries: map<nat, Entry>, j: nat, k: nat) {
    && j < |order| && k < |order| && order[j] in entries && order[k] in entries
    && entries[order[j]].id < entries[order[k]].id
  }

  ghost predicate IdsAscend(order: seq<nat>, entries: map<nat, Entry>) {
    forall j, k {:trigger InsertedBefore(order, entries, j, k)} ::
          0 <= j < k < |order| ==> InsertedBefore(order, entries, j, k)
  }

  // The live slots, listed in strictly increasing insertion id.
  ghost predicate Ordered(order: seq<nat>, entries: map<nat, Entry>) {
    && (forall k :: 0 <= k < |order| ==> order[k] in entries)
    && (forall i {:trigger Placed(order, i)} :: i in entries ==> Placed(order, i))
    && IdsAscend(order, entries)
  }

  function RowsOf(order: seq<nat>, entries: map<nat, Entry>): (rows: seq<Mapping>)
    requires forall k :: 0 <= k < |order| ==> order[k] in entries
    ensures |rows| == |order|
    ensures forall k :: 0 <= k < |order| ==> rows[k] == entries[order[k]].mapping
  {
    seq(|order|, k requires 0 <= k < |order| => entries[order[k]].mapping)
  }

  function PreviousIn(order: seq<nat>, k: nat): Option<nat>
    requires k < |order|
  {
    if k == 0 then None else Some(order[k - 1])
  }

  function NextIn(order: seq<nat>, k: nat): Option<nat>
    requires k < |order|
  {
    if k + 1 == |order| then None else Some(order[k + 1])
  }

  // Publishing a kernel module may move a live map's file offset and end, nothing else.
  ghost predicate SameMap(a: Mapping, b: Mapping) {
    a.pid == b.pid && a.start == b.start && a.image == b.image
  }

  datatype KernelMapCursor = KernelMapCursor(slot: nat, insertionId: nat)

  // The live slot in place k stores its map, its insertion id and its two neighbours.
  ghost predicate LinkedAt(slots: seq<Slot>, order: seq<nat>, entries: map<nat, Entry>, k: nat)
    requires k < |order|
  {
    && order[k] in entries
    && order[k] < |slots|
    && slots[order[k]] == Slot(Some(entries[order[k]].mapping), PreviousIn(order, k), NextIn(order, k),
                               entries[order[k]].id)
  }

  ghost predicate Linked(slots: seq<Slot>, order: seq<nat>, entries: map<nat, Entry>) {
    forall k {:trigger LinkedAt(slots, order, entries, k)} :: 0 <= k < |order| ==> LinkedAt(slots, order, entries, k)
  }

  ghost predicate Accounted(free: seq<nat>, entries: map<nat, Entry>, i: nat) {
    i in entries || exists k :: 0 <= k < |free| && free[k] == i
  }

  ghost predicate Freed(slots: seq<Slot>, free: seq<nat>, entries: map<nat, Entry>, k: nat) {
    k < |free| ==> free[k] < |slots| && slots[free[k]].mapping == None && free[k] !in entries
  }

  ghost predicate DifferentAt(free: seq<nat>, j: nat, k: nat) {
    j < k < |free| ==> free[j] != free[k]
  }

  // Free and live slots partition the storage.
  ghost predicate Partitioned(slots: seq<Slot>, free: seq<nat>, entries: map<nat, Entry>) {
    && (forall k {:trigger Freed(slots, free, entries, k)} :: 0 <= k < |free| ==> Freed(slots, free, entries, k))
    && (forall j, k {:trigger DifferentAt(free, j, k)} :: 0 <= j < k < |free| ==> DifferentAt(free, j, k))
    && (forall i {:trigger Accounted(free, entries, i)} :: 0 <= i < |slots| ==> Accounted(free, entries, i))
    && (forall i :: i in entries ==> i < |slots|)
  }

  ghost predicate BornAt(births: seq<Mapping>, entries: map<nat, Entry>, i: nat) {
    i in entries ==> entries[i].id < |births| && SameMap(entries[i].mapping, births[entries[i].id])
  }

  // Every live map is the one its insertion brought in.
  ghost predicate Born(births: seq<Mapping>, entries: map<nat, Entry>) {
    forall i {:trigger BornAt(births, entries, i)} :: i in entries ==> BornAt(births, entries, i)
  }

  function Ends(order: seq<nat>): (Option<nat>, Option<nat>) {
    if order == [] then (None, None) else (Some(order[0]), Some(order[|order| - 1]))
  }

  lemma OrderDistinct(order: seq<nat>, entries: map<nat, Entry>, j: nat, k: nat)
    requires Ordered(order, entries) && j < k < |order|
    ensures order[j] != order[k]
  {
    assert InsertedBefore(order, entries, j, k);
  }

  // A slot appears once in insertion order.
  lemma AllDistinct(order: seq<nat>, entries: map<nat, Entry>)
    requires Ordered(order, entries)
    ensures forall j, k :: 0 <= j < k < |order| ==> order[j] != order[k]
  {
    forall j, k | 0 <= j < k < |order| ensures order[j] != order[k] { assert InsertedBefore(order, entries, j, k); }
  }

  lemma AppendOrdered(order: seq<nat>, entries: map<nat, Entry>, index: nat, e: Entry)
    requires Ordered(order, entries) && index !in entries
    requires forall i :: i in entries ==> entries[i].id < e.id
    ensures Ordered(order + [index], entries[index := e])
  {
    var o := order + [index];
    assert o[|order|] == index;
    forall i | i in entries ensures Placed(o, i) {
      assert Placed(order, i);
      var k :| 0 <= k < |order| && order[k] == i;
      assert o[k] == i;
    }
    var es := entries[index := e];
    forall j, k | 0 <= j < k < |o| ensures InsertedBefore(o, es, j, k) {
      if k < |order| { assert InsertedBefore(order, entries, j, k); }
    }
  }

  lemma AppendLinked(slots: seq<Slot>, order: seq<nat>, entries: map<nat, Entry>, index: nat, e: Entry,
                     after: seq<Slot>)
    requires Linked(slots, order, entries) && Ordered(order, entries) && index !in entries
    requires |slots| <= |after| && index < |after|
    requires after[index] == Slot(Some(e.mapping), Ends(order).1, None, e.id)
    requires forall k :: 0 <= k < |order| - 1 && order[k] < |slots| ==> after[order[k]] == slots[order[k]]
    requires order != [] && order[|order| - 1] < |slots| ==>
               after[order[|order| - 1]] == slots[order[|order| - 1]].(next := Some(index))
    ensures Linked(after, order + [index], entries[index := e])
  {
    var o, es := order + [index], entries[index := e];
    forall k | 0 <= k < |o| ensures LinkedAt(after, o, es, k) {
      if k < |order| {
        assert LinkedAt(slots, order, entries, k);
        assert o[k] == order[k] && PreviousIn(o, k) == PreviousIn(order, k);
      }
    }
  }

  function Without(order: seq<nat>, k: nat): seq<nat>
    requires k < |order|
  {
    order[..k] + order[k + 1..]
  }

  lemma DropOrdered(order: seq<nat>, entries: map<nat, Entry>, k: nat)
    requires Ordered(order, entries) && k < |order|
    ensures Ordered(Without(order, k), entries - {order[k]})
  {
    var o := Without(order, k);
    forall j | 0 <= j < |order| && j != k ensures order[j] != order[k] {
      OrderDistinct(order, entries, if j < k then j else k, if j < k then k else j);
    }
    forall i | i in entries && i != order[k] ensures Placed(o, i) {
      assert Placed(order, i);
      var j :| 0 <= j < |order| && order[j] == i;
      assert o[if j < k then j else j - 1] == i;
    }
    var es := entries - {order[k]};
    forall m, n | 0 <= m < n < |o| ensures InsertedBefore(o, es, m, n) {
      assert InsertedBefore(order, entries, if m < k then m else m + 1, if n < k then n else n + 1);
    }
  }

  // Unlinking rewrites the two neighbours and clears the slot.
  lemma DropLinked(slots: seq<Slot>, order: seq<nat>, entries: map<nat, Entry>, k: nat, after: seq<Slot>)
    requires Linked(slots, order, entries) && k < |order| && |after| == |slots|
    requires forall j :: 0 <= j < |order| && j != k && order[j] < |slots| ==>
               after[order[j]] == slots[order[j]].(
                 next := if j + 1 == k then NextIn(order, k) else slots[order[j]].next,
                 previous := if j == k + 1 then PreviousIn(order, k) else slots[order[j]].previous)
    requires Ordered(order, entries)
    ensures Linked(after, Without(order, k), entries - {order[k]})
  {
    var o, es := Without(order, k), entries - {order[k]};
    DropOrdered(order, entries, k);
    forall n | 0 <= n < |o| ensures LinkedAt(after, o, es, n) {
      var j := if n < k then n else n + 1;
      assert LinkedAt(slots, order, entries, j);
      assert o[n] == order[j];
    }
  }

  // A new map takes the last free slot, or a new one.
  lemma TakeSlot(slots: seq<Slot>, free: seq<nat>, entries: map<nat, Entry>, index: nat, e: Entry, after: seq<Slot>)
    requires Partitioned(slots, free, entries)
    requires if free == [] then index == |slots| && |after| == |slots| + 1
             else index == free[|free| - 1] && |after| == |slots|
    requires forall i :: 0 <= i < |slots| && i !in entries && i != index ==> after[i] == slots[i]
    ensures Partitioned(after, if free == [] then [] else free[..|free| - 1], entries[index := e])
  {
    var f, es := if free == [] then [] else free[..|free| - 1], entries[index := e];
    forall i | 0 <= i < |after| ensures Accounted(f, es, i) {
      if i < |slots| && i !in entries {
        assert Accounted(free, entries, i);
        var k :| 0 <= k < |free| && free[k] == i;
        assert k < |f| ==> f[k] == i;
      }
    }
    forall k | 0 <= k < |f| ensures Freed(after, f, es, k) {
      assert Freed(slots, free, entries, k) && DifferentAt(free, k, |free| - 1);
    }
    forall j, k | 0 <= j < k < |f| ensures DifferentAt(f, j, k) { assert DifferentAt(free, j, k); }
    if free != [] { assert Freed(slots, free, entries, |free| - 1); }
  }

  lemma GiveSlot(slots: seq<Slot>, free: seq<nat>, entries: map<nat, Entry>, index: nat, after: seq<Slot>)
    requires Partitioned(slots, free, entries) && index in entries && |after| == |slots|
    requires after[index].mapping == None
    requires forall i :: 0 <= i < |slots| && i !in entries ==> after[i] == slots[i]
    ensures Partitioned(after, free + [index], entries - {index})
  {
    var f, es := free + [index], entries - {index};
    assert f[|free|] == index;
    forall i | 0 <= i < |after| ensures Accounted(f, es, i) {
      assert Accounted(free, entries, i);
      if i !in entries {
        var k :| 0 <= k < |free| && free[k] == i;
        assert f[k] == i;
      }
    }
    forall k | 0 <= k < |f| ensures Freed(after, f, es, k) {
      if k < |free| { assert Freed(slots, free, entries, k); }
    }
    forall j, k | 0 <= j < k < |f| ensures DifferentAt(f, j, k) {
      if k < |free| { assert DifferentAt(free, j, k); } else { assert Freed(slots, free, entries, j); }
    }
  }

  // The storage, and what it stands for.
  datatype Storage = Storage(slots: seq<Slot>, free: seq<nat>, first: Option<nat>, last: Option<nat>)

  datatype View = View(
    order: seq<nat>,          // live slots in insertion order
    entries: map<nat, Entry>, // what each live slot holds
    births: seq<Mapping>,     // every map ever inserted, by insertion id
    peak: nat)                // the most maps ever live at once

  ghost predicate Consistent(s: Storage, v: View) {
    && Ordered(v.order, v.entries)
    && Linked(s.slots, v.order, v.entries)
    && (s.first, s.last) == Ends(v.order)
    && Partitioned(s.slots, s.free, v.entries)
    && |s.slots| == |v.order| + |s.free| == v.peak
    && Born(v.births, v.entries)
  }

  function Inserted(v: View, index: nat, m: Mapping): View {
    View(v.order + [index], v.entries[index := Entry(|v.births|, m)], v.births + [m], Max(v.peak, |v.order| + 1))
  }

  function Removed(v: View, k: nat): View
    requires k < |v.order|
  {
    View(Without(v.order, k), v.entries - {v.order[k]}, v.births, v.peak)
  }

  // Slot i after the slot in place k is unlinked.
  function Unlink(slots: seq<Slot>, order: seq<nat>, k: nat, i: nat): Slot
    requires k < |order| && i < |slots|
  {
    if i == order[k] then Slot(None, None, None, slots[i].insertionId)
    else if Some(i) == PreviousIn(order, k) then slots[i].(next := NextIn(order, k))
    else if Some(i) == NextIn(order, k) then slots[i].(previous := PreviousIn(order, k))
    else slots[i]
  }

  lemma InsertConsistent(s: Storage, v: View, index: nat, m: Mapping, t: Storage)
    requires Consistent(s, v)
    requires if s.free == [] then index == |s.slots| && |t.slots| == |s.slots| + 1 && t.free == []
             else index == s.free[|s.free| - 1] && |t.slots| == |s.slots| && t.free == s.free[..|s.free| - 1]
    requires t.first == (if s.last.Some? then s.first else Some(index)) && t.last == Some(index)
    requires index < |t.slots| && t.slots[index] == Slot(Some(m), s.last, None, |v.births|)
    requires forall i :: 0 <= i < |s.slots| && i != index ==>
               t.slots[i] == if s.last == Some(i) then s.slots[i].(next := Some(index)) else s.slots[i]
    ensures Consistent(t, Inserted(v, index, m)) && index !in v.entries
  {
    var e := Entry(|v.births|, m);
    UnusedSlot(s.slots, s.free, v.entries);
    OlderThanNext(v);
    AppendOrdered(v.order, v.entries, index, e);
    InsertLinks(s, v, index, e, t.slots);
    TakeSlot(s.slots, s.free, v.entries, index, e, t.slots);
    BornMore(v, index, m);
  }

  // The slot that an insert takes holds no map.
  lemma UnusedSlot(slots: seq<Slot>, free: seq<nat>, entries: map<nat, Entry>)
    requires Partitioned(slots, free, entries)
    ensures if free == [] then |slots| !in entries else free[|free| - 1] < |slots| && free[|free| - 1] !in entries
  {
    if free != [] { assert Freed(slots, free, entries, |free| - 1); }
  }

  lemma OlderThanNext(v: View)
    requires Born(v.births, v.entries)
    ensures forall i :: i in v.entries ==> v.entries[i].id < |v.births|
  {
    forall i | i in v.entries ensures v.entries[i].id < |v.births| { assert BornAt(v.births, v.entries, i); }
  }

  lemma BornMore(v: View, index: nat, m: Mapping)
    requires Born(v.births, v.entries)
    ensures Born(Inserted(v, index, m).births, Inserted(v, index, m).entries)
  {
    var w := Inserted(v, index, m);
    forall i | i in w.entries ensures BornAt(w.births, w.entries, i) { assert BornAt(v.births, v.entries, i); }
  }

  lemma InsertLinks(s: Storage, v: View, index: nat, e: Entry, after: seq<Slot>)
    requires Ordered(v.order, v.entries) && Linked(s.slots, v.order, v.entries) && index !in v.entries
    requires (s.first, s.last) == Ends(v.order)
    requires |s.slots| <= |after| && index < |after| && after[index] == Slot(Some(e.mapping), s.last, None, e.id)
    requires forall i :: 0 <= i < |s.slots| && i != index ==>
               after[i] == if s.last == Some(i) then s.slots[i].(next := Some(index)) else s.slots[i]
    ensures Linked(after, v.order + [index], v.entries[index := e])
  {
    AllDistinct(v.order, v.entries);
    AppendLinked(s.slots, v.order, v.entries, index, e, after);
  }

  lemma NeighboursOnly(slots: seq<Slot>, v: View, k: nat, after: seq<Slot>)
    requires Ordered(v.order, v.entries) && k < |v.order| && |after| == |slots|
    requires forall i :: 0 <= i < |slots| ==> after[i] == Unlink(slots, v.order, k, i)
    ensures forall j :: 0 <= j < |v.order| && j != k && v.order[j] < |slots| ==>
              after[v.order[j]] == slots[v.order[j]].(
                next := if j + 1 == k then NextIn(v.order, k) else slots[v.order[j]].next,
                previous := if j == k + 1 then PreviousIn(v.order, k) else slots[v.order[j]].previous)
  {
    AllDistinct(v.order, v.entries);
  }

  lemma RemoveConsistent(s: Storage, v: View, k: nat, t: Storage)
    requires Consistent(s, v) && k < |v.order|
    requires |t.slots| == |s.slots| && t.free == s.free + [v.order[k]]
    requires t.first == (if k == 0 then NextIn(v.order, k) else s.first)
    requires t.last == (if k + 1 == |v.order| then PreviousIn(v.order, k) else s.last)
    requires forall i :: 0 <= i < |s.slots| ==> t.slots[i] == Unlink(s.slots, v.order, k, i)
    ensures Consistent(t, Removed(v, k))
  {
    assert LinkedAt(s.slots, v.order, v.entries, k);
    DropOrdered(v.order, v.entries, k);
    NeighboursOnly(s.slots, v, k, t.slots);
    DropLinked(s.slots, v.order, v.entries, k, t.slots);
    UnlinkOnlyLive(s.slots, v, k);
    GiveSlot(s.slots, s.free, v.entries, v.order[k], t.slots);
    BornLess(v, k);
  }

  lemma BornLess(v: View, k: nat)
    requires Born(v.births, v.entries) && k < |v.order|
    ensures Born(v.births, Removed(v, k).entries)
  {
    var w := Removed(v, k);
    forall i | i in w.entries ensures BornAt(w.births, w.entries, i) { assert BornAt(v.births, v.entries, i); }
  }

  // Only live slots are rewritten.
  lemma UnlinkOnlyLive(slots: seq<Slot>, v: View, k: nat)
    requires Ordered(v.order, v.entries) && k < |v.order|
    ensures forall i :: 0 <= i < |slots| && i !in v.entries ==> Unlink(slots, v.order, k, i) == slots[i]
  {
  }

  // The slot in place k and its neighbours are three different live slots.
  lemma RemoveNeighbours(slots: seq<Slot>, v: View, k: nat)
    requires Linked(slots, v.order, v.entries) && Ordered(v.order, v.entries) && k < |v.order|
    ensures LinkedAt(slots, v.order, v.entries, k)
    ensures k > 0 ==> v.order[k - 1] < |slots| && v.order[k - 1] != v.order[k]
    ensures k + 1 < |v.order| ==> v.order[k + 1] < |slots| && v.order[k + 1] != v.order[k]
    ensures 0 < k < |v.order| - 1 ==> v.order[k - 1] != v.order[k + 1]
  {
    assert k > 0 ==> LinkedAt(slots, v.order, v.entries, k - 1);
    assert k + 1 < |v.order| ==> LinkedAt(slots, v.order, v.entries, k + 1);
    AllDistinct(v.order, v.entries);
  }

  lemma LastSlot(slots: seq<Slot>, free: seq<nat>, v: View)
    requires Linked(slots, v.order, v.entries) && Partitioned(slots, free, v.entries)
    ensures v.order != [] ==> var i := v.order[|v.order| - 1];
                              i < |slots| && (free != [] ==> i != free[|free| - 1])
  {
    if v.order != [] {
      assert LinkedAt(slots, v.order, v.entries, |v.order| - 1);
      UnusedSlot(slots, free, v.entries);
    }
  }

  lemma RowsInserted(v: View, index: nat, m: Mapping)
    requires Ordered(v.order, v.entries) && index !in v.entries
    ensures Ordered(Inserted(v, index, m).order, Inserted(v, index, m).entries) ==>
              RowsOf(Inserted(v, index, m).order, Inserted(v, index, m).entries) == RowsOf(v.order, v.entries) + [m]
  {
  }

  function Updated(v: View, index: nat, m: Mapping): View
    requires index in v.entries
  {
    v.(entries := v.entries[index := v.entries[index].(mapping := m)])
  }

  lemma UpdateConsistent(s: Storage, v: View, index: nat, m: Mapping)
    requires Consistent(s, v) && index in v.entries && SameMap(m, v.entries[index].mapping)
    ensures index < |s.slots|
    ensures Consistent(s.(slots := s.slots[index := s.slots[index].(mapping := Some(m))]), Updated(v, index, m))
  {
    var slots, w := s.slots[index := s.slots[index].(mapping := Some(m))], Updated(v, index, m);
    forall i | i in v.entries ensures Placed(v.order, i) { }
    forall k | 0 <= k < |v.order| ensures LinkedAt(slots, w.order, w.entries, k) {
      assert LinkedAt(s.slots, v.order, v.entries, k);
    }
    StillPartitioned(s, v, slots, w.entries);
    forall j, l | 0 <= j < l < |v.order| ensures InsertedBefore(w.order, w.entries, j, l) {
      assert InsertedBefore(v.order, v.entries, j, l);
    }
    forall i | i in w.entries ensures BornAt(w.births, w.entries, i) { assert BornAt(v.births, v.entries, i); }
  }

  lemma StillPartitioned(s: Storage, v: View, slots: seq<Slot>, entries: map<nat, Entry>)
    requires Partitioned(s.slots, s.free, v.entries) && |slots| == |s.slots| && entries.Keys == v.entries.Keys
    requires forall i :: 0 <= i < |slots| && i !in entries ==> slots[i] == s.slots[i]
    ensures Partitioned(slots, s.free, entries)
  {
    forall i | 0 <= i < |slots| ensures Accounted(s.free, entries, i) { assert Accounted(s.free, v.entries, i); }
    forall k | 0 <= k < |s.free| ensures Freed(slots, s.free, entries, k) {
      assert Freed(s.slots, s.free, v.entries, k);
    }
  }

  lemma SlotContents(s: Storage, v: View, index: nat)
    requires Consistent(s, v)
    ensures index in v.entries ==> index < |s.slots| && s.slots[index].mapping == Some(v.entries[index].mapping)
                                   && s.slots[index].insertionId == v.entries[index].id
    ensures index < |s.slots| && index !in v.entries ==> s.slots[index].mapping == None
  {
    if index in v.entries {
      assert Placed(v.order, index);
      var k :| 0 <= k < |v.order| && v.order[k] == index;
      assert LinkedAt(s.slots, v.order, v.entries, k);
    } else if index < |s.slots| {
      assert Accounted(s.free, v.entries, index);
      var k :| 0 <= k < |s.free| && s.free[k] == index;
      assert Freed(s.slots, s.free, v.entries, k);
    }
  }

  class MappingArena {
    var slots: seq<Slot>
    var free: seq<nat>
    var first: Option<nat>
    var last: Option<nat>
    var nextInsertionId: nat
    ghost var view: View

    ghost predicate Valid()
      reads this
    {
      Consistent(Storage(slots, free, first, last), view) && nextInsertionId == |view.births|
    }

    ghost function Rows(): seq<Mapping>
      requires Valid()
      reads this
    {
      RowsOf(view.order, view.entries)
    }

    constructor ()
      ensures Valid() && view == View([], map[], [], 0)
    {
      slots, free, first, last, nextInsertionId := [], [], None, None, 0;
      view := View([], map[], [], 0);
    }

    method Insert(mapping: Mapping) returns (index: nat)
      requires Valid()
      modifies this
      ensures Valid()
      ensures index !in old(view).entries && view == Inserted(old(view), index, mapping)
    {
      LastSlot(slots, free, view);
      UnusedSlot(slots, free, view.entries);
      ghost var before := Storage(slots, free, first, last);
      var slot := Slot(Some(mapping), last, None, nextInsertionId);
      var stored := slots;
      if |free| > 0 {
        index := free[|free| - 1];
        free := free[..|free| - 1];
        stored := stored[index := slot];
      } else {
        index := |stored|;
        stored := stored + [slot];
      }
      if last.Some? {
        stored := stored[last.value := stored[last.value].(next := Some(index))];
      } else {
        first := Some(index);
      }
      slots, last, nextInsertionId := stored, Some(index), nextInsertionId + 1;
      InsertConsistent(before, view, index, mapping, Storage(slots, free, first, last));
      view := Inserted(view, index, mapping);
    }

    // k is where the slot stands in insertion order.
    method Remove(index: nat, ghost k: nat) returns (mapping: Mapping)
      requires Valid()
      requires k < |view.order| && view.order[k] == index
      modifies this
      ensures Valid()
      ensures mapping == old(view).entries[index].mapping
      ensures view == Removed(old(view), k)
    {
      RemoveNeighbours(slots, view, k);
      ghost var before := Storage(slots, free, first, last);
      var slot := slots[index];
      mapping := slot.mapping.value;
      var stored := slots[index := Slot(None, None, None, slot.insertionId)];
      if slot.previous.Some? {
        stored := stored[slot.previous.value := stored[slot.previous.value].(next := slot.next)];
      } else {
        first := slot.next;
      }
      if slot.next.Some? {
        stored := stored[slot.next.value := stored[slot.next.value].(previous := slot.previous)];
      } else {
        last := slot.previous;
      }
      slots, free := stored, free + [index];
      RemoveConsistent(before, view, k, Storage(slots, free, first, last));
      view := Removed(view, k);
    }

    // Publication edits a live map in place: its file offset or its length.
    method Update(index: nat, mapping: Mapping)
      requires Valid()
      requires index in view.entries && SameMap(mapping, view.entries[index].mapping)
      modifies this
      ensures Valid()
      ensures view == Updated(old(view), index, mapping)
    {
      UpdateConsistent(Storage(slots, free, first, last), view, index, mapping);
      slots := slots[index := slots[index].(mapping := Some(mapping))];
      view := Updated(view, index, mapping);
    }

    method Get(index: nat) returns (r: Option<Mapping>)
      requires Valid()
      ensures r == if index in view.entries then Some(view.entries[index].mapping) else None
    {
      SlotContents(Storage(slots, free, first, last), view, index);
      r := if index < |slots| then slots[index].mapping else None;
    }

    method InsertionId(index: nat) returns (id: nat)
      requires Valid()
      requires index in view.entries
      ensures id == view.entries[index].id
    {
      SlotContents(Storage(slots, free, first, last), view, index);
      id := slots[index].insertionId;
    }

    // The map the cursor was taken on, if it is still there; never a later occupant of its slot.
    method GetCursor(cursor: KernelMapCursor) returns (r: Option<Mapping>)
      requires Valid()
      ensures r.Some? <==> cursor.slot in view.entries && view.entries[cursor.slot].id == cursor.insertionId
      ensures r.Some? ==> r.value == view.entries[cursor.slot].mapping
      ensures r.Some? ==> cursor.insertionId < |view.births| && SameMap(r.value, view.births[cursor.insertionId])
    {
      SlotContents(Storage(slots, free, first, last), view, cursor.slot);
      assert BornAt(view.births, view.entries, cursor.slot);
      if cursor.slot < |slots| && slots[cursor.slot].insertionId == cursor.insertionId {
        r := slots[cursor.slot].mapping;
      } else {
        r := None;
      }
    }

    // Following the next links from the first slot visits the rows in insertion order.
    method Walk() returns (rows: seq<Mapping>)
      requires Valid()
      ensures rows == Rows()
    {
      rows := [];
      var at := first;
      ghost var k := 0;
      while at.Some?
        invariant k <= |view.order|
        invariant at == if k == |view.order| then None else Some(view.order[k])
        invariant rows == Rows()[..k]
        decreases |view.order| - k
      {
        assert LinkedAt(slots, view.order, view.entries, k);
        rows := rows + [slots[at.value].mapping.value];
        at := slots[at.value].next;
        k := k + 1;
      }
    }
  }
}
