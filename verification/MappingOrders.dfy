// Picking rows out of the insertion order: the slots left after removing some, the slots
// chosen, and what either means for the flat list.
module MappingOrders {
  import opened Basics
  import opened MappingRows
  import opened MappingArenas

  type Entries = map<nat, Entry>

  function Rest(order: seq<nat>, dead: set<nat>): seq<nat> {
    if order == [] then []
    else (if order[0] in dead then [] else [order[0]]) + Rest(order[1..], dead)
  }

  function Chosen(order: seq<nat>, wanted: set<nat>): seq<nat> {
    if order == [] then []
    else (if order[0] in wanted then [order[0]] else []) + Chosen(order[1..], wanted)
  }

  function SetOf(s: seq<nat>): set<nat> { set i | i in s }

  function RemovedAll(v: View, dead: set<nat>): View {
    View(Rest(v.order, dead), v.entries - dead, v.births, v.peak)
  }

  lemma {:induction false} RestNone(order: seq<nat>)
    ensures Rest(order, {}) == order
  {
    if order != [] { RestNone(order[1..]); }
  }

  lemma {:induction false} RestMembers(order: seq<nat>, dead: set<nat>)
    ensures forall i :: i in Rest(order, dead) <==> i in order && i !in dead
  {
    if order != [] { RestMembers(order[1..], dead); }
  }

  lemma {:induction false} RestWithout(order: seq<nat>, dead: set<nat>, k: nat)
    requires forall i, j :: 0 <= i < j < |order| ==> order[i] != order[j]
    requires k < |Rest(order, dead)|
    ensures Rest(order, dead + {Rest(order, dead)[k]}) == Without(Rest(order, dead), k)
  {
    var tail, x := Rest(order[1..], dead), Rest(order, dead)[k];
    assert order[0] !in order[1..];
    if order[0] in dead {
      assert Rest(order, dead) == tail;
      RestWithout(order[1..], dead, k);
    } else {
      assert Rest(order, dead) == [order[0]] + tail;
      WithoutCons(order[0], tail, k);
      if k == 0 {
        RestAbsent(order[1..], dead, x);
      } else {
        RestMembers(order[1..], dead);
        assert x == tail[k - 1] && x in tail;
        RestWithout(order[1..], dead, k - 1);
      }
    }
  }

  lemma WithoutCons(x: nat, s: seq<nat>, k: nat)
    requires k <= |s|
    ensures Without([x] + s, k) == if k == 0 then s else [x] + Without(s, k - 1)
  {
  }

  lemma {:induction false} RestAbsent(order: seq<nat>, dead: set<nat>, x: nat)
    requires x !in order
    ensures Rest(order, dead + {x}) == Rest(order, dead)
  {
    if order != [] { RestAbsent(order[1..], dead, x); }
  }

  // Removing one more slot from the arena removes it from the order.
  lemma RemoveStep(v: View, dead: set<nat>, k: nat)
    requires Ordered(v.order, v.entries)
    requires k < |Rest(v.order, dead)|
    ensures Removed(RemovedAll(v, dead), k) == RemovedAll(v, dead + {Rest(v.order, dead)[k]})
  {
    AllDistinct(v.order, v.entries);
    RestWithout(v.order, dead, k);
    assert v.entries - dead - {Rest(v.order, dead)[k]} == v.entries - (dead + {Rest(v.order, dead)[k]});
  }

  // Slots in strictly increasing insertion id are listed in insertion order.
  ghost predicate Ascending(s: seq<nat>, entries: Entries) {
    && (forall k :: 0 <= k < |s| ==> s[k] in entries)
    && IdsAscend(s, entries)
  }

  ghost predicate Within(s: seq<nat>, order: seq<nat>) {
    forall k :: 0 <= k < |s| ==> s[k] in order
  }

  lemma HeadNotAgain(s: seq<nat>, entries: Entries)
    requires Ascending(s, entries) && s != []
    ensures s[0] !in s[1..] && Ascending(s[1..], entries)
  {
    var tail := s[1..];
    forall k | 0 <= k < |tail| ensures tail[k] != s[0] { assert InsertedBefore(s, entries, 0, k + 1); }
    forall j, k | 0 <= j < k < |tail| ensures InsertedBefore(tail, entries, j, k) {
      assert InsertedBefore(s, entries, j + 1, k + 1);
    }
  }

  lemma WithinTail(s: seq<nat>, order: seq<nat>)
    requires order != [] && Within(s, order) && order[0] !in s
    ensures Within(s, order[1..])
  {
    forall k | 0 <= k < |s| ensures s[k] in order[1..] {
      assert s[k] in order && s[k] in s;
    }
  }

  lemma LaterHead(s: seq<nat>, order: seq<nat>, entries: Entries)
    requires Ascending(order, entries) && Ascending(s, entries) && Within(s, order)
    requires order != [] && s != [] && s[0] != order[0]
    ensures order[0] !in s
  {
    var j :| 0 <= j < |order| && order[j] == s[0];
    assert InsertedBefore(order, entries, 0, j);
    forall k | 0 <= k < |s| ensures s[k] != order[0] {
      if k > 0 { assert InsertedBefore(s, entries, 0, k); }
    }
  }

  lemma {:induction false} AscendingIsChosen(order: seq<nat>, entries: Entries, s: seq<nat>)
    requires Ascending(order, entries) && Ascending(s, entries) && Within(s, order)
    ensures s == Chosen(order, SetOf(s))
  {
    if order == [] {
      assert s == [];
    } else {
      HeadNotAgain(order, entries);
      if s != [] && s[0] == order[0] {
        HeadNotAgain(s, entries);
        WithinTail(s[1..], order);
        AscendingIsChosen(order[1..], entries, s[1..]);
        assert s == [s[0]] + s[1..];
        ChosenSame(order[1..], SetOf(s[1..]), SetOf(s));
      } else {
        if s != [] { LaterHead(s, order, entries); }
        WithinTail(s, order);
        AscendingIsChosen(order[1..], entries, s);
      }
    }
  }

  lemma {:induction false} ChosenSame(order: seq<nat>, a: set<nat>, b: set<nat>)
    requires forall i :: i in order ==> (i in a <==> i in b)
    ensures Chosen(order, a) == Chosen(order, b)
  {
    if order != [] { ChosenSame(order[1..], a, b); }
  }

  // ----- What it means for the rows ----------------------------------------

  ghost predicate DeadIfDisplaced(order: seq<nat>, entries: Entries, dead: set<nat>, m: Mapping) {
    forall i :: i in order ==> i in entries && (i in dead <==> Displaced(entries[i].mapping, m))
  }

  lemma RowsCons(order: seq<nat>, entries: Entries)
    requires order != [] && forall k :: 0 <= k < |order| ==> order[k] in entries
    ensures RowsOf(order, entries) == [entries[order[0]].mapping] + RowsOf(order[1..], entries)
  {
  }

  lemma {:induction false} RestIsSurvivors(order: seq<nat>, entries: Entries, dead: set<nat>, m: Mapping)
    requires DeadIfDisplaced(order, entries, dead, m)
    ensures forall k :: 0 <= k < |Rest(order, dead)| ==> Rest(order, dead)[k] in entries
    ensures RowsOf(Rest(order, dead), entries) == Survivors(RowsOf(order, entries), m)
  {
    if order != [] {
      RowsCons(order, entries);
      RestIsSurvivors(order[1..], entries, dead, m);
      assert order[0] in order;
      if order[0] !in dead { RowsCons(Rest(order, dead), entries); }
    }
  }

  function SplitAll(rows: seq<Mapping>, m: Mapping): seq<Mapping>
    requires forall k :: 0 <= k < |rows| ==> rows[k].Overlaps(m)
  {
    if rows == [] then [] else Split(rows[0], m) + SplitAll(rows[1..], m)
  }

  lemma {:induction false} SplitAllAppend(rows: seq<Mapping>, row: Mapping, m: Mapping)
    requires row.Overlaps(m) && forall k :: 0 <= k < |rows| ==> rows[k].Overlaps(m)
    ensures SplitAll(rows + [row], m) == SplitAll(rows, m) + Split(row, m)
  {
    if rows == [] {
      assert SplitAll([row][1..], m) == [];
    } else {
      assert (rows + [row])[1..] == rows[1..] + [row];
      SplitAllAppend(rows[1..], row, m);
    }
  }

  lemma {:induction false} ChosenIsFragments(order: seq<nat>, entries: Entries, dead: set<nat>, m: Mapping)
    requires DeadIfDisplaced(order, entries, dead, m)
    ensures forall k :: 0 <= k < |Chosen(order, dead)| ==>
              Chosen(order, dead)[k] in entries && entries[Chosen(order, dead)[k]].mapping.Overlaps(m)
    ensures SplitAll(RowsOf(Chosen(order, dead), entries), m) == Fragments(RowsOf(order, entries), m)
  {
    if order != [] {
      RowsCons(order, entries);
      ChosenIsFragments(order[1..], entries, dead, m);
      assert order[0] in order;
      assert RowsOf(order, entries)[1..] == RowsOf(order[1..], entries);
      if order[0] !in dead {
        assert Chosen(order, dead) == Chosen(order[1..], dead);
        assert [] + Fragments(RowsOf(order[1..], entries), m) == Fragments(RowsOf(order[1..], entries), m);
      } else {
        var rows := RowsOf(Chosen(order, dead), entries);
        RowsCons(Chosen(order, dead), entries);
        assert rows[1..] == RowsOf(Chosen(order[1..], dead), entries);
      }
    }
  }

  ghost predicate DeadIfPid(order: seq<nat>, entries: Entries, dead: set<nat>, pid: u32) {
    forall i :: i in order ==> i in entries && (i in dead <==> entries[i].mapping.pid == pid)
  }

  lemma {:induction false} RestIsRemovePid(order: seq<nat>, entries: Entries, dead: set<nat>, pid: u32)
    requires DeadIfPid(order, entries, dead, pid)
    ensures forall k :: 0 <= k < |Rest(order, dead)| ==> Rest(order, dead)[k] in entries
    ensures RowsOf(Rest(order, dead), entries) == RemovePid(RowsOf(order, entries), pid)
  {
    if order != [] {
      RowsCons(order, entries);
      RestIsRemovePid(order[1..], entries, dead, pid);
      assert order[0] in order;
      if order[0] !in dead { RowsCons(Rest(order, dead), entries); }
    }
  }

  lemma {:induction false} ChosenIsRowsOfPid(order: seq<nat>, entries: Entries, wanted: set<nat>, pid: u32)
    requires DeadIfPid(order, entries, wanted, pid)
    ensures forall k :: 0 <= k < |Chosen(order, wanted)| ==> Chosen(order, wanted)[k] in entries
    ensures RowsOf(Chosen(order, wanted), entries) == RowsOfPid(RowsOf(order, entries), pid)
  {
    if order != [] {
      RowsCons(order, entries);
      ChosenIsRowsOfPid(order[1..], entries, wanted, pid);
      assert order[0] in order;
      if order[0] in wanted { RowsCons(Chosen(order, wanted), entries); }
    }
  }
}
