// The library sort: a stable insertion sort under any total preorder.
module Sorting {
  ghost predicate Preorder<T(!new)>(before: (T, T) -> bool) {
    && (forall x, y :: before(x, y) || before(y, x))
    && (forall x, y, z :: before(x, y) && before(y, z) ==> before(x, z))
  }

  ghost predicate SortedBy<T>(s: seq<T>, before: (T, T) -> bool) {
    forall i, j :: 0 <= i < j < |s| ==> before(s[i], s[j])
  }

  method Sort<T(!new)>(items: seq<T>, before: (T, T) -> bool) returns (sorted: seq<T>)
    requires Preorder(before)
    ensures SortedBy(sorted, before)
    ensures multiset(sorted) == multiset(items)
  {
    sorted := [];
    for n := 0 to |items|
      invariant SortedBy(sorted, before)
      invariant multiset(sorted) == multiset(items[..n])
    {
      assert items[..n + 1] == items[..n] + [items[n]];
      sorted := Place(sorted, items[n], before);
    }
    assert items[..|items|] == items;
  }

  // After everything not behind it, so equal items keep their order.
  method Place<T(!new)>(sorted: seq<T>, x: T, before: (T, T) -> bool) returns (grown: seq<T>)
    requires Preorder(before) && SortedBy(sorted, before)
    ensures SortedBy(grown, before)
    ensures multiset(grown) == multiset(sorted) + multiset{x}
  {
    var p: nat := |sorted|;
    while p > 0 && !before(sorted[p - 1], x)
      invariant p <= |sorted|
      invariant forall k :: p <= k < |sorted| ==> before(x, sorted[k])
    {
      p := p - 1;
    }
    grown := sorted[..p] + [x] + sorted[p..];
    PlacedSorted(sorted, x, before, p, grown);
    assert sorted == sorted[..p] + sorted[p..];
  }

  lemma PlacedSorted<T(!new)>(sorted: seq<T>, x: T, before: (T, T) -> bool, p: nat, grown: seq<T>)
    requires Preorder(before) && SortedBy(sorted, before) && p <= |sorted|
    requires p > 0 ==> before(sorted[p - 1], x)
    requires forall k :: p <= k < |sorted| ==> before(x, sorted[k])
    requires grown == sorted[..p] + [x] + sorted[p..]
    ensures SortedBy(grown, before)
  {
    assert forall k :: 0 <= k < p ==> before(sorted[k], x);
    assert forall k :: 0 <= k < p ==> grown[k] == sorted[k];
    assert forall k :: p < k < |grown| ==> grown[k] == sorted[k - 1];
  }

  ghost predicate Distinct<T>(s: seq<T>) {
    forall i, j :: 0 <= i < j < |s| ==> s[i] != s[j]
  }

  lemma {:induction false} DistinctOnce<T>(s: seq<T>, x: T)
    requires Distinct(s)
    ensures multiset(s)[x] == if x in s then 1 else 0
  {
    if s != [] {
      assert s == [s[0]] + s[1..];
      DistinctOnce(s[1..], x);
    }
  }

  lemma SamePermuted<T>(s: seq<T>, t: seq<T>)
    requires multiset(s) == multiset(t) && Distinct(s)
    ensures Distinct(t) && |t| == |s|
    ensures forall x :: x in t <==> x in s
  {
    assert |multiset(s)| == |s| && |multiset(t)| == |t|;
    forall x ensures x in t <==> x in s {
      assert x in t <==> x in multiset(t);
      assert x in s <==> x in multiset(s);
    }
    forall i, j | 0 <= i < j < |t| ensures t[i] != t[j] {
      var x := t[i];
      DistinctOnce(s, x);
      assert t == t[..i] + [t[i]] + t[i + 1..j] + [t[j]] + t[j + 1..];
      assert multiset(t)[x] >= 1 + if t[j] == x then 1 else 0;
    }
  }
}
