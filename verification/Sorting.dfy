// Ordered maps and sets as the canonical images list them: every collection has one ascending
// listing, and a list that ascends is the listing of what it holds.
module Sorting {
  ghost predicate TotalOrder<K(!new)>(less: (K, K) -> bool) {
    && (forall a, b :: less(a, b) || a == b || less(b, a))
    && (forall a, b :: less(a, b) ==> a != b && !less(b, a))
    && (forall a, b, c :: less(a, b) && less(b, c) ==> less(a, c))
  }

  // What a strict decoder checks: each key above the one before it.
  predicate Ascending<K>(less: (K, K) -> bool, keys: seq<K>) {
    forall i :: 0 < i < |keys| ==> less(keys[i - 1], keys[i])
  }

  lemma {:induction false} AscendingPairs<K(!new)>(less: (K, K) -> bool, keys: seq<K>, i: nat, j: nat)
    requires TotalOrder(less) && Ascending(less, keys) && i < j < |keys|
    ensures less(keys[i], keys[j])
  {
    if i + 1 < j {
      AscendingPairs(less, keys, i, j - 1);
      assert less(keys[i], keys[j - 1]) && less(keys[j - 1], keys[j]);
    }
  }

  predicate IsLeast<K>(less: (K, K) -> bool, keys: set<K>, k: K) {
    k in keys && forall j :: j in keys ==> j == k || less(k, j)
  }

  lemma {:induction false} LeastExists<K(!new)>(less: (K, K) -> bool, keys: set<K>)
    requires TotalOrder(less) && keys != {}
    ensures exists k :: IsLeast(less, keys, k)
    decreases |keys|
  {
    var k :| k in keys;
    var rest := keys - {k};
    assert keys == rest + {k};
    if rest == {} {
      assert IsLeast(less, keys, k);
    } else {
      LeastExists(less, rest);
      var l :| IsLeast(less, rest, l);
      assert IsLeast(less, keys, if less(k, l) then k else l);
    }
  }

  // The ascending listing of a set.
  function Sorted<K(!new)>(less: (K, K) -> bool, keys: set<K>): (list: seq<K>)
    requires TotalOrder(less)
    ensures |list| == |keys|
    decreases |keys|
  {
    if keys == {} then []
    else
      LeastExists(less, keys);
      var k :| IsLeast(less, keys, k);
      [k] + Sorted(less, keys - {k})
  }

  ghost function Elements<K>(list: seq<K>): set<K> {
    set k | k in list
  }

  lemma {:induction false} SortedMeans<K(!new)>(less: (K, K) -> bool, keys: set<K>)
    requires TotalOrder(less)
    ensures Elements(Sorted(less, keys)) == keys && Ascending(less, Sorted(less, keys))
    decreases |keys|
  {
    hide *;
    if keys == {} {
      SortedNothing(less);
    } else {
      var k := SortedNext(less, keys);
      SortedMeans(less, keys - {k});
      LeastFirst(less, k, Sorted(less, keys - {k}), keys);
    }
  }

  lemma SortedNothing<K(!new)>(less: (K, K) -> bool)
    requires TotalOrder(less)
    ensures Sorted(less, {}) == [] && Elements<K>([]) == {} && Ascending(less, [])
  {
  }

  lemma SortedNext<K(!new)>(less: (K, K) -> bool, keys: set<K>) returns (k: K)
    requires TotalOrder(less) && keys != {}
    ensures IsLeast(less, keys, k) && k in keys && Sorted(less, keys) == [k] + Sorted(less, keys - {k})
  {
    hide TotalOrder;
    LeastExists(less, keys);
    k := Sorted(less, keys)[0];
  }

  lemma LeastFirst<K(!new)>(less: (K, K) -> bool, k: K, rest: seq<K>, keys: set<K>)
    requires IsLeast(less, keys, k) && Ascending(less, rest) && Elements(rest) == keys - {k}
    ensures Ascending(less, [k] + rest) && Elements([k] + rest) == keys
  {
    if rest != [] {
      HeadIsElement(rest);
      assert rest[0] in keys - {k};
      assert less(k, rest[0]);
    }
    assert Elements([k] + rest) == {k} + Elements(rest);
    forall i | 0 < i < |[k] + rest|
      ensures less(([k] + rest)[i - 1], ([k] + rest)[i])
    {
      if i > 1 { assert less(rest[i - 2], rest[i - 1]); }
    }
  }

  lemma HeadIsElement<K>(list: seq<K>)
    ensures list != [] ==> list[0] in Elements(list)
  {
  }

  // Two ascending lists of the same keys are the same list.
  lemma {:induction false} AscendingIsUnique<K(!new)>(less: (K, K) -> bool, a: seq<K>, b: seq<K>)
    requires TotalOrder(less) && Ascending(less, a) && Ascending(less, b) && Elements(a) == Elements(b)
    ensures a == b
  {
    if a == [] || b == [] {
      HeadIsElement(a);
      HeadIsElement(b);
    } else {
      HeadIsLeast(less, a);
      HeadIsLeast(less, b);
      assert a[0] == b[0];
      assert Ascending(less, a[1..]) && Ascending(less, b[1..]);
      AscendingIsUnique(less, a[1..], b[1..]);
      assert a == [a[0]] + a[1..] && b == [b[0]] + b[1..];
    }
  }

  lemma HeadIsLeast<K(!new)>(less: (K, K) -> bool, list: seq<K>)
    requires TotalOrder(less) && Ascending(less, list) && list != []
    ensures IsLeast(less, Elements(list), list[0])
    ensures Elements(list[1..]) == Elements(list) - {list[0]}
  {
    forall j | 0 < j < |list|
      ensures less(list[0], list[j])
    {
      AscendingPairs(less, list, 0, j);
    }
  }

  lemma SortedIsOnly<K(!new)>(less: (K, K) -> bool, list: seq<K>)
    requires TotalOrder(less) && Ascending(less, list)
    ensures Sorted(less, Elements(list)) == list
  {
    SortedMeans(less, Elements(list));
    AscendingIsUnique(less, Sorted(less, Elements(list)), list);
  }

  // ---- maps ----------------------------------------------------------------------------------------

  function Entries<K(!new), V>(less: (K, K) -> bool, m: map<K, V>): (list: seq<(K, V)>)
    requires TotalOrder(less)
    ensures |list| == |m.Keys|
  {
    SortedMeans(less, m.Keys);
    var keys := Sorted(less, m.Keys);
    assert forall i :: 0 <= i < |keys| ==> keys[i] in Elements(keys);
    seq(|keys|, i requires 0 <= i < |keys| => (keys[i], m[keys[i]]))
  }

  // Entries inserted one after another.
  function Collect<K, V>(list: seq<(K, V)>): map<K, V> {
    if list == [] then map[]
    else
      var last := list[|list| - 1];
      Collect(list[..|list| - 1])[last.0 := last.1]
  }

  function KeysOf<K, V>(list: seq<(K, V)>): (keys: seq<K>)
    ensures |keys| == |list| && forall i :: 0 <= i < |list| ==> keys[i] == list[i].0
  {
    seq(|list|, i requires 0 <= i < |list| => list[i].0)
  }

  predicate AscendingEntries<K, V>(less: (K, K) -> bool, list: seq<(K, V)>) {
    forall i :: 0 < i < |list| ==> less(list[i - 1].0, list[i].0)
  }

  lemma LastIsNew<K(!new), V>(less: (K, K) -> bool, list: seq<(K, V)>)
    requires TotalOrder(less) && AscendingEntries(less, list)
    ensures forall i :: 0 <= i < |list| - 1 ==> list[i].0 != list[|list| - 1].0
  {
    forall i | 0 <= i < |list| - 1
      ensures list[i].0 != list[|list| - 1].0
    {
      AscendingPairs(less, KeysOf(list), i, |list| - 1);
    }
  }

  lemma {:induction false} CollectMeans<K(!new), V>(less: (K, K) -> bool, list: seq<(K, V)>)
    requires TotalOrder(less) && AscendingEntries(less, list)
    ensures Collect(list).Keys == Elements(KeysOf(list))
    ensures forall i :: 0 <= i < |list| ==> list[i].0 in Collect(list) && Collect(list)[list[i].0] == list[i].1
  {
    hide TotalOrder, Ascending, KeysOf;
    if list != [] {
      var front, last := list[..|list| - 1], list[|list| - 1];
      CollectMeans(less, front);
      LastIsNew(less, list);
      assert KeysOf(list) == KeysOf(front) + [last.0];
      assert Elements(KeysOf(list)) == Elements(KeysOf(front)) + {last.0};
    }
  }

  // A list with ascending keys is the listing of the map it makes.
  lemma EntriesOfCollect<K(!new), V>(less: (K, K) -> bool, list: seq<(K, V)>)
    requires TotalOrder(less) && AscendingEntries(less, list)
    ensures Entries(less, Collect(list)) == list && |Collect(list)| == |list|
  {
    CollectMeans(less, list);
    SortedIsOnly(less, KeysOf(list));
    var m := Collect(list);
    assert |m| == |m.Keys|;
    forall i | 0 <= i < |list|
      ensures Entries(less, m)[i] == list[i]
    {
    }
  }

  // And the listing of a map makes that map again.
  lemma CollectOfEntries<K(!new), V>(less: (K, K) -> bool, m: map<K, V>)
    requires TotalOrder(less)
    ensures AscendingEntries(less, Entries(less, m)) && Collect(Entries(less, m)) == m
  {
    var list := Entries(less, m);
    SortedMeans(less, m.Keys);
    EntriesAre(less, m);
    KeysAscend(less, list);
    hide *;
    CollectMeans(less, list);
    forall k | k in m
      ensures Collect(list)[k] == m[k]
    {
      var i := IndexOf(KeysOf(list), k);
      assert list[i].0 == k;
    }
  }

  lemma EntriesAre<K(!new), V>(less: (K, K) -> bool, m: map<K, V>)
    requires TotalOrder(less)
    ensures KeysOf(Entries(less, m)) == Sorted(less, m.Keys)
    ensures forall i :: 0 <= i < |Entries(less, m)| ==> Entries(less, m)[i].0 in m
    ensures forall i :: 0 <= i < |Entries(less, m)| ==> Entries(less, m)[i].1 == m[Entries(less, m)[i].0]
  {
    hide TotalOrder, Ascending, IsLeast;
    SortedMeans(less, m.Keys);
    forall i | 0 <= i < |Entries(less, m)|
      ensures Entries(less, m)[i].0 in m
    {
      assert Sorted(less, m.Keys)[i] in Elements(Sorted(less, m.Keys));
    }
  }

  lemma KeysAscend<K, V>(less: (K, K) -> bool, list: seq<(K, V)>)
    requires Ascending(less, KeysOf(list))
    ensures AscendingEntries(less, list)
  {
  }

  lemma IndexOf<K>(list: seq<K>, k: K) returns (i: nat)
    requires k in Elements(list)
    ensures i < |list| && list[i] == k
  {
    i :| 0 <= i < |list| && list[i] == k;
  }
}
