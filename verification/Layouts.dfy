// Ordered maps and sets in the byte grammar: a capped count and strictly ascending entries.
module Layouts {
  import opened Texts
  import opened Grammars
  import opened Sorting
  import opened Order

  function SortedMap<K(!new), V>(width: nat, cap: nat, less: (K, K) -> bool, entry: Grammar<(K, V)>): Grammar<map<K, V>>
    requires TotalOrder(less)
  {
    As(Where(Counted(width, cap, entry), (list: seq<(K, V)>) => AscendingEntries(less, list)),
       (list: seq<(K, V)>) => Collect(list),
       (m: map<K, V>) => Entries(less, m),
       (m: map<K, V>) => |m| <= cap && forall k :: k in m ==> entry.fit((k, m[k])))
  }

  lemma SortedMapLawful<K(!new), V(!new)>(width: nat, cap: nat, less: (K, K) -> bool, entry: Grammar<(K, V)>)
    requires TotalOrder(less) && Lawful(entry) && cap < Range(width)
    ensures Lawful(SortedMap(width, cap, less, entry))
  {
    hide TotalOrder, Range;
    CountedLawful(width, cap, entry);
    var check := (list: seq<(K, V)>) => AscendingEntries(less, list);
    WhereLawful(Counted(width, cap, entry), check);
    var g := Where(Counted(width, cap, entry), check);
    var to := (list: seq<(K, V)>) => Collect(list);
    var from := (m: map<K, V>) => Entries(less, m);
    var fit := (m: map<K, V>) => |m| <= cap && forall k :: k in m ==> entry.fit((k, m[k]));
    hide Lawful;
    forall list | g.fit(list)
      ensures fit(to(list)) && from(to(list)) == list
    {
      EntriesOfCollect(less, list);
      CollectMeans(less, list);
      FitCollect(entry, list);
    }
    forall m: map<K, V> | fit(m)
      ensures g.fit(from(m)) && to(from(m)) == m
    {
      CollectOfEntries(less, m);
      assert |m| == |m.Keys|;
      EntriesAreOf(less, m);
    }
    AsLawful(g, to, from, fit);
  }

  lemma SortedMapFits<K(!new), V>(width: nat, cap: nat, less: (K, K) -> bool, entry: Grammar<(K, V)>, m: map<K, V>)
    requires TotalOrder(less)
    ensures SortedMap(width, cap, less, entry).fit(m) <==> |m| <= cap && forall k :: k in m ==> entry.fit((k, m[k]))
  {
    hide TotalOrder;
  }

  lemma FitCollect<K(!new), V>(entry: Grammar<(K, V)>, list: seq<(K, V)>)
    requires FitAll(entry, list) && Collect(list).Keys == Elements(KeysOf(list))
    requires forall i :: 0 <= i < |list| ==> list[i].0 in Collect(list) && Collect(list)[list[i].0] == list[i].1
    ensures forall k :: k in Collect(list) ==> entry.fit((k, Collect(list)[k]))
  {
    forall k | k in Collect(list)
      ensures entry.fit((k, Collect(list)[k]))
    {
      var i :| 0 <= i < |list| && KeysOf(list)[i] == k;
      assert list[i] == (k, Collect(list)[k]);
    }
  }

  lemma EntriesAreOf<K(!new), V>(less: (K, K) -> bool, m: map<K, V>)
    requires TotalOrder(less)
    ensures forall i :: 0 <= i < |Entries(less, m)| ==>
              Entries(less, m)[i].0 in m && Entries(less, m)[i] == (Entries(less, m)[i].0, m[Entries(less, m)[i].0])
  {
    hide TotalOrder;
    SortedMeans(less, m.Keys);
    var keys := Sorted(less, m.Keys);
    forall i | 0 <= i < |keys|
      ensures keys[i] in m
    {
      assert keys[i] in Elements(keys);
    }
  }

  function Distinct<K>(list: seq<K>): set<K> {
    set k | k in list
  }

  lemma ListOfDistinct<K(!new)>(less: (K, K) -> bool, list: seq<K>)
    requires TotalOrder(less) && Ascending(less, list)
    ensures Sorted(less, Distinct(list)) == list && |Distinct(list)| == |list|
  {
    SortedIsOnly(less, list);
    assert Distinct(list) == Elements(list);
    assert |Sorted(less, Elements(list))| == |Elements(list)|;
  }

  lemma DistinctOfList<K(!new)>(less: (K, K) -> bool, s: set<K>)
    requires TotalOrder(less)
    ensures Ascending(less, Sorted(less, s)) && Distinct(Sorted(less, s)) == s
    ensures forall i :: 0 <= i < |Sorted(less, s)| ==> Sorted(less, s)[i] in s
  {
    SortedMeans(less, s);
    var list := Sorted(less, s);
    assert Distinct(list) == Elements(list);
    assert forall i :: 0 <= i < |list| ==> list[i] in Elements(list);
  }

  lemma FitDistinct<K>(entry: Grammar<K>, list: seq<K>)
    ensures FitAll(entry, list) <==> forall k :: k in Distinct(list) ==> entry.fit(k)
  {
    if forall k :: k in Distinct(list) ==> entry.fit(k) {
      assert forall i :: 0 <= i < |list| ==> list[i] in Distinct(list);
    }
  }

  function SortedSet<K(!new)>(width: nat, cap: nat, less: (K, K) -> bool, entry: Grammar<K>): Grammar<set<K>>
    requires TotalOrder(less)
  {
    As(Where(Counted(width, cap, entry), (list: seq<K>) => Ascending(less, list)),
       (list: seq<K>) => Distinct(list),
       (s: set<K>) => Sorted(less, s),
       (s: set<K>) => |s| <= cap && forall k :: k in s ==> entry.fit(k))
  }

  lemma SortedSetFits<K(!new)>(width: nat, cap: nat, less: (K, K) -> bool, entry: Grammar<K>, s: set<K>)
    requires TotalOrder(less)
    ensures SortedSet(width, cap, less, entry).fit(s) <==> |s| <= cap && forall k :: k in s ==> entry.fit(k)
  {
    hide TotalOrder;
  }

  lemma SortedSetLawful<K(!new)>(width: nat, cap: nat, less: (K, K) -> bool, entry: Grammar<K>)
    requires TotalOrder(less) && Lawful(entry) && cap < Range(width)
    ensures Lawful(SortedSet(width, cap, less, entry))
  {
    hide TotalOrder, Range;
    CountedLawful(width, cap, entry);
    var check := (list: seq<K>) => Ascending(less, list);
    WhereLawful(Counted(width, cap, entry), check);
    var g := Where(Counted(width, cap, entry), check);
    var to := (list: seq<K>) => Distinct(list);
    var from := (s: set<K>) => Sorted(less, s);
    var fit := (s: set<K>) => |s| <= cap && forall k :: k in s ==> entry.fit(k);
    hide Lawful, Ascending, Distinct, FitAll;
    forall list | g.fit(list)
      ensures fit(to(list)) && from(to(list)) == list
    {
      ListOfDistinct(less, list);
      FitDistinct(entry, list);
    }
    forall s: set<K> | fit(s)
      ensures g.fit(from(s)) && to(from(s)) == s
    {
      DistinctOfList(less, s);
      FitDistinct(entry, from(s));
    }
    AsLawful(g, to, from, fit);
  }

  // ---- the two orders the images use --------------------------------------------------------------

  lemma BelowIsTotal()
    ensures TotalOrder(Below)
  {
    forall a, b
      ensures Below(a, b) || a == b || Below(b, a)
      ensures Below(a, b) ==> a != b && !Below(b, a)
    {
      BelowTotal(a, b);
    }
    forall a, b, c | Below(a, b) && Below(b, c)
      ensures Below(a, c)
    {
      BelowTransitive(a, b, c);
    }
  }

  predicate PairBelow(a: (Text, Text), b: (Text, Text)) {
    PathBelow([a.0, a.1], [b.0, b.1])
  }

  lemma PairBelowIsTotal()
    ensures TotalOrder(PairBelow)
  {
    hide PathBelow;
    forall a: (Text, Text), b: (Text, Text)
      ensures PairBelow(a, b) || a == b || PairBelow(b, a)
      ensures PairBelow(a, b) ==> a != b && !PairBelow(b, a)
    {
      PathBelowTotal([a.0, a.1], [b.0, b.1]);
      assert [a.0, a.1] == [b.0, b.1] ==> [a.0, a.1][0] == b.0 && [a.0, a.1][1] == b.1;
    }
    forall a: (Text, Text), b: (Text, Text), c: (Text, Text) | PairBelow(a, b) && PairBelow(b, c)
      ensures PairBelow(a, c)
    {
      PathBelowTransitive([a.0, a.1], [b.0, b.1], [c.0, c.1]);
    }
  }
}
