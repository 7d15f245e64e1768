/** Top-N publication: sort by weight, cut, sort by key. The items come out of a Go map, so
    nothing may depend on the order they arrive in. */
module Ranking {
  import opened Text
  import opened Ordering

  datatype Item<T> = Item(key: string, weight: real, value: T)

  /** Heavier first; equal weights by key. */
  predicate Outranks<T>(a: Item<T>, b: Item<T>) {
    a.weight > b.weight || (a.weight == b.weight && Less(a.key, b.key))
  }

  predicate KeyBefore<T>(a: Item<T>, b: Item<T>) {
    Less(a.key, b.key)
  }

  ghost predicate DistinctKeys<T>(items: seq<Item<T>>) {
    forall i, j :: 0 <= i < j < |items| ==> items[i].key != items[j].key
  }

  ghost predicate KeysAscend<T>(items: seq<Item<T>>) {
    forall i, j :: 0 <= i < j < |items| ==> Less(items[i].key, items[j].key)
  }

  function Cut<T>(items: seq<T>, cap: int): seq<T> {
    if cap > 0 && |items| > cap then items[..cap] else items
  }

  function SelectTop<T>(items: seq<Item<T>>, cap: int): seq<Item<T>> {
    SortBy(Cut(SortBy(items, Outranks), cap), KeyBefore)
  }

  lemma OutranksOrders<T(!new)>()
    ensures StrictWeakOrder<Item<T>>(Outranks)
    ensures StrictWeakOrder<Item<T>>(KeyBefore)
  {
    forall x: Item<T>, y: Item<T>, z: Item<T>
      ensures !Outranks(x, x) && !KeyBefore(x, x)
      ensures Outranks(x, y) && Outranks(y, z) ==> Outranks(x, z)
      ensures KeyBefore(x, y) && KeyBefore(y, z) ==> KeyBefore(x, z)
      ensures !Outranks(x, y) && !Outranks(y, z) ==> !Outranks(x, z)
      ensures !KeyBefore(x, y) && !KeyBefore(y, z) ==> !KeyBefore(x, z)
    {
      LessIsTotal(x.key, y.key);
      LessIsTotal(y.key, z.key);
      LessIsTotal(x.key, z.key);
      LessIsTotal(x.key, x.key);
      if Less(x.key, y.key) && Less(y.key, z.key) { LessIsTransitive(x.key, y.key, z.key); }
      if Less(z.key, y.key) && Less(y.key, x.key) { LessIsTransitive(z.key, y.key, x.key); }
    }
  }

  lemma DistinctSeparated<T(!new)>(items: seq<Item<T>>)
    requires DistinctKeys(items)
    ensures Separated(items, Outranks) && Separated(items, KeyBefore)
  {
    forall x, y | x in items && y in items && x != y
      ensures Outranks(x, y) || Outranks(y, x)
      ensures KeyBefore(x, y) || KeyBefore(y, x)
    {
      var i :| 0 <= i < |items| && items[i] == x;
      var j :| 0 <= j < |items| && items[j] == y;
      assert i < j || j < i;
      LessIsTotal(x.key, y.key);
    }
  }

  /** Same items, same keys once each, in any order. */
  lemma DistinctPermutes<T(!new)>(a: seq<Item<T>>, b: seq<Item<T>>)
    requires multiset(a) == multiset(b) && DistinctKeys(a)
    ensures DistinctKeys(b)
  {
    NoRepeatsPermute(a, b);
    PermutationMembers(a, b);
    forall i, j | 0 <= i < j < |b| ensures b[i].key != b[j].key {
      assert b[i] in a && b[j] in a && b[i] != b[j];
      var m :| 0 <= m < |a| && a[m] == b[i];
      var n :| 0 <= n < |a| && a[n] == b[j];
      assert m < n || n < m;
    }
  }

  lemma SortedByKey<T(!new)>(items: seq<Item<T>>)
    requires DistinctKeys(items)
    ensures KeysAscend(SortBy(items, KeyBefore))
  {
    OutranksOrders<T>();
    var out := SortBy(items, KeyBefore);
    SortBySorted(items, KeyBefore);
    DistinctPermutes(items, out);
    forall i, j | 0 <= i < j < |out| ensures Less(out[i].key, out[j].key) {
      LessIsTotal(out[i].key, out[j].key);
      assert !KeyBefore(out[j], out[i]);
    }
  }

  lemma PrefixOutranks<T(!new)>(ranked: seq<Item<T>>, n: nat, x: Item<T>, y: Item<T>)
    requires Sorted(ranked, Outranks) && DistinctKeys(ranked) && n <= |ranked|
    requires x in ranked[..n] && y in ranked && y !in ranked[..n]
    ensures Outranks(x, y)
  {
    var i :| 0 <= i < n && ranked[i] == x;
    var j :| 0 <= j < |ranked| && ranked[j] == y;
    assert forall m :: 0 <= m < n ==> ranked[m] in ranked[..n];
    assert j >= n;
    assert !Outranks(ranked[j], ranked[i]) && ranked[i].key != ranked[j].key;
    LessIsTotal(x.key, y.key);
  }

  /** A strictly ascending, capped selection in which every kept item outranks every cut one. */
  lemma SelectTopIsTop<T(!new)>(items: seq<Item<T>>, cap: int)
    requires DistinctKeys(items)
    ensures var out := SelectTop(items, cap);
            && KeysAscend(out)
            && |out| == (if cap > 0 && |items| > cap then cap else |items|)
            && (forall x <- out :: x in items)
            && (!(cap > 0 && |items| > cap) ==> forall x <- items :: x in out)
            && (forall x, y :: x in out && y in items && y !in out ==> Outranks(x, y))
  {
    var ranked := SortBy(items, Outranks);
    var kept := Cut(ranked, cap);
    var out := SortBy(kept, KeyBefore);
    assert Sorted(ranked, Outranks) by { OutranksOrders<T>(); SortBySorted(items, Outranks); }
    PermutationMembers(items, ranked);
    PermutationMembers(kept, out);
    DistinctPermutes(items, ranked);
    assert KeysAscend(out) by { SortedByKey(kept); }
    forall x | x in out ensures x in items { assert x in kept && x in ranked; }
    forall x, y | x in out && y in items && y !in out ensures Outranks(x, y) {
      PrefixOutranks(ranked, |kept|, x, y);
    }
  }

  /** The published list does not depend on the order the map was walked in. */
  lemma SelectTopIgnoresOrder<T(!new)>(a: seq<Item<T>>, b: seq<Item<T>>, cap: int)
    requires multiset(a) == multiset(b) && DistinctKeys(a)
    ensures SelectTop(a, cap) == SelectTop(b, cap)
  {
    OutranksOrders<T>();
    SortBySorted(a, Outranks);
    SortBySorted(b, Outranks);
    DistinctPermutes(a, SortBy(a, Outranks));
    DistinctSeparated(SortBy(a, Outranks));
    SortedIsUnique(SortBy(a, Outranks), SortBy(b, Outranks), Outranks);
  }

  // ---- Publication from a map -----------------------------------------------------

  /** Each item sits under its own key. */
  predicate Keyed<T>(m: map<string, Item<T>>) {
    forall k <- m :: m[k].key == k
  }

  /** A walk of a map in some order. */
  ghost predicate Walks<V>(keys: seq<string>, m: map<string, V>) {
    (forall k :: k in keys <==> k in m) && NoRepeats(keys)
  }

  lemma WalkExtends<V>(k: string, rest: seq<string>, m: map<string, V>)
    requires k in m && Walks(rest, m - {k})
    ensures Walks([k] + rest, m)
  {
    forall x | x in m ensures x in [k] + rest { assert x == k || x in m - {k}; }
  }

  ghost function SomeWalk<V>(m: map<string, V>): (keys: seq<string>)
    ensures Walks(keys, m)
    decreases |m|
  {
    if m == map[] then []
    else
      var k :| k in m;
      var rest := SomeWalk(m - {k});
      WalkExtends(k, rest, m);
      [k] + rest
  }

  function Listed<V>(keys: seq<string>, m: map<string, V>): (out: seq<V>)
    requires forall k <- keys :: k in m
    ensures |out| == |keys|
    ensures forall i :: 0 <= i < |keys| ==> out[i] == m[keys[i]]
  {
    if keys == [] then [] else [m[keys[0]]] + Listed(keys[1..], m)
  }

  /** The list published from a map of items. */
  ghost function Publish<T>(m: map<string, Item<T>>, cap: int): seq<Item<T>> {
    SelectTop(Listed(SomeWalk(m), m), cap)
  }

  lemma ListedItems<T(!new)>(keys: seq<string>, m: map<string, Item<T>>)
    requires Walks(keys, m) && Keyed(m)
    ensures DistinctKeys(Listed(keys, m))
    ensures forall x :: x in Listed(keys, m) <==> x.key in m && m[x.key] == x
  {
    var items := Listed(keys, m);
    forall i, j | 0 <= i < j < |items| ensures items[i].key != items[j].key {
      assert keys[i] in keys && keys[j] in keys && keys[i] != keys[j];
    }
    forall x ensures x in items <==> x.key in m && m[x.key] == x {
      if x in items {
        var i :| 0 <= i < |items| && items[i] == x;
        assert keys[i] in keys;
      }
      if x.key in m && m[x.key] == x {
        assert x.key in keys;
        var i :| 0 <= i < |keys| && keys[i] == x.key;
        assert items[i] == x;
      }
    }
  }

  /** Whatever order Go walks its maps in, the published list is the same. */
  lemma PublicationIgnoresMapOrder<T(!new)>(m: map<string, Item<T>>, keys: seq<string>, cap: int)
    requires Keyed(m) && Walks(keys, m)
    ensures SelectTop(Listed(keys, m), cap) == Publish(m, cap)
  {
    var a, b := Listed(keys, m), Listed(SomeWalk(m), m);
    ListedItems(keys, m);
    ListedItems(SomeWalk(m), m);
    SameMembersPermute(a, b);
    SelectTopIgnoresOrder(a, b, cap);
  }

  lemma WalkLength<V>(keys: seq<string>, m: map<string, V>)
    requires Walks(keys, m)
    ensures |keys| == |m|
    decreases |keys|
  {
    if keys == [] {
      assert m.Keys == {};
    } else {
      var n, k := |keys| - 1, keys[|keys| - 1];
      assert k in keys;
      assert keys == keys[..n] + [k];
      assert Walks(keys[..n], m - {k});
      WalkLength(keys[..n], m - {k});
      assert (m - {k}).Keys == m.Keys - {k} && |m.Keys - {k}| == |m.Keys| - 1;
    }
  }

  /** What a published list is: items of the map, strictly ascending by key, as many as the cap lets
      through, and every item left out is outranked by each one kept. */
  lemma PublishedList<T(!new)>(m: map<string, Item<T>>, cap: int)
    requires Keyed(m)
    ensures KeysAscend(Publish(m, cap))
    ensures |Publish(m, cap)| == (if cap > 0 && |m| > cap then cap else |m|)
    ensures forall x <- Publish(m, cap) :: x.key in m && m[x.key] == x
    ensures !(cap > 0 && |m| > cap) ==> forall k <- m :: m[k] in Publish(m, cap)
    ensures forall x, k :: x in Publish(m, cap) && k in m && m[k] !in Publish(m, cap) ==> Outranks(x, m[k])
  {
    var items := Listed(SomeWalk(m), m);
    ListedItems(SomeWalk(m), m);
    WalkLength(SomeWalk(m), m);
    SelectTopIsTop(items, cap);
    forall k | k in m ensures m[k] in items { assert m[k].key == k; }
  }

  // ---- Collecting a map's values one by one ------------------------------------------

  /** `out` lists the values of m among `done`, keyed by `keys`. */
  ghost predicate Collected<V>(keys: seq<string>, out: seq<V>, m: map<string, V>, done: set<string>) {
    && |keys| == |out| && NoRepeats(keys)
    && (forall k :: k in keys <==> k in m && k in done)
    && (forall i :: 0 <= i < |keys| ==> keys[i] in m && out[i] == m[keys[i]])
  }

  lemma CollectOne<V>(keys: seq<string>, out: seq<V>, m: map<string, V>, done: set<string>, k: string)
    requires Collected(keys, out, m, done) && k !in done
    ensures k in m ==> Collected(keys + [k], out + [m[k]], m, done + {k})
    ensures k !in m ==> Collected(keys, out, m, done + {k})
  {
  }

  lemma CollectAgain<V>(keys: seq<string>, out: seq<V>, m: map<string, V>, done: set<string>, k: string)
    requires Collected(keys, out, m, done) && k in done
    ensures Collected(keys, out, m, done + {k})
  {
    assert done + {k} == done;
  }

  lemma CollectedAll<V>(keys: seq<string>, out: seq<V>, m: map<string, V>, done: set<string>)
    requires Collected(keys, out, m, done) && m.Keys <= done
    ensures Walks(keys, m) && out == Listed(keys, m)
  {
    forall k ensures k in keys <==> k in m { assert k in m ==> k in m.Keys; }
  }
}
