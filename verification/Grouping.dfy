/** Grouping into a JavaScript `Map` of lists: keys keep the order in which they
    were first set. */
module Grouping {
  import opened Sorting

  datatype Groups<!K(==), V> = Groups(keys: seq<K>, members: map<K, seq<V>>)

  function MembersOf<K(==), V>(g: Groups<K, V>, key: K): seq<V> {
    if key in g.members then g.members[key] else []
  }

  /** `map.set(key, [...(map.get(key) ?? []), x])`. */
  function Pushed<K(==), V>(g: Groups<K, V>, key: K, x: V): Groups<K, V> {
    Groups(if key in g.members then g.keys else g.keys + [key], g.members[key := MembersOf(g, key) + [x]])
  }

  function GroupBy<K(==), V>(key: V -> K, items: seq<V>): Groups<K, V> {
    if items == [] then Groups([], map[])
    else Pushed(GroupBy(key, items[..|items| - 1]), key(items[|items| - 1]), items[|items| - 1])
  }

  lemma GroupByAppend<K, V>(key: V -> K, items: seq<V>, x: V)
    ensures GroupBy(key, items + [x]) == Pushed(GroupBy(key, items), key(x), x)
  {
    assert (items + [x])[..|items|] == items;
  }

  /** The key list and the map list the same groups, each once, none empty. */
  ghost predicate WellFormed<K(!new), V>(g: Groups<K, V>) {
    && (forall j, k :: 0 <= j < k < |g.keys| ==> g.keys[j] != g.keys[k])
    && (forall key :: key in g.keys <==> key in g.members)
    && (forall key :: key in g.members ==> g.members[key] != [])
  }

  lemma PushedIsWellFormed<K(!new), V>(g: Groups<K, V>, key: K, x: V)
    requires WellFormed(g)
    ensures WellFormed(Pushed(g, key, x))
  {
  }

  lemma PushedMembers<K, V>(g: Groups<K, V>, key: K, x: V, k: K)
    ensures MembersOf(Pushed(g, key, x), k) == MembersOf(g, k) + if k == key then [x] else []
  {
  }

  lemma {:induction false} GroupByIsWellFormed<K(!new), V>(key: V -> K, items: seq<V>)
    ensures WellFormed(GroupBy(key, items))
  {
    if items != [] {
      GroupByIsWellFormed(key, items[..|items| - 1]);
    }
  }

  /** Each group is the items with its key, in the order they came. */
  lemma {:induction false} GroupsAreFiltered<K, V>(key: V -> K, items: seq<V>, k: K)
    ensures MembersOf(GroupBy(key, items), k) == Filter(x => key(x) == k, items)
    ensures k in GroupBy(key, items).members <==> exists x :: x in items && key(x) == k
  {
    if items != [] {
      var front, last := items[..|items| - 1], items[|items| - 1];
      assert items == front + [last];
      GroupsAreFiltered(key, front, k);
      FilterAppend(x => key(x) == k, front, last);
    }
  }

  function Concat<K(==), V>(keys: seq<K>, g: Groups<K, V>): seq<V> {
    if keys == [] then [] else MembersOf(g, keys[0]) + Concat(keys[1..], g)
  }

  lemma {:induction false} PushAddsOne<K, V>(keys: seq<K>, g: Groups<K, V>, key: K, x: V)
    requires forall j, k :: 0 <= j < k < |keys| ==> keys[j] != keys[k]
    ensures multiset(Concat(keys, Pushed(g, key, x)))
      == multiset(Concat(keys, g)) + if key in keys then multiset{x} else multiset{}
  {
    if keys != [] {
      assert keys == [keys[0]] + keys[1..];
      PushAddsOne(keys[1..], g, key, x);
    }
  }

  lemma {:induction false} ConcatAppend<K, V>(keys: seq<K>, key: K, g: Groups<K, V>)
    ensures Concat(keys + [key], g) == Concat(keys, g) + MembersOf(g, key)
  {
    if keys == [] {
      assert [key][1..] == [];
    } else {
      assert (keys + [key])[1..] == keys[1..] + [key];
      ConcatAppend(keys[1..], key, g);
    }
  }

  /** Going through the groups one after the other meets every item once. */
  lemma {:induction false} GroupsPartition<K(!new), V>(key: V -> K, items: seq<V>)
    ensures var g := GroupBy(key, items); multiset(Concat(g.keys, g)) == multiset(items)
  {
    if items != [] {
      var front, last := items[..|items| - 1], items[|items| - 1];
      assert items == front + [last];
      GroupsPartition(key, front);
      GroupByIsWellFormed(key, front);
      var g, k := GroupBy(key, front), key(last);
      var after := Pushed(g, k, last);
      PushAddsOne(g.keys, g, k, last);
      if k !in g.members {
        ConcatAppend(g.keys, k, after);
        assert MembersOf(after, k) == [last];
      }
    }
  }
}
