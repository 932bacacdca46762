/** The stable sort of the source languages (`sorted`, `Array.prototype.sort`),
    as a function, with what its callers rely on. */
module Sorting {

  ghost predicate Total<T(!new)>(le: (T, T) -> bool) {
    forall x, y :: le(x, y) || le(y, x)
  }

  ghost predicate Transitive<T(!new)>(le: (T, T) -> bool) {
    forall x, y, z :: le(x, y) && le(y, z) ==> le(x, z)
  }

  ghost predicate Preorder<T(!new)>(le: (T, T) -> bool) {
    Total(le) && Transitive(le)
  }

  ghost predicate Ordered<T>(le: (T, T) -> bool, s: seq<T>) {
    forall j, k :: 0 <= j < k < |s| ==> le(s[j], s[k])
  }

  /** Places `x` behind every element of the ordered `s` that is not greater. */
  function Place<T>(le: (T, T) -> bool, s: seq<T>, x: T): seq<T> {
    if s == [] then [x]
    else if le(s[|s| - 1], x) then s + [x]
    else Place(le, s[..|s| - 1], x) + [s[|s| - 1]]
  }

  function Sort<T>(le: (T, T) -> bool, s: seq<T>): seq<T> {
    if s == [] then [] else Place(le, Sort(le, s[..|s| - 1]), s[|s| - 1])
  }

  function Filter<T>(p: T -> bool, s: seq<T>): seq<T> {
    if s == [] then []
    else Filter(p, s[..|s| - 1]) + if p(s[|s| - 1]) then [s[|s| - 1]] else []
  }

  lemma FilterAppend<T>(p: T -> bool, s: seq<T>, x: T)
    ensures Filter(p, s + [x]) == Filter(p, s) + if p(x) then [x] else []
  {
    assert (s + [x])[..|s|] == s;
  }

  lemma {:induction false} FilterMembers<T>(p: T -> bool, s: seq<T>)
    ensures forall x :: x in Filter(p, s) <==> x in s && p(x)
  {
    if s != [] {
      FilterMembers(p, s[..|s| - 1]);
      assert s == s[..|s| - 1] + [s[|s| - 1]];
    }
  }

  lemma {:induction false} PlacePermutes<T>(le: (T, T) -> bool, s: seq<T>, x: T)
    ensures multiset(Place(le, s, x)) == multiset(s) + multiset{x}
  {
    if s != [] {
      assert s == s[..|s| - 1] + [s[|s| - 1]];
      if !le(s[|s| - 1], x) {
        PlacePermutes(le, s[..|s| - 1], x);
      }
    }
  }

  lemma {:induction false} SortPermutes<T>(le: (T, T) -> bool, s: seq<T>)
    ensures multiset(Sort(le, s)) == multiset(s)
    ensures |Sort(le, s)| == |s|
    ensures forall x :: x in Sort(le, s) <==> x in s
  {
    if s != [] {
      SortPermutes(le, s[..|s| - 1]);
      PlacePermutes(le, Sort(le, s[..|s| - 1]), s[|s| - 1]);
      assert s == s[..|s| - 1] + [s[|s| - 1]];
    }
    var sorted := Sort(le, s);
    assert |multiset(sorted)| == |sorted|;
    forall x ensures x in sorted <==> x in s {
      assert x in sorted <==> x in multiset(sorted);
      assert x in s <==> x in multiset(s);
    }
  }

  lemma {:induction false} PlaceOrders<T(!new)>(le: (T, T) -> bool, s: seq<T>, x: T)
    requires Preorder(le) && Ordered(le, s)
    ensures Ordered(le, Place(le, s, x))
  {
    if s != [] && !le(s[|s| - 1], x) {
      var front, last := s[..|s| - 1], s[|s| - 1];
      PlaceOrders(le, front, x);
      PlacePermutes(le, front, x);
      var placed := Place(le, front, x);
      forall k | 0 <= k < |placed| ensures le(placed[k], last) {
        assert placed[k] in multiset(placed);
        assert placed[k] in multiset(front) || placed[k] == x;
      }
    }
  }

  lemma {:induction false} SortOrders<T(!new)>(le: (T, T) -> bool, s: seq<T>)
    requires Preorder(le)
    ensures Ordered(le, Sort(le, s))
  {
    if s != [] {
      SortOrders(le, s[..|s| - 1]);
      PlaceOrders(le, Sort(le, s[..|s| - 1]), s[|s| - 1]);
    }
  }

  /** `p` picks out elements that the order does not tell apart. */
  ghost predicate OneClass<T(!new)>(le: (T, T) -> bool, p: T -> bool) {
    forall x, y :: p(x) && p(y) ==> le(x, y)
  }

  lemma {:induction false} PlaceIsStable<T(!new)>(le: (T, T) -> bool, s: seq<T>, x: T, p: T -> bool)
    requires OneClass(le, p)
    ensures Filter(p, Place(le, s, x)) == Filter(p, s) + if p(x) then [x] else []
  {
    if s == [] {
      FilterAppend(p, s, x);
      assert [] + [x] == [x];
    } else if le(s[|s| - 1], x) {
      FilterAppend(p, s, x);
    } else {
      var front, last := s[..|s| - 1], s[|s| - 1];
      PlaceIsStable(le, front, x, p);
      FilterAppend(p, Place(le, front, x), last);
      assert !(p(last) && p(x));
    }
  }

  /** Elements that compare equal keep their relative order. */
  lemma {:induction false} SortIsStable<T(!new)>(le: (T, T) -> bool, s: seq<T>, p: T -> bool)
    requires OneClass(le, p)
    ensures Filter(p, Sort(le, s)) == Filter(p, s)
  {
    if s != [] {
      SortIsStable(le, s[..|s| - 1], p);
      PlaceIsStable(le, Sort(le, s[..|s| - 1]), s[|s| - 1], p);
    }
  }

  lemma HeadsAgree<T(!new)>(le: (T, T) -> bool, a: seq<T>, b: seq<T>)
    requires Ordered(le, a) && Ordered(le, b) && multiset(a) == multiset(b) && a != [] && b != []
    requires forall x, y :: x in a && y in a && le(x, y) && le(y, x) ==> x == y
    ensures a[0] == b[0]
  {
    assert a[0] in multiset(b) && b[0] in multiset(a);
    var j :| 0 <= j < |b| && b[j] == a[0];
    var k :| 0 <= k < |a| && a[k] == b[0];
    if j != 0 && k != 0 {
      assert le(a[0], a[k]) && le(b[0], b[j]);
    }
  }

  /** Two ordered arrangements of the same elements are equal when no two
      different elements compare equal. */
  lemma {:induction false} OrderedIsUnique<T(!new)>(le: (T, T) -> bool, a: seq<T>, b: seq<T>)
    requires Ordered(le, a) && Ordered(le, b) && multiset(a) == multiset(b)
    requires forall x, y :: x in a && y in a && le(x, y) && le(y, x) ==> x == y
    ensures a == b
  {
    assert |multiset(a)| == |a| && |multiset(b)| == |b|;
    if a != [] {
      HeadsAgree(le, a, b);
      TailCounts(a);
      TailCounts(b);
      forall x | x in a[1..] ensures x in a {
      }
      OrderedIsUnique(le, a[1..], b[1..]);
    }
  }

  lemma TailCounts<T>(s: seq<T>)
    requires s != []
    ensures s == [s[0]] + s[1..] && multiset(s[1..]) == multiset(s) - multiset{s[0]}
  {
    assert s == [s[0]] + s[1..];
  }

  lemma {:induction false} FilterCounts<T>(p: T -> bool, s: seq<T>, x: T)
    ensures multiset(Filter(p, s))[x] == if p(x) then multiset(s)[x] else 0
  {
    if s != [] {
      FilterCounts(p, s[..|s| - 1], x);
      assert s == s[..|s| - 1] + [s[|s| - 1]];
    }
  }

  lemma FilterPermutes<T(!new)>(p: T -> bool, s: seq<T>, t: seq<T>)
    requires multiset(s) == multiset(t)
    ensures multiset(Filter(p, s)) == multiset(Filter(p, t))
  {
    forall x ensures multiset(Filter(p, s))[x] == multiset(Filter(p, t))[x] {
      FilterCounts(p, s, x);
      FilterCounts(p, t, x);
    }
  }

  ghost predicate NoRepeats<T>(s: seq<T>) {
    forall j, k :: 0 <= j < k < |s| ==> s[j] != s[k]
  }

  lemma {:induction false} CountsOnce<T>(s: seq<T>, x: T)
    requires NoRepeats(s)
    ensures multiset(s)[x] == if x in s then 1 else 0
  {
    if s != [] {
      CountsOnce(s[..|s| - 1], x);
      assert s == s[..|s| - 1] + [s[|s| - 1]];
    }
  }

  lemma SameMembersPermute<T(!new)>(s: seq<T>, t: seq<T>)
    requires NoRepeats(s) && NoRepeats(t) && forall x :: x in s <==> x in t
    ensures multiset(s) == multiset(t)
  {
    forall x ensures multiset(s)[x] == multiset(t)[x] {
      CountsOnce(s, x);
      CountsOnce(t, x);
    }
  }

  lemma PermutationHasNoRepeats<T(!new)>(s: seq<T>, t: seq<T>)
    requires NoRepeats(s) && multiset(s) == multiset(t)
    ensures NoRepeats(t)
  {
    forall j, k | 0 <= j < k < |t| ensures t[j] != t[k] {
      CountsOnce(s, t[k]);
      assert t == t[..k] + [t[k]] + t[k + 1..];
      assert t[..k][j] == t[j];
      assert t[j] in multiset(t[..k]);
    }
  }
}
