/**
 * Python's `sorted(xs, key=...)` and `xs.sort()`, as an insertion sort over a total
 * preorder `le`; the sort is characterised by sortedness and permutation.
 */
module Sorting {
  import opened FirstSeen

  ghost predicate TotalPreorder<T(!new)>(le: (T, T) -> bool) {
    && (forall a, b :: le(a, b) || le(b, a))
    && (forall a, b, c :: le(a, b) && le(b, c) ==> le(a, c))
  }

  ghost predicate Antisymmetric<T(!new)>(le: (T, T) -> bool) {
    forall a, b :: le(a, b) && le(b, a) ==> a == b
  }

  predicate SortedBy<T>(s: seq<T>, le: (T, T) -> bool) {
    forall i, j :: 0 <= i < j < |s| ==> le(s[i], s[j])
  }

  /**
   * When `x` does not go before the head of sorted `s`, the head is below every
   * element of `t`, which holds the rest of `s` and `x`.
   */
  lemma HeadBelowInsert<T(!new)>(x: T, s: seq<T>, t: seq<T>, le: (T, T) -> bool)
    requires TotalPreorder(le) && SortedBy(s, le) && |s| > 0 && !le(x, s[0])
    requires multiset(t) == multiset(s[1..]) + multiset{x}
    ensures forall y :: y in multiset(t) ==> le(s[0], y)
  {
    forall y | y in multiset(t) ensures le(s[0], y) {
      if y != x {
        assert y in multiset(s[1..]);
        var k :| 0 <= k < |s[1..]| && s[1..][k] == y;
        assert s[k + 1] == y;
      }
    }
  }

  lemma ConsSorted<T>(h: T, t: seq<T>, le: (T, T) -> bool)
    requires SortedBy(t, le) && forall y :: y in multiset(t) ==> le(h, y)
    ensures SortedBy([h] + t, le)
  {
    var r := [h] + t;
    forall i, j | 0 <= i < j < |r| ensures le(r[i], r[j]) {
      if i == 0 {
        assert r[j] == t[j - 1] && t[j - 1] in multiset(t);
      } else {
        assert r[i] == t[i - 1] && r[j] == t[j - 1];
      }
    }
  }

  function Insert<T(!new)>(x: T, s: seq<T>, le: (T, T) -> bool): (r: seq<T>)
    requires TotalPreorder(le) && SortedBy(s, le)
    ensures SortedBy(r, le)
    ensures multiset(r) == multiset(s) + multiset{x}
  {
    if s == [] || le(x, s[0]) then [x] + s
    else
      var t := Insert(x, s[1..], le);
      assert s == [s[0]] + s[1..];
      HeadBelowInsert(x, s, t, le);
      ConsSorted(s[0], t, le);
      [s[0]] + t
  }

  /** `sorted(s)` under the order `le`: an ordered permutation of `s`. */
  function SortBy<T(!new)>(s: seq<T>, le: (T, T) -> bool): (r: seq<T>)
    requires TotalPreorder(le)
    ensures SortedBy(r, le)
    ensures multiset(r) == multiset(s)
  {
    if s == [] then []
    else
      assert s == [s[0]] + s[1..];
      Insert(s[0], SortBy(s[1..], le), le)
  }

  /** Under an antisymmetric order the sorted permutation is unique. */
  lemma {:induction false} SortedUnique<T(!new)>(a: seq<T>, b: seq<T>, le: (T, T) -> bool)
    requires forall x, y :: x in a && y in a && le(x, y) && le(y, x) ==> x == y
    requires SortedBy(a, le) && SortedBy(b, le)
    requires multiset(a) == multiset(b)
    ensures a == b
    decreases |a|
  {
    if a != [] {
      assert |b| == |multiset(b)| == |multiset(a)| == |a|;
      SameHead(a, b, le);
      MultisetTail(a, b);
      assert forall x :: x in a[1..] ==> x in a;
      SortedUnique(a[1..], b[1..], le);
      assert a == [a[0]] + a[1..] && b == [b[0]] + b[1..];
    }
  }

  lemma SameHead<T(!new)>(a: seq<T>, b: seq<T>, le: (T, T) -> bool)
    requires a != [] && b != []
    requires forall x, y :: x in a && y in a && le(x, y) && le(y, x) ==> x == y
    requires SortedBy(a, le) && SortedBy(b, le)
    requires multiset(a) == multiset(b)
    ensures a[0] == b[0]
  {
    assert a[0] in multiset(b) && b[0] in multiset(a);
    var i :| 0 <= i < |b| && b[i] == a[0];
    var j :| 0 <= j < |a| && a[j] == b[0];
    if i != 0 && j != 0 {
      assert le(b[0], b[i]) && le(a[0], a[j]);
    }
  }

  lemma MultisetTail<T>(a: seq<T>, b: seq<T>)
    requires a != [] && b != [] && a[0] == b[0] && multiset(a) == multiset(b)
    ensures multiset(a[1..]) == multiset(b[1..])
  {
    assert a == [a[0]] + a[1..] && b == [b[0]] + b[1..];
    assert multiset(a) == multiset{a[0]} + multiset(a[1..]);
    assert multiset(b) == multiset{b[0]} + multiset(b[1..]);
    forall x ensures multiset(a[1..])[x] == multiset(b[1..])[x] {
      assert multiset(a)[x] == multiset{a[0]}[x] + multiset(a[1..])[x];
      assert multiset(b)[x] == multiset{b[0]}[x] + multiset(b[1..])[x];
    }
  }

  /** A sequence ordered by `le`, with no two of its elements tied, is its own sort. */
  lemma SortOfSorted<T(!new)>(s: seq<T>, le: (T, T) -> bool)
    requires TotalPreorder(le) && SortedBy(s, le)
    requires forall x, y :: x in s && y in s && le(x, y) && le(y, x) ==> x == y
    ensures SortBy(s, le) == s
  {
    SortedUnique(s, SortBy(s, le), le);
  }

  /** `Distinct` stated through multiplicities, so that it survives permutation. */
  lemma {:induction false} DistinctMultiplicity<T(!new)>(s: seq<T>)
    ensures Distinct(s) <==> forall x :: multiset(s)[x] <= 1
  {
    if s != [] {
      var p, z := s[..|s| - 1], s[|s| - 1];
      assert s == p + [z];
      DistinctMultiplicity(p);
      if Distinct(s) {
        assert Distinct(p);
        assert z !in p;
      } else {
        if Distinct(p) {
          var i, j :| 0 <= i < j < |s| && s[i] == s[j];
          assert j == |p| && s[i] in p;
          assert multiset(s)[z] == multiset(p)[z] + 1;
        } else {
          var x :| multiset(p)[x] > 1;
          assert multiset(s)[x] >= multiset(p)[x];
        }
      }
    }
  }

  lemma DistinctPermutation<T(!new)>(a: seq<T>, b: seq<T>)
    requires multiset(a) == multiset(b) && Distinct(b)
    ensures Distinct(a)
  {
    DistinctMultiplicity(a);
    DistinctMultiplicity(b);
  }
}
