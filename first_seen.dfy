/**
 * First-seen de-duplication, the idiom `if x not in acc: acc.append(x)` that the
 * audit script uses for every user list it builds.
 */
module FirstSeen {

  /** No element occurs twice. */
  predicate Distinct<T(==,!new)>(s: seq<T>) {
    forall i, j :: 0 <= i < j < |s| ==> s[i] != s[j]
  }

  /** `acc` with `x` appended unless `x` is already in it. */
  function AppendNew<T(==,!new)>(acc: seq<T>, x: T): (r: seq<T>)
    ensures acc <= r && x in r
    ensures forall y :: y in r <==> y in acc || y == x
    ensures Distinct(acc) ==> Distinct(r)
  {
    if x in acc then acc else acc + [x]
  }

  /** `acc` after `AppendNew` of every element of `xs`, in order. */
  function AppendAll<T(==,!new)>(acc: seq<T>, xs: seq<T>): (r: seq<T>)
    ensures acc <= r
    ensures forall y :: y in r <==> y in acc || y in xs
    ensures Distinct(acc) ==> Distinct(r)
    decreases |xs|
  {
    if xs == [] then acc else AppendNew(AppendAll(acc, xs[..|xs| - 1]), xs[|xs| - 1])
  }

  /** The first-seen de-duplication of `s`. */
  function Dedupe<T(==,!new)>(s: seq<T>): (r: seq<T>)
    ensures Distinct(r)
    ensures forall y :: y in r <==> y in s
  {
    AppendAll([], s)
  }

  /** Index of the first occurrence of `x` in `s`. */
  function FirstIndex<T(==,!new)>(s: seq<T>, x: T): (i: nat)
    requires x in s
    ensures i < |s| && s[i] == x && x !in s[..i]
  {
    if s[0] == x then 0 else
      assert x in s[1..];
      var k := FirstIndex(s[1..], x);
      assert s[..k + 1] == [s[0]] + s[1..][..k];
      k + 1
  }

  lemma DedupeSnoc<T(!new)>(s: seq<T>, x: T)
    ensures Dedupe(s + [x]) == AppendNew(Dedupe(s), x)
  {
    assert (s + [x])[..|s|] == s;
  }

  /** Feeding two lists one after the other is the same as feeding their concatenation. */
  lemma {:induction false} AppendAllConcat<T(!new)>(acc: seq<T>, xs: seq<T>, ys: seq<T>)
    ensures AppendAll(acc, xs + ys) == AppendAll(AppendAll(acc, xs), ys)
    decreases |ys|
  {
    if ys == [] {
      assert xs + ys == xs;
    } else {
      var n := |ys| - 1;
      assert (xs + ys)[..|xs + ys| - 1] == xs + ys[..n];
      assert (xs + ys)[|xs + ys| - 1] == ys[n];
      AppendAllConcat(acc, xs, ys[..n]);
    }
  }

  lemma FirstIndexSnoc<T(!new)>(s: seq<T>, x: T, y: T)
    requires y in s
    ensures FirstIndex(s + [x], y) == FirstIndex(s, y)
  {
    var i := FirstIndex(s, y);
    assert (s + [x])[..i] == s[..i];
    assert (s + [x])[i] == y;
  }

  /**
   * Dedupe keeps first-occurrence order: an earlier element of the result was first
   * seen earlier in the input.
   */
  lemma {:induction false} DedupeOrder<T(!new)>(s: seq<T>)
    ensures forall i, j :: 0 <= i < j < |Dedupe(s)| ==>
      FirstIndex(s, Dedupe(s)[i]) < FirstIndex(s, Dedupe(s)[j])
  {
    if s != [] {
      var p, x := s[..|s| - 1], s[|s| - 1];
      assert s == p + [x];
      DedupeOrder(p);
      DedupeSnoc(p, x);
      var d, r := Dedupe(p), Dedupe(s);
      forall y | y in d ensures FirstIndex(s, y) == FirstIndex(p, y) {
        FirstIndexSnoc(p, x, y);
      }
      if x !in d {
        assert r == d + [x];
        assert FirstIndex(s, x) == |p| by {
          assert x !in p;
          assert s[|p|] == x;
        }
        forall i, j | 0 <= i < j < |r|
          ensures FirstIndex(s, r[i]) < FirstIndex(s, r[j])
        {
          assert r[i] == d[i] && r[i] in d;
          if j < |d| {
            assert r[j] == d[j] && r[j] in d;
          } else {
            assert FirstIndex(p, d[i]) < |p|;
          }
        }
      }
    }
  }

  /**
   * The elements of `s` that satisfy `keep`, each at its first occurrence, in the order
   * of `s`.
   */
  function FirstSeenWhere<T(==,!new)>(s: seq<T>, keep: T -> bool): (r: seq<T>)
    ensures Distinct(r)
    ensures forall u :: u in r <==> u in s && keep(u)
    decreases |s|
  {
    if s == [] then []
    else
      var prefix := FirstSeenWhere(s[..|s| - 1], keep);
      var x := s[|s| - 1];
      assert forall u :: u in s <==> u in s[..|s| - 1] || u == x by {
        assert s == s[..|s| - 1] + [x];
      }
      if keep(x) then AppendNew(prefix, x) else prefix
  }

  /** FirstSeenWhere keeps first-occurrence order. */
  lemma {:induction false} FirstSeenWhereOrder<T(!new)>(s: seq<T>, keep: T -> bool)
    ensures forall i, j :: 0 <= i < j < |FirstSeenWhere(s, keep)| ==>
      FirstIndex(s, FirstSeenWhere(s, keep)[i]) < FirstIndex(s, FirstSeenWhere(s, keep)[j])
    decreases |s|
  {
    if s != [] {
      var p, x := s[..|s| - 1], s[|s| - 1];
      assert s == p + [x];
      FirstSeenWhereOrder(p, keep);
      var d, r := FirstSeenWhere(p, keep), FirstSeenWhere(s, keep);
      forall y | y in d ensures FirstIndex(s, y) == FirstIndex(p, y) {
        FirstIndexSnoc(p, x, y);
      }
      if keep(x) && x !in d {
        assert r == d + [x];
        assert FirstIndex(s, x) == |p| by {
          assert x !in p;
          assert s[|p|] == x;
        }
        forall i, j | 0 <= i < j < |r|
          ensures FirstIndex(s, r[i]) < FirstIndex(s, r[j])
        {
          assert r[i] == d[i] && r[i] in d;
          if j < |d| {
            assert r[j] == d[j] && r[j] in d;
          } else {
            assert FirstIndex(p, d[i]) < |p|;
          }
        }
      } else {
        assert r == d;
        forall i, j | 0 <= i < j < |r|
          ensures FirstIndex(s, r[i]) < FirstIndex(s, r[j])
        {
          assert r[i] == d[i] && r[j] == d[j];
          assert FirstIndex(p, d[i]) < FirstIndex(p, d[j]);
          assert d[i] in d && d[j] in d;
        }
      }
    }
  }
}
