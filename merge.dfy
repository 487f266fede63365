/**
 * `sort_and_merge` in access_audit_debug.py: order the day records by start date,
 * sort each record's users, and fold consecutive days with the same users into one
 * interval.
 */
module Merge {
  import opened FirstSeen
  import opened Text
  import opened Sorting
  import opened Aggregate

  /** The sort key `record["start"]`, as an order on records. */
  predicate ByStart(a: DayRecord, b: DayRecord) {
    a.start <= b.start
  }

  /** Day `d` lies in the interval `[r.start, r.end]`. */
  predicate Within(d: Date, r: DayRecord) {
    r.start <= d <= r.end
  }

  /** What aggregation hands over: single-day records, one per date. */
  predicate DayRecords(rs: seq<DayRecord>) {
    && (forall i :: 0 <= i < |rs| ==> rs[i].start == rs[i].end)
    && (forall i, j :: 0 <= i < j < |rs| ==> rs[i].start != rs[j].start)
  }

  predicate StrictlyAscending(rs: seq<DayRecord>) {
    forall i, j :: 0 <= i < j < |rs| ==> rs[i].start < rs[j].start
  }

  /** One record step of the merge loop over the already merged list `out`. */
  function MergeStep(out: seq<DayRecord>, r: DayRecord): seq<DayRecord>
  {
    if out != [] && r.start == out[|out| - 1].end + 1 && r.users == out[|out| - 1].users
    then out[..|out| - 1] + [out[|out| - 1].(end := r.start)]
    else out + [r]
  }

  /** The merge loop's `merged_records` after reading `rs`. */
  function MergeDays(rs: seq<DayRecord>): seq<DayRecord>
  {
    if rs == [] then [] else MergeStep(MergeDays(rs[..|rs| - 1]), rs[|rs| - 1])
  }

  /** `names.sort()` on a list of user names. */
  function SortNames(names: seq<string>): (r: seq<string>)
    ensures SortedBy(r, LexLe) && multiset(r) == multiset(names)
  {
    LexLeTotalPreorder();
    SortBy(names, LexLe)
  }

  /** Each record with its users sorted (`record["users"].sort()`). */
  function SortUsers(rs: seq<DayRecord>): (r: seq<DayRecord>)
    ensures |r| == |rs|
    ensures forall i :: 0 <= i < |rs| ==> r[i] == rs[i].(users := SortNames(rs[i].users))
  {
    seq(|rs|, i requires 0 <= i < |rs| => rs[i].(users := SortNames(rs[i].users)))
  }

  /** The whole of `sort_and_merge` on the dictionary's values. */
  function SortAndMergeSpec(values: seq<DayRecord>): seq<DayRecord>
  {
    MergeDays(SortUsers(SortBy(values, ByStart)))
  }

  lemma LexLeTotalPreorder()
    ensures TotalPreorder(LexLe) && Antisymmetric(LexLe)
  {
    forall a, b ensures LexLe(a, b) || LexLe(b, a) { LexTotal(a, b); }
    forall a, b, c | LexLe(a, b) && LexLe(b, c) ensures LexLe(a, c) { LexTransitive(a, b, c); }
    forall a, b | LexLe(a, b) && LexLe(b, a) ensures a == b { LexAntisymmetric(a, b); }
  }

  lemma ByStartTotalPreorder()
    ensures TotalPreorder(ByStart)
  {
  }

  // ------------------------------------------------------------ merge invariants

  /** Consecutive intervals are well formed, in order, apart, and never mergeable. */
  predicate Chain(out: seq<DayRecord>) {
    && (forall j :: 0 <= j < |out| ==> out[j].start <= out[j].end)
    && (forall j, k :: 0 <= j < |out| && 0 <= k < |out| && k == j + 1 ==> out[j].end < out[k].start)
    && NoMergeableNeighbours(out)
  }

  /** No interval directly follows its predecessor with the same users (maximality). */
  predicate NoMergeableNeighbours(out: seq<DayRecord>) {
    forall j, k :: 0 <= j < |out| && 0 <= k < |out| && k == j + 1 ==>
      !(out[k].start == out[j].end + 1 && out[k].users == out[j].users)
  }

  /** Every input day lies in an interval that carries its users. */
  ghost predicate Covers(rs: seq<DayRecord>, out: seq<DayRecord>) {
    forall i :: 0 <= i < |rs| ==> CoveredBy(rs[i], out)
  }

  /** Day record `r` lies in some interval of `out` that carries its users. */
  ghost predicate CoveredBy(r: DayRecord, out: seq<DayRecord>) {
    exists j :: 0 <= j < |out| && Within(r.start, out[j]) && out[j].users == r.users
  }

  /** Some input record is the day `d` with exactly the users `users`. */
  ghost predicate InputDay(rs: seq<DayRecord>, d: Date, users: seq<string>) {
    exists i :: 0 <= i < |rs| && rs[i].start == d && rs[i].users == users
  }

  /** Every day of every interval is an input day with the interval's users. */
  ghost predicate Sound(rs: seq<DayRecord>, out: seq<DayRecord>) {
    forall j, d :: 0 <= j < |out| && Within(d, out[j]) ==> InputDay(rs, d, out[j].users)
  }

  /** What the merge loop keeps true of `merged_records` after reading `rs`. */
  ghost predicate MergeInv(rs: seq<DayRecord>, out: seq<DayRecord>) {
    && (out == [] <==> rs == [])
    && (rs != [] ==> out[|out| - 1].end == rs[|rs| - 1].start)
    && Chain(out) && Covers(rs, out) && Sound(rs, out)
  }

  /** Whether the merge step extends the last interval with `r`. */
  predicate Extends(out: seq<DayRecord>, r: DayRecord) {
    out != [] && r.start == out[|out| - 1].end + 1 && r.users == out[|out| - 1].users
  }

  lemma StepChain(p: seq<DayRecord>, r: DayRecord, o: seq<DayRecord>)
    requires Chain(o) && r.start == r.end
    requires o == [] <==> p == []
    requires p != [] ==> o[|o| - 1].end == p[|p| - 1].start < r.start
    ensures var out := MergeStep(o, r);
      out != [] && out[|out| - 1].end == r.start && Chain(out)
  {
    var out := MergeStep(o, r);
    if Extends(o, r) {
      var n := |o| - 1;
      assert out == o[..n] + [o[n].(end := r.start)];
      assert forall j :: 0 <= j < n ==> out[j] == o[j];
    } else {
      assert out == o + [r];
    }
  }

  lemma StepCovers(p: seq<DayRecord>, r: DayRecord, o: seq<DayRecord>)
    requires Covers(p, o) && r.start == r.end
    requires o == [] <==> p == []
    requires o != [] ==> o[|o| - 1].start <= o[|o| - 1].end
    ensures Covers(p + [r], MergeStep(o, r))
  {
    var rs, out := p + [r], MergeStep(o, r);
    if Extends(o, r) {
      var n := |o| - 1;
      assert out == o[..n] + [o[n].(end := r.start)];
      forall i | 0 <= i < |rs|
        ensures CoveredBy(rs[i], out)
      {
        if i < |p| {
          var j :| 0 <= j < |o| && Within(p[i].start, o[j]) && o[j].users == p[i].users;
          assert rs[i] == p[i];
          assert Within(rs[i].start, out[j]);
        } else {
          assert Within(rs[i].start, out[n]);
        }
      }
    } else {
      assert out == o + [r];
      forall i | 0 <= i < |rs|
        ensures CoveredBy(rs[i], out)
      {
        if i < |p| {
          var j :| 0 <= j < |o| && Within(p[i].start, o[j]) && o[j].users == p[i].users;
          assert rs[i] == p[i] && out[j] == o[j];
          assert Within(rs[i].start, out[j]);
        } else {
          assert Within(rs[i].start, out[|o|]);
        }
      }
    }
  }

  lemma StepSound(p: seq<DayRecord>, r: DayRecord, o: seq<DayRecord>)
    requires Sound(p, o) && r.start == r.end
    ensures Sound(p + [r], MergeStep(o, r))
  {
    var rs, out := p + [r], MergeStep(o, r);
    if Extends(o, r) {
      var n := |o| - 1;
      assert out == o[..n] + [o[n].(end := r.start)];
      forall j, d | 0 <= j < |out| && Within(d, out[j])
        ensures InputDay(rs, d, out[j].users)
      {
        if j < n || d <= o[n].end {
          assert Within(d, o[j]);
          var i :| 0 <= i < |p| && p[i].start == d && p[i].users == o[j].users;
          assert rs[i] == p[i];
        } else {
          assert rs[|p|].start == d;
        }
      }
    } else {
      assert out == o + [r];
      forall j, d | 0 <= j < |out| && Within(d, out[j])
        ensures InputDay(rs, d, out[j].users)
      {
        if j < |o| {
          assert out[j] == o[j] && Within(d, o[j]);
          var i :| 0 <= i < |p| && p[i].start == d && p[i].users == o[j].users;
          assert rs[i] == p[i];
        } else {
          assert rs[|p|].start == d;
        }
      }
    }
  }

  /**
   * On single-day records in strictly ascending order the merge produces a chain of
   * intervals that covers every input day with its users and contains no other day.
   */
  lemma {:induction false} MergeInvariant(rs: seq<DayRecord>)
    requires DayRecords(rs) && StrictlyAscending(rs)
    ensures MergeInv(rs, MergeDays(rs))
  {
    if rs != [] {
      var p, r := rs[..|rs| - 1], rs[|rs| - 1];
      assert rs == p + [r];
      assert DayRecords(p) && StrictlyAscending(p) by {
        assert forall i :: 0 <= i < |p| ==> p[i] == rs[i];
      }
      MergeInvariant(p);
      var o := MergeDays(p);
      assert MergeDays(rs) == MergeStep(o, r);
      assert r.start == r.end;
      assert p != [] ==> p[|p| - 1].start < r.start by {
        if p != [] {
          assert p[|p| - 1] == rs[|rs| - 2];
        }
      }
      StepChain(p, r, o);
      StepCovers(p, r, o);
      StepSound(p, r, o);
    }
  }

  /** Consecutive order extends to every pair: intervals are disjoint and ascending. */
  lemma {:induction false} ChainOrdered(out: seq<DayRecord>, j: int, k: int)
    requires Chain(out) && 0 <= j < k < |out|
    ensures out[j].end < out[k].start
    decreases k - j
  {
    if j + 1 < k {
      ChainOrdered(out, j, k - 1);
      assert out[k - 1].start <= out[k - 1].end;
    }
  }

  /** A day lies in at most one interval of a chain. */
  lemma ChainDisjoint(out: seq<DayRecord>, d: Date, j: int, k: int)
    requires Chain(out) && 0 <= j < |out| && 0 <= k < |out|
    requires Within(d, out[j]) && Within(d, out[k])
    ensures j == k
  {
    if j < k {
      ChainOrdered(out, j, k);
    } else if k < j {
      ChainOrdered(out, k, j);
    }
  }

  /** A list with no mergeable neighbours is left as it is by the merge. */
  lemma {:induction false} MergeFixpoint(rs: seq<DayRecord>)
    requires NoMergeableNeighbours(rs)
    ensures MergeDays(rs) == rs
  {
    if rs != [] {
      var p := rs[..|rs| - 1];
      MergeFixpoint(p);
      assert p + [rs[|rs| - 1]] == rs;
    }
  }

  // ------------------------------------------------------------ sort_and_merge

  /** Sorting single-day records with distinct dates by start puts them in strictly ascending order. */
  lemma SortedDays(values: seq<DayRecord>)
    requires DayRecords(values)
    ensures DayRecords(SortBy(values, ByStart)) && StrictlyAscending(SortBy(values, ByStart))
  {
    ByStartTotalPreorder();
    var s := SortBy(values, ByStart);
    assert Distinct(values);
    DistinctPermutation(s, values);
    forall x | x in s ensures x in values {
      assert x in multiset(s);
    }
    forall i, j | 0 <= i < j < |s| ensures s[i].start < s[j].start {
      assert s[i] in values && s[j] in values && s[i] != s[j];
      var a :| 0 <= a < |values| && values[a] == s[i];
      var b :| 0 <= b < |values| && values[b] == s[j];
      assert ByStart(s[i], s[j]);
    }
    forall i | 0 <= i < |s| ensures s[i].start == s[i].end {
      assert s[i] in values;
    }
  }

  /** The records sorted by start and with sorted users, as the merge loop reads them. */
  lemma PreparedDays(values: seq<DayRecord>)
    requires DayRecords(values)
    ensures var u := SortUsers(SortBy(values, ByStart));
      DayRecords(u) && StrictlyAscending(u) && MergeInv(u, MergeDays(u))
  {
    SortedDays(values);
    MergeInvariant(SortUsers(SortBy(values, ByStart)));
  }

  /** The merged intervals are well formed, ascending, disjoint, maximal and carry sorted users. */
  lemma SortAndMergeOrdered(values: seq<DayRecord>, out: seq<DayRecord>)
    requires DayRecords(values) && out == SortAndMergeSpec(values)
    ensures out == [] <==> values == []
    ensures forall j :: 0 <= j < |out| ==> out[j].start <= out[j].end && SortedBy(out[j].users, LexLe)
    ensures forall j, k :: 0 <= j < k < |out| ==> out[j].end < out[k].start
    ensures NoMergeableNeighbours(out)
    ensures forall d, j, k :: 0 <= j < |out| && 0 <= k < |out| && Within(d, out[j]) && Within(d, out[k]) ==> j == k
  {
    var u := SortUsers(SortBy(values, ByStart));
    PreparedDays(values);
    forall j, k | 0 <= j < k < |out| ensures out[j].end < out[k].start {
      ChainOrdered(out, j, k);
    }
    forall d, j, k | 0 <= j < |out| && 0 <= k < |out| && Within(d, out[j]) && Within(d, out[k]) ensures j == k {
      ChainDisjoint(out, d, j, k);
    }
    forall j | 0 <= j < |out| ensures SortedBy(out[j].users, LexLe) {
      assert Within(out[j].start, out[j]);
      assert InputDay(u, out[j].start, out[j].users);
    }
  }

  /** Every input day lies in an interval carrying that day's sorted users. */
  lemma SortAndMergeCovers(values: seq<DayRecord>, out: seq<DayRecord>)
    requires DayRecords(values) && out == SortAndMergeSpec(values)
    ensures forall i :: 0 <= i < |values| ==>
      exists j :: 0 <= j < |out| && Within(values[i].start, out[j]) && out[j].users == SortNames(values[i].users)
  {
    forall i | 0 <= i < |values|
      ensures exists j :: 0 <= j < |out| && Within(values[i].start, out[j]) && out[j].users == SortNames(values[i].users)
    {
      CoveredDay(values, i);
    }
  }

  lemma CoveredDay(values: seq<DayRecord>, i: int)
    requires DayRecords(values) && 0 <= i < |values|
    ensures CoveredBy(values[i].(users := SortNames(values[i].users)), SortAndMergeSpec(values))
  {
    ByStartTotalPreorder();
    var s := SortBy(values, ByStart);
    var u := SortUsers(s);
    assert values[i] in multiset(s);
    var k :| 0 <= k < |s| && s[k] == values[i];
    PreparedCovers(values);
    assert CoveredBy(u[k], SortAndMergeSpec(values));
  }

  lemma PreparedCovers(values: seq<DayRecord>)
    requires DayRecords(values)
    ensures Covers(SortUsers(SortBy(values, ByStart)), SortAndMergeSpec(values))
  {
    PreparedDays(values);
  }

  /** Every day of a merged interval is an input day whose sorted users are the interval's. */
  lemma SortAndMergeSound(values: seq<DayRecord>, out: seq<DayRecord>)
    requires DayRecords(values) && out == SortAndMergeSpec(values)
    ensures forall j, d :: 0 <= j < |out| && Within(d, out[j]) ==>
      exists i :: 0 <= i < |values| && values[i].start == d && SortNames(values[i].users) == out[j].users
  {
    var s := SortBy(values, ByStart);
    var u := SortUsers(s);
    PreparedDays(values);
    forall j, d | 0 <= j < |out| && Within(d, out[j])
      ensures exists i :: 0 <= i < |values| && values[i].start == d && SortNames(values[i].users) == out[j].users
    {
      assert InputDay(u, d, out[j].users);
      var k :| 0 <= k < |u| && u[k].start == d && u[k].users == out[j].users;
      assert s[k] in multiset(values);
      var i :| 0 <= i < |values| && values[i] == s[k];
    }
  }

  /** Ascending disjoint intervals are sorted by start, and no two of them share a start. */
  lemma DisjointSortedByStart(out: seq<DayRecord>)
    requires forall j :: 0 <= j < |out| ==> out[j].start <= out[j].end
    requires forall j, k :: 0 <= j < k < |out| ==> out[j].end < out[k].start
    ensures SortedBy(out, ByStart)
    ensures forall x, y :: x in out && y in out && ByStart(x, y) && ByStart(y, x) ==> x == y
  {
    forall x, y | x in out && y in out && ByStart(x, y) && ByStart(y, x) ensures x == y {
      var j :| 0 <= j < |out| && out[j] == x;
      var k :| 0 <= k < |out| && out[k] == y;
    }
  }

  /** Merging the merged intervals again changes nothing. */
  lemma SortAndMergeIdempotent(values: seq<DayRecord>)
    requires DayRecords(values)
    ensures SortAndMergeSpec(SortAndMergeSpec(values)) == SortAndMergeSpec(values)
  {
    var out := SortAndMergeSpec(values);
    SortAndMergeOrdered(values, out);
    SortingKeepsIntervals(out);
    MergeFixpoint(out);
  }

  /** Sorting ascending disjoint intervals, and the sorted users of each, changes nothing. */
  lemma SortingKeepsIntervals(out: seq<DayRecord>)
    requires forall j :: 0 <= j < |out| ==> out[j].start <= out[j].end && SortedBy(out[j].users, LexLe)
    requires forall j, k :: 0 <= j < k < |out| ==> out[j].end < out[k].start
    ensures SortUsers(SortBy(out, ByStart)) == out
  {
    ByStartTotalPreorder();
    LexLeTotalPreorder();
    DisjointSortedByStart(out);
    SortOfSorted(out, ByStart);
    forall j | 0 <= j < |out| ensures SortNames(out[j].users) == out[j].users {
      SortOfSorted(out[j].users, LexLe);
    }
    assert SortUsers(out) == out;
  }

  /** The loop `for record in sorted_records: record["users"].sort()`. */
  method SortEachUsers(records: seq<DayRecord>) returns (sorted: seq<DayRecord>)
    ensures sorted == SortUsers(records)
    ensures forall k :: 0 <= k < |sorted| ==>
      sorted[k].start == records[k].start && sorted[k].end == records[k].end && SortedBy(sorted[k].users, LexLe)
  {
    sorted := records;
    var i := 0;
    while i < |sorted|
      invariant 0 <= i <= |sorted| == |records|
      invariant forall k :: 0 <= k < i ==> sorted[k] == records[k].(users := SortNames(records[k].users))
      invariant forall k :: i <= k < |sorted| ==> sorted[k] == records[k]
    {
      sorted := sorted[i := sorted[i].(users := SortNames(sorted[i].users))];
      i := i + 1;
    }
  }

  /**
   * One pass of the merge loop: extend the last interval in place when `record` is the
   * day after it with the same users, otherwise append `record`.
   */
  method MergeRecord(merged: seq<DayRecord>, record: DayRecord) returns (out: seq<DayRecord>)
    ensures out == MergeStep(merged, record)
    ensures |out| == |merged| || out == merged + [record]
  {
    out := merged;
    if out != [] {
      var lastRecord := out[|out| - 1];
      if record.start == lastRecord.end + 1 {
        if record.users == lastRecord.users {
          out := out[|out| - 1 := lastRecord.(end := record.start)];
          assert out == merged[..|merged| - 1] + [lastRecord.(end := record.start)];
        } else {
          out := out + [record];
        }
      } else {
        out := out + [record];
      }
    } else {
      out := out + [record];
    }
  }

  /**
   * `sort_and_merge`: sort the records by start, sort each record's users, then walk
   * the records, extending the last interval when the next record is the following day
   * with the same users, and starting a new interval otherwise.
   */
  method SortAndMerge(values: seq<DayRecord>) returns (merged: seq<DayRecord>)
    ensures merged == SortAndMergeSpec(values)
  {
    ByStartTotalPreorder();
    var sortedRecords := SortBy(values, ByStart);
    sortedRecords := SortEachUsers(sortedRecords);
    merged := [];
    var i := 0;
    while i < |sortedRecords|
      invariant 0 <= i <= |sortedRecords|
      invariant merged == MergeDays(sortedRecords[..i])
    {
      assert sortedRecords[..i + 1][..i] == sortedRecords[..i];
      merged := MergeRecord(merged, sortedRecords[i]);
      i := i + 1;
    }
    assert sortedRecords[..i] == sortedRecords;
  }

  /** Days 1 and 2 with users A,B and day 3 with A alone give two intervals. */
  lemma MergeExampleRun()
    ensures MergeDays([DayRecord(1, 1, ["A", "B"]), DayRecord(2, 2, ["A", "B"]), DayRecord(3, 3, ["A"])])
         == [DayRecord(1, 2, ["A", "B"]), DayRecord(3, 3, ["A"])]
  {
    var rs := [DayRecord(1, 1, ["A", "B"]), DayRecord(2, 2, ["A", "B"]), DayRecord(3, 3, ["A"])];
    assert rs[..2][..1] == [rs[0]] && rs[..1][..0] == [];
    assert MergeDays(rs[..1]) == [rs[0]];
    assert MergeDays(rs[..2]) == [DayRecord(1, 2, ["A", "B"])];
    assert ["A", "B"] != ["A"];
  }

  /** Days 1 and 3 with the same users are not merged across the gap. */
  lemma MergeExampleGap()
    ensures MergeDays([DayRecord(1, 1, ["A"]), DayRecord(3, 3, ["A"])]) == [DayRecord(1, 1, ["A"]), DayRecord(3, 3, ["A"])]
  {
    var rs := [DayRecord(1, 1, ["A"]), DayRecord(3, 3, ["A"])];
    assert rs[..1][..0] == [];
    assert MergeDays(rs[..1]) == [rs[0]];
  }
}
