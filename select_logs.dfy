/**
 * `compile_logs` in access_audit_debug.py: keep the rotated files modified after the
 * query time and list them in reverse lexicographic order. The glob and the
 * modification times are inputs: a list of candidate files with their mtimes.
 */
module SelectLogs {
  import opened Text
  import opened Sorting

  /** A file the prefix glob matched, with its modification time in microseconds. */
  datatype LogFile = LogFile(path: string, mtime: int)

  /** Reverse lexicographic order, `sort(reverse=True)`. */
  predicate Descending(a: string, b: string) {
    LexLe(b, a)
  }

  lemma DescendingTotalOrder()
    ensures TotalPreorder(Descending) && Antisymmetric(Descending)
  {
    forall a, b ensures Descending(a, b) || Descending(b, a) { LexTotal(a, b); }
    forall a, b, c | Descending(a, b) && Descending(b, c) ensures Descending(a, c) { LexTransitive(c, b, a); }
    forall a, b | Descending(a, b) && Descending(b, a) ensures a == b { LexAntisymmetric(a, b); }
  }

  /** The paths of the files modified strictly after `queryTime`, in glob order. */
  function Recent(files: seq<LogFile>, queryTime: int): seq<string>
  {
    if files == [] then []
    else
      var p, f := Recent(files[..|files| - 1], queryTime), files[|files| - 1];
      if f.mtime > queryTime then p + [f.path] else p
  }

  /** The list `compile_logs` returns. */
  function SelectedLogs(files: seq<LogFile>, queryTime: int): (r: seq<string>)
    ensures SortedBy(r, Descending)
    ensures multiset(r) == multiset(Recent(files, queryTime))
  {
    DescendingTotalOrder();
    SortBy(Recent(files, queryTime), Descending)
  }

  lemma {:induction false} RecentMembers(files: seq<LogFile>, queryTime: int)
    ensures forall p :: p in Recent(files, queryTime) <==>
      exists i :: 0 <= i < |files| && files[i].path == p && files[i].mtime > queryTime
  {
    if files != [] {
      var pre := files[..|files| - 1];
      RecentMembers(pre, queryTime);
      assert forall i :: 0 <= i < |pre| ==> pre[i] == files[i];
    }
  }

  lemma {:induction false} RecentConcat(a: seq<LogFile>, b: seq<LogFile>, queryTime: int)
    ensures Recent(a + b, queryTime) == Recent(a, queryTime) + Recent(b, queryTime)
    decreases |b|
  {
    if b == [] {
      assert a + b == a;
    } else {
      var n := |b| - 1;
      assert (a + b)[..|a + b| - 1] == a + b[..n];
      RecentConcat(a, b[..n], queryTime);
    }
  }

  /**
   * The selection keeps exactly the files modified strictly after the query time, each
   * as often as the glob listed it, in reverse lexicographic order.
   */
  method CompileLogs(files: seq<LogFile>, queryTime: int) returns (logFiles: seq<string>)
    ensures logFiles == SelectedLogs(files, queryTime)
    ensures forall p :: p in logFiles <==>
      exists i :: 0 <= i < |files| && files[i].path == p && files[i].mtime > queryTime
    ensures forall i, j :: 0 <= i < j < |logFiles| ==> LexLe(logFiles[j], logFiles[i])
  {
    logFiles := [];
    var i := 0;
    while i < |files|
      invariant 0 <= i <= |files|
      invariant logFiles == Recent(files[..i], queryTime)
    {
      assert files[..i + 1][..i] == files[..i];
      if files[i].mtime > queryTime {
        logFiles := logFiles + [files[i].path];
      }
      i := i + 1;
    }
    assert files[..i] == files;
    RecentMembers(files, queryTime);
    DescendingTotalOrder();
    logFiles := SortBy(logFiles, Descending);
    forall p ensures p in logFiles <==> p in Recent(files, queryTime) {
      assert p in logFiles <==> p in multiset(logFiles);
    }
  }

  /**
   * A rotated file last modified at or before the query time, wherever the glob lists
   * it, does not change the selection.
   */
  lemma OldFileIgnored(files: seq<LogFile>, k: nat, stale: LogFile, queryTime: int)
    requires k <= |files| && stale.mtime <= queryTime
    ensures SelectedLogs(files[..k] + [stale] + files[k..], queryTime) == SelectedLogs(files, queryTime)
  {
    RecentConcat(files[..k] + [stale], files[k..], queryTime);
    RecentConcat(files[..k], [stale], queryTime);
    RecentConcat(files[..k], files[k..], queryTime);
    assert [stale][..0] == [];
    assert files[..k] + files[k..] == files;
  }

  lemma RemoveOne(p: seq<LogFile>, x: LogFile, b1: seq<LogFile>, b2: seq<LogFile>)
    requires multiset(p + [x]) == multiset(b1 + [x] + b2)
    ensures multiset(p) == multiset(b1 + b2)
  {
    forall y ensures multiset(p)[y] == multiset(b1 + b2)[y] {
      assert multiset(p + [x])[y] == multiset(p)[y] + multiset{x}[y];
      assert multiset(b1 + [x] + b2)[y] == multiset(b1)[y] + multiset{x}[y] + multiset(b2)[y];
    }
  }

  lemma {:induction false} RecentPermutation(a: seq<LogFile>, b: seq<LogFile>, queryTime: int)
    requires multiset(a) == multiset(b)
    ensures multiset(Recent(a, queryTime)) == multiset(Recent(b, queryTime))
    decreases |a|
  {
    if a == [] {
      assert b == [];
    } else {
      var p, x := a[..|a| - 1], a[|a| - 1];
      assert a == p + [x];
      assert x in multiset(b);
      var k :| 0 <= k < |b| && b[k] == x;
      var b1, b2 := b[..k], b[k + 1..];
      assert b == b1 + [x] + b2;
      RemoveOne(p, x, b1, b2);
      RecentPermutation(p, b1 + b2, queryTime);
      RecentConcat(p, [x], queryTime);
      RecentConcat(b1, b2, queryTime);
      RecentConcat(b1 + [x], b2, queryTime);
      RecentConcat(b1, [x], queryTime);
      var rx := Recent([x], queryTime);
      calc {
        multiset(Recent(a, queryTime));
        multiset(Recent(p, queryTime)) + multiset(rx);
        multiset(Recent(b1 + b2, queryTime)) + multiset(rx);
        multiset(Recent(b1, queryTime)) + multiset(Recent(b2, queryTime)) + multiset(rx);
        multiset(Recent(b1, queryTime) + rx + Recent(b2, queryTime));
        multiset(Recent(b, queryTime));
      }
    }
  }

  /** The order in which the glob lists the files does not matter. */
  lemma SelectionIgnoresGlobOrder(a: seq<LogFile>, b: seq<LogFile>, queryTime: int)
    requires multiset(a) == multiset(b)
    ensures SelectedLogs(a, queryTime) == SelectedLogs(b, queryTime)
  {
    RecentPermutation(a, b, queryTime);
    DescendingTotalOrder();
    SortedUnique(SelectedLogs(a, queryTime), SelectedLogs(b, queryTime), Descending);
  }
}
