/**
 * `query_did_access` and `query_could_access` of access_audit_debug.py once the log
 * files are read and decoded: the query time, the per-day aggregation, `sort_and_merge`
 * over the record map's values and the report.
 */
module Query {
  import opened Wrappers
  import opened FirstSeen
  import opened Aggregate
  import opened Merge
  import opened Report

  /** `time() - days * 86400`, in microseconds: exactly `days` whole days before `now`. */
  function QueryTime(now: Timestamp, days: int): (t: Timestamp)
    ensures now - t == days * 86400 * 1000000
    ensures days >= 1 ==> t < now
  {
    now - days * 86400 * 1000000
  }

  /** A record map whose every record is the single day it is keyed by. */
  predicate KeyedByDay(records: map<Date, DayRecord>) {
    forall d :: d in records ==> records[d].start == d == records[d].end
  }

  /**
   * `records.values()`: every record once, in some order of the keys (a dict keeps
   * insertion order; the merge does not depend on it).
   */
  method RecordValues(records: map<Date, DayRecord>) returns (values: seq<DayRecord>, ghost keys: seq<Date>)
    ensures |keys| == |values| && Distinct(keys)
    ensures forall d :: d in records <==> d in keys
    ensures forall i :: 0 <= i < |values| ==> keys[i] in records && values[i] == records[keys[i]]
  {
    values, keys := [], [];
    var remaining := records.Keys;
    while |remaining| > 0
      invariant |keys| == |values| && Distinct(keys)
      invariant forall d :: d in records <==> d in keys || d in remaining
      invariant forall d :: d in remaining ==> d !in keys
      invariant forall i :: 0 <= i < |values| ==> keys[i] in records && values[i] == records[keys[i]]
      decreases |remaining|
    {
      var d := AnyDay(remaining);
      values, keys := values + [records[d]], keys + [d];
      remaining := remaining - {d};
    }
  }

  /** Some day of a non-empty set of days. */
  method AnyDay(days: set<Date>) returns (d: Date)
    requires |days| > 0
    ensures d in days
  {
    SomeDay(days);
    d :| d in days;
  }

  lemma SomeDay(days: set<Date>)
    requires days != {}
    ensures exists d :: d in days
  {
    if forall d :: d !in days {
      assert false;
    }
  }

  /** `values` and `keys` list every entry of `records` once, key by key. */
  ghost predicate ValuesOf(records: map<Date, DayRecord>, values: seq<DayRecord>, keys: seq<Date>) {
    && |keys| == |values| && Distinct(keys)
    && (forall d :: d in records <==> d in keys)
    && (forall i :: 0 <= i < |values| ==> keys[i] in records && values[i] == records[keys[i]])
  }

  /** The values of a map keyed by day are day records with distinct days. */
  lemma KeyedValuesAreDays(records: map<Date, DayRecord>, values: seq<DayRecord>, keys: seq<Date>)
    requires KeyedByDay(records) && ValuesOf(records, values, keys)
    ensures DayRecords(values)
  {
    forall i | 0 <= i < |values| ensures values[i].start == keys[i] == values[i].end {
      assert keys[i] in records;
    }
    forall i, j | 0 <= i < j < |values| ensures values[i].start != values[j].start {
      assert values[i].start == keys[i] && values[j].start == keys[j];
    }
  }

  /** Every day of an interval merged from a day-keyed map is a day of the map with the interval's users, sorted. */
  lemma IntervalDay(records: map<Date, DayRecord>, values: seq<DayRecord>, keys: seq<Date>, merged: seq<DayRecord>,
                    j: int, d: Date)
    requires KeyedByDay(records) && ValuesOf(records, values, keys)
    requires merged == SortAndMergeSpec(values)
    requires 0 <= j < |merged| && Within(d, merged[j])
    ensures d in records && merged[j].users == SortNames(records[d].users)
  {
    KeyedValuesAreDays(records, values, keys);
    SortAndMergeSound(values, merged);
    var i :| 0 <= i < |values| && values[i].start == d && SortNames(values[i].users) == merged[j].users;
    assert keys[i] == d;
  }

  /** Every day of a day-keyed map lies in a merged interval carrying that day's users, sorted. */
  lemma DayReported(records: map<Date, DayRecord>, values: seq<DayRecord>, keys: seq<Date>, merged: seq<DayRecord>,
                    d: Date)
    requires KeyedByDay(records) && ValuesOf(records, values, keys)
    requires merged == SortAndMergeSpec(values)
    requires d in records
    ensures exists j :: 0 <= j < |merged| && Within(d, merged[j]) && merged[j].users == SortNames(records[d].users)
  {
    KeyedValuesAreDays(records, values, keys);
    SortAndMergeCovers(values, merged);
    var i :| 0 <= i < |keys| && keys[i] == d;
    assert values[i].start == d;
  }

  /** Sorting a list keeps exactly its members. */
  lemma SortNamesMembers(names: seq<string>)
    ensures forall u :: u in SortNames(names) <==> u in names
  {
    var sorted := SortNames(names);
    forall u ensures u in sorted <==> u in names {
      assert u in sorted <==> u in multiset(sorted);
      assert u in names <==> u in multiset(names);
    }
  }

  /** An interval announced as "between" spans at least two days, and intervals are reported in date order. */
  lemma MergedPeriods(values: seq<DayRecord>, merged: seq<DayRecord>)
    requires DayRecords(values) && merged == SortAndMergeSpec(values)
    ensures forall j :: 0 <= j < |merged| && PeriodOf(merged[j]).Between? ==>
      PeriodOf(merged[j]).first < PeriodOf(merged[j]).last
    ensures forall j :: 0 <= j < |merged| - 1 ==> merged[j].end < merged[j + 1].start
  {
    SortAndMergeOrdered(values, merged);
  }

  /** Every day of a reported "did" interval had qualifying entries, whose users are the interval's users, sorted. */
  lemma DidIntervalsSound(entries: seq<LoginEntry>, queryTime: Timestamp, dateOf: Timestamp -> Date,
                          values: seq<DayRecord>, keys: seq<Date>, merged: seq<DayRecord>)
    requires ValuesOf(DidRecords(entries, queryTime, dateOf), values, keys)
    requires merged == SortAndMergeSpec(values)
    ensures forall j, d :: 0 <= j < |merged| && Within(d, merged[j]) ==>
      QualifyingUsersOn(entries, queryTime, dateOf, d) != [] &&
      merged[j].users == SortNames(Dedupe(QualifyingUsersOn(entries, queryTime, dateOf, d)))
  {
    var records := DidRecords(entries, queryTime, dateOf);
    DidRecordsAt(entries, queryTime, dateOf);
    forall j, d | 0 <= j < |merged| && Within(d, merged[j])
      ensures QualifyingUsersOn(entries, queryTime, dateOf, d) != []
      ensures merged[j].users == SortNames(Dedupe(QualifyingUsersOn(entries, queryTime, dateOf, d)))
    {
      IntervalDay(records, values, keys, merged, j, d);
    }
  }

  /** A qualifying entry's user is in the record of its day. */
  lemma DidEntryRecorded(entries: seq<LoginEntry>, queryTime: Timestamp, dateOf: Timestamp -> Date, i: int)
    requires 0 <= i < |entries| && DidQualifies(entries[i], queryTime)
    ensures dateOf(EntryTime(entries[i])) in DidRecords(entries, queryTime, dateOf)
    ensures entries[i].user in DidRecords(entries, queryTime, dateOf)[dateOf(EntryTime(entries[i]))].users
  {
    var d := dateOf(EntryTime(entries[i]));
    QualifyingUsersOnMembers(entries, queryTime, dateOf, d);
    assert entries[i].user in QualifyingUsersOn(entries, queryTime, dateOf, d);
    DidRecordsAt(entries, queryTime, dateOf);
    DidRecordsWellFormed(entries, queryTime, dateOf, d);
  }

  /** Every qualifying entry's user is listed in the reported interval holding its day. */
  lemma DidEntriesListed(entries: seq<LoginEntry>, queryTime: Timestamp, dateOf: Timestamp -> Date,
                         values: seq<DayRecord>, keys: seq<Date>, merged: seq<DayRecord>)
    requires ValuesOf(DidRecords(entries, queryTime, dateOf), values, keys)
    requires merged == SortAndMergeSpec(values)
    ensures forall i :: 0 <= i < |entries| && DidQualifies(entries[i], queryTime) ==>
      exists j :: 0 <= j < |merged| && Within(dateOf(EntryTime(entries[i])), merged[j]) && entries[i].user in merged[j].users
  {
    var records := DidRecords(entries, queryTime, dateOf);
    DidRecordsAt(entries, queryTime, dateOf);
    forall i | 0 <= i < |entries| && DidQualifies(entries[i], queryTime)
      ensures exists j :: 0 <= j < |merged| && Within(dateOf(EntryTime(entries[i])), merged[j]) && entries[i].user in merged[j].users
    {
      var d := dateOf(EntryTime(entries[i]));
      DidEntryRecorded(entries, queryTime, dateOf, i);
      DayReported(records, values, keys, merged, d);
      SortNamesMembers(records[d].users);
    }
  }

  /** A sequence without members is empty. */
  lemma EmptyWithoutMembers<T>(s: seq<T>)
    ensures (forall x :: x !in s) ==> s == []
  {
    if s != [] {
      assert s[0] in s;
    }
  }

  /** With no qualifying entry the record map is empty, so nothing is listed. */
  lemma DidNothingListed(entries: seq<LoginEntry>, queryTime: Timestamp, dateOf: Timestamp -> Date,
                         values: seq<DayRecord>, keys: seq<Date>)
    requires ValuesOf(DidRecords(entries, queryTime, dateOf), values, keys)
    requires forall i :: 0 <= i < |entries| ==> !DidQualifies(entries[i], queryTime)
    ensures values == []
  {
    var users := QualifyingUsers(entries, queryTime);
    QualifyingUsersMembers(entries, queryTime);
    EmptyWithoutMembers(users);
    DidNoUsersNoRecords(entries, queryTime, dateOf);
    EmptyWithoutMembers(keys);
  }

  /**
   * `query_did_access` over decoded login entries: the report says nobody accessed the
   * system exactly when no entry qualifies; otherwise every qualifying entry's user is
   * listed in the interval holding its day, and every day of an interval had exactly
   * that interval's users.
   */
  method QueryDidAccess(days: int, now: Timestamp, entries: seq<LoginEntry>, dateOf: Timestamp -> Date,
                        lookup: string -> Option<string>)
    returns (merged: seq<DayRecord>, report: Report)
    ensures report.NoAccess? <==> forall i :: 0 <= i < |entries| ==> !DidQualifies(entries[i], QueryTime(now, days))
    ensures forall j, d :: 0 <= j < |merged| && Within(d, merged[j]) ==>
      QualifyingUsersOn(entries, QueryTime(now, days), dateOf, d) != [] &&
      merged[j].users == SortNames(Dedupe(QualifyingUsersOn(entries, QueryTime(now, days), dateOf, d)))
    ensures forall i :: 0 <= i < |entries| && DidQualifies(entries[i], QueryTime(now, days)) ==>
      exists j :: 0 <= j < |merged| && Within(dateOf(EntryTime(entries[i])), merged[j]) && entries[i].user in merged[j].users
    ensures (forall i :: 0 <= i < |entries| ==> !DidQualifies(entries[i], QueryTime(now, days))) ==> merged == []
    ensures forall j :: 0 <= j < |merged| ==> merged[j].start <= merged[j].end
    ensures forall j, k :: 0 <= j < k < |merged| ==> merged[j].end < merged[k].start
    ensures NoMergeableNeighbours(merged)
    ensures report.window == Pluralise("day", days)
    ensures report.Accessed? ==> report.summary == Pluralise("user", |Dedupe(QualifyingUsers(entries, QueryTime(now, days)))|)
    ensures report.Accessed? ==> |report.sections| == |merged|
    ensures report.Accessed? ==> forall k :: 0 <= k < |merged| ==>
      report.sections[k] == Section(Pluralise("user", |merged[k].users|), PeriodOf(merged[k]), Names(merged[k].users, lookup))
  {
    var queryTime := QueryTime(now, days);
    var users, records := AggregateDid(entries, queryTime, dateOf);
    var values;
    ghost var keys;
    values, keys := RecordValues(records);
    merged := SortAndMerge(values);
    KeyedValuesAreDays(records, values, keys);
    SortAndMergeOrdered(values, merged);
    DidIntervalsSound(entries, queryTime, dateOf, values, keys, merged);
    DidEntriesListed(entries, queryTime, dateOf, values, keys, merged);
    if forall i :: 0 <= i < |entries| ==> !DidQualifies(entries[i], queryTime) {
      DidNothingListed(entries, queryTime, dateOf, values, keys);
    }
    report := OutputResults(|users|, merged, days, lookup);
    DidNoUsers(entries, queryTime);
  }

  /**
   * Every day of a reported "could" interval had a qualifying row, and the interval's
   * users are exactly the users listed by that day's qualifying rows.
   */
  lemma CouldIntervalsSound(rows: seq<CsvRow>, queryTime: Timestamp, dateOf: Timestamp -> Date,
                            values: seq<DayRecord>, keys: seq<Date>, merged: seq<DayRecord>)
    requires ValuesOf(CouldRecords(rows, queryTime, dateOf), values, keys)
    requires merged == SortAndMergeSpec(values)
    ensures forall j, d :: 0 <= j < |merged| && Within(d, merged[j]) ==>
      QualifyingRowsOn(rows, queryTime, dateOf, d) != [] &&
      merged[j].users == SortNames(AppendAll(QualifyingRowsOn(rows, queryTime, dateOf, d)[0].users,
                                             Flatten(QualifyingRowsOn(rows, queryTime, dateOf, d)[1..]))) &&
      forall u :: u in merged[j].users <==> u in Flatten(QualifyingRowsOn(rows, queryTime, dateOf, d))
  {
    var records := CouldRecords(rows, queryTime, dateOf);
    CouldRecordsAt(rows, queryTime, dateOf);
    forall j, d | 0 <= j < |merged| && Within(d, merged[j])
      ensures QualifyingRowsOn(rows, queryTime, dateOf, d) != []
      ensures merged[j].users == SortNames(AppendAll(QualifyingRowsOn(rows, queryTime, dateOf, d)[0].users,
                                                     Flatten(QualifyingRowsOn(rows, queryTime, dateOf, d)[1..])))
      ensures forall u :: u in merged[j].users <==> u in Flatten(QualifyingRowsOn(rows, queryTime, dateOf, d))
    {
      IntervalDay(records, values, keys, merged, j, d);
      CouldRecordsWellFormed(rows, queryTime, dateOf, d);
      SortNamesMembers(records[d].users);
    }
  }

  /**
   * Every qualifying row's day lies in a reported interval, even a row with no users,
   * and that interval lists every user of the row.
   */
  lemma CouldRowsListed(rows: seq<CsvRow>, queryTime: Timestamp, dateOf: Timestamp -> Date,
                        values: seq<DayRecord>, keys: seq<Date>, merged: seq<DayRecord>)
    requires ValuesOf(CouldRecords(rows, queryTime, dateOf), values, keys)
    requires merged == SortAndMergeSpec(values)
    ensures forall i :: 0 <= i < |rows| && CouldQualifies(rows[i], queryTime) ==>
      exists j :: 0 <= j < |merged| && Within(dateOf(rows[i].time), merged[j]) &&
        forall u :: u in rows[i].users ==> u in merged[j].users
  {
    var records := CouldRecords(rows, queryTime, dateOf);
    CouldRecordsAt(rows, queryTime, dateOf);
    forall i | 0 <= i < |rows| && CouldQualifies(rows[i], queryTime)
      ensures exists j :: 0 <= j < |merged| && Within(dateOf(rows[i].time), merged[j]) &&
                          forall u :: u in rows[i].users ==> u in merged[j].users
    {
      var d := dateOf(rows[i].time);
      var day := QualifyingRowsOn(rows, queryTime, dateOf, d);
      QualifyingRowsOnMembers(rows, queryTime, dateOf, d);
      assert rows[i] in day;
      var k :| 0 <= k < |day| && day[k] == rows[i];
      CouldRecordsWellFormed(rows, queryTime, dateOf, d);
      DayReported(records, values, keys, merged, d);
      var j :| 0 <= j < |merged| && Within(d, merged[j]) && merged[j].users == SortNames(records[d].users);
      SortNamesMembers(records[d].users);
      forall u | u in rows[i].users ensures u in merged[j].users {
        assert u in day[k].users;
      }
    }
  }

  /** With no qualifying row the record map is empty, so nothing is listed. */
  lemma CouldNothingListed(rows: seq<CsvRow>, queryTime: Timestamp, dateOf: Timestamp -> Date,
                           values: seq<DayRecord>, keys: seq<Date>)
    requires ValuesOf(CouldRecords(rows, queryTime, dateOf), values, keys)
    requires forall i :: 0 <= i < |rows| ==> !CouldQualifies(rows[i], queryTime)
    ensures values == []
  {
    CouldRecordsAt(rows, queryTime, dateOf);
    forall d ensures d !in CouldRecords(rows, queryTime, dateOf) {
      var day := QualifyingRowsOn(rows, queryTime, dateOf, d);
      QualifyingRowsOnMembers(rows, queryTime, dateOf, d);
      EmptyWithoutMembers(day);
    }
    EmptyWithoutMembers(keys);
  }

  /**
   * `query_could_access` over decoded snapshot rows: the report says nobody had access
   * exactly when no qualifying row lists a user; every qualifying row's day is reported
   * with the row's users, and every day of an interval is a day with qualifying rows
   * whose users are exactly the interval's users.
   */
  method QueryCouldAccess(days: int, now: Timestamp, rows: seq<CsvRow>, dateOf: Timestamp -> Date,
                          lookup: string -> Option<string>)
    returns (merged: seq<DayRecord>, report: Report)
    ensures report.NoAccess? <==>
      forall i :: 0 <= i < |rows| && CouldQualifies(rows[i], QueryTime(now, days)) ==> rows[i].users == []
    ensures forall j, d :: 0 <= j < |merged| && Within(d, merged[j]) ==>
      QualifyingRowsOn(rows, QueryTime(now, days), dateOf, d) != [] &&
      merged[j].users == SortNames(AppendAll(QualifyingRowsOn(rows, QueryTime(now, days), dateOf, d)[0].users,
                                             Flatten(QualifyingRowsOn(rows, QueryTime(now, days), dateOf, d)[1..]))) &&
      forall u :: u in merged[j].users <==> u in Flatten(QualifyingRowsOn(rows, QueryTime(now, days), dateOf, d))
    ensures forall i :: 0 <= i < |rows| && CouldQualifies(rows[i], QueryTime(now, days)) ==>
      exists j :: 0 <= j < |merged| && Within(dateOf(rows[i].time), merged[j]) &&
        forall u :: u in rows[i].users ==> u in merged[j].users
    ensures (forall i :: 0 <= i < |rows| ==> !CouldQualifies(rows[i], QueryTime(now, days))) ==> merged == []
    ensures forall j :: 0 <= j < |merged| ==> merged[j].start <= merged[j].end
    ensures forall j, k :: 0 <= j < k < |merged| ==> merged[j].end < merged[k].start
    ensures NoMergeableNeighbours(merged)
    ensures report.window == Pluralise("day", days)
    ensures report.Accessed? ==> report.summary == Pluralise("user", |CouldUsers(rows, QueryTime(now, days))|)
    ensures report.Accessed? ==> |report.sections| == |merged|
    ensures report.Accessed? ==> forall k :: 0 <= k < |merged| ==>
      report.sections[k] == Section(Pluralise("user", |merged[k].users|), PeriodOf(merged[k]), Names(merged[k].users, lookup))
  {
    var queryTime := QueryTime(now, days);
    var users, records := AggregateCould(rows, queryTime, dateOf);
    var values;
    ghost var keys;
    values, keys := RecordValues(records);
    merged := SortAndMerge(values);
    KeyedValuesAreDays(records, values, keys);
    SortAndMergeOrdered(values, merged);
    CouldIntervalsSound(rows, queryTime, dateOf, values, keys, merged);
    CouldRowsListed(rows, queryTime, dateOf, values, keys, merged);
    if forall i :: 0 <= i < |rows| ==> !CouldQualifies(rows[i], queryTime) {
      CouldNothingListed(rows, queryTime, dateOf, values, keys);
    }
    report := OutputResults(|users|, merged, days, lookup);
    CouldNoUsers(rows, queryTime);
  }
}
