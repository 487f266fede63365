/**
 * Per-day aggregation of access entries (`query_did_access` and `query_could_access`
 * in access_audit_debug.py). Each loop keeps a first-seen list of users and a map from
 * calendar date to a day record; each is tied to a fold over the entries read so far.
 */
module Aggregate {
  import opened FirstSeen

  /** Microseconds since the epoch (the script's float seconds, without rounding). */
  type Timestamp = int

  /** A local calendar date, as a day number. */
  type Date = int

  /** A decoded login-accounting record: seconds, microseconds and the (possibly empty) user. */
  datatype LoginEntry = LoginEntry(sec: int, usec: int, user: string)

  /** A decoded row of the "could access" log: its timestamp, the human-readable stamp, the users. */
  datatype CsvRow = CsvRow(time: Timestamp, human: string, users: seq<string>)

  /** The per-date dictionary `{"start": ..., "end": ..., "users": [...]}`. */
  datatype DayRecord = DayRecord(start: Date, end: Date, users: seq<string>)

  function EntryTime(e: LoginEntry): Timestamp {
    e.sec * 1000000 + e.usec
  }

  // ---------------------------------------------------------------- "did" path

  /** An entry counts when it is strictly after the query time and names a user. */
  predicate DidQualifies(e: LoginEntry, queryTime: Timestamp) {
    EntryTime(e) > queryTime && e.user != ""
  }

  /** The users of the qualifying entries, in entry order, repeats kept. */
  function QualifyingUsers(es: seq<LoginEntry>, queryTime: Timestamp): seq<string>
  {
    if es == [] then []
    else
      var p, e := QualifyingUsers(es[..|es| - 1], queryTime), es[|es| - 1];
      if DidQualifies(e, queryTime) then p + [e.user] else p
  }

  /** The users of the qualifying entries that fall on date `d`, in entry order. */
  function QualifyingUsersOn(es: seq<LoginEntry>, queryTime: Timestamp, dateOf: Timestamp -> Date, d: Date): seq<string>
  {
    if es == [] then []
    else
      var p, e := QualifyingUsersOn(es[..|es| - 1], queryTime, dateOf, d), es[|es| - 1];
      if DidQualifies(e, queryTime) && dateOf(EntryTime(e)) == d then p + [e.user] else p
  }

  /** The `records` dictionary after the "did" loop has read `es`. */
  function DidRecords(es: seq<LoginEntry>, queryTime: Timestamp, dateOf: Timestamp -> Date): map<Date, DayRecord>
  {
    if es == [] then map[]
    else
      var m, e := DidRecords(es[..|es| - 1], queryTime, dateOf), es[|es| - 1];
      if !DidQualifies(e, queryTime) then m
      else
        var d := dateOf(EntryTime(e));
        if d !in m then m[d := DayRecord(d, d, [e.user])]
        else m[d := m[d].(users := AppendNew(m[d].users, e.user))]
  }

  /**
   * After aggregation, a date has a record exactly when some qualifying entry falls on
   * it, and that record is the single day `d` holding the first-seen list of its users.
   */
  lemma {:induction false} DidRecordsAt(es: seq<LoginEntry>, queryTime: Timestamp, dateOf: Timestamp -> Date)
    ensures forall d :: d in DidRecords(es, queryTime, dateOf) <==> QualifyingUsersOn(es, queryTime, dateOf, d) != []
    ensures forall d :: d in DidRecords(es, queryTime, dateOf) ==>
      DidRecords(es, queryTime, dateOf)[d] == DayRecord(d, d, Dedupe(QualifyingUsersOn(es, queryTime, dateOf, d)))
  {
    if es != [] {
      var p, e := es[..|es| - 1], es[|es| - 1];
      DidRecordsAt(p, queryTime, dateOf);
      var m, m' := DidRecords(p, queryTime, dateOf), DidRecords(es, queryTime, dateOf);
      forall d
        ensures d in m' <==> QualifyingUsersOn(es, queryTime, dateOf, d) != []
        ensures d in m' ==> m'[d] == DayRecord(d, d, Dedupe(QualifyingUsersOn(es, queryTime, dateOf, d)))
      {
        var before := QualifyingUsersOn(p, queryTime, dateOf, d);
        if DidQualifies(e, queryTime) && dateOf(EntryTime(e)) == d {
          assert QualifyingUsersOn(es, queryTime, dateOf, d) == before + [e.user];
          DedupeSnoc(before, e.user);
          if d !in m {
            assert before == [] && before + [e.user] == [e.user];
          }
        } else {
          assert QualifyingUsersOn(es, queryTime, dateOf, d) == before;
          assert d in m' <==> d in m;
          assert d in m ==> m'[d] == m[d];
        }
      }
    }
  }

  /** Every record of the "did" map is one day with a non-empty, duplicate-free list of exactly that day's qualifying users. */
  lemma DidRecordsWellFormed(es: seq<LoginEntry>, queryTime: Timestamp, dateOf: Timestamp -> Date, d: Date)
    requires d in DidRecords(es, queryTime, dateOf)
    ensures DidRecords(es, queryTime, dateOf)[d].start == d == DidRecords(es, queryTime, dateOf)[d].end
    ensures DidRecords(es, queryTime, dateOf)[d].users != []
    ensures Distinct(DidRecords(es, queryTime, dateOf)[d].users)
    ensures forall u :: u in DidRecords(es, queryTime, dateOf)[d].users <==>
      exists i :: 0 <= i < |es| && DidQualifies(es[i], queryTime) && dateOf(EntryTime(es[i])) == d && es[i].user == u
  {
    DidRecordsAt(es, queryTime, dateOf);
    var us := QualifyingUsersOn(es, queryTime, dateOf, d);
    assert us[0] in Dedupe(us);
    QualifyingUsersOnMembers(es, queryTime, dateOf, d);
  }

  lemma {:induction false} QualifyingUsersOnMembers(es: seq<LoginEntry>, queryTime: Timestamp, dateOf: Timestamp -> Date, d: Date)
    ensures forall u :: u in QualifyingUsersOn(es, queryTime, dateOf, d) <==>
      exists i :: 0 <= i < |es| && DidQualifies(es[i], queryTime) && dateOf(EntryTime(es[i])) == d && es[i].user == u
  {
    if es != [] {
      var p := es[..|es| - 1];
      QualifyingUsersOnMembers(p, queryTime, dateOf, d);
      forall u ensures u in QualifyingUsersOn(es, queryTime, dateOf, d) <==>
        exists i :: 0 <= i < |es| && DidQualifies(es[i], queryTime) && dateOf(EntryTime(es[i])) == d && es[i].user == u
      {
        if exists i :: 0 <= i < |es| && DidQualifies(es[i], queryTime) && dateOf(EntryTime(es[i])) == d && es[i].user == u {
          var i :| 0 <= i < |es| && DidQualifies(es[i], queryTime) && dateOf(EntryTime(es[i])) == d && es[i].user == u;
          if i < |p| { assert p[i] == es[i]; }
        }
      }
    }
  }

  lemma {:induction false} QualifyingUsersMembers(es: seq<LoginEntry>, queryTime: Timestamp)
    ensures forall u :: u in QualifyingUsers(es, queryTime) <==>
      exists i :: 0 <= i < |es| && DidQualifies(es[i], queryTime) && es[i].user == u
  {
    if es != [] {
      var p := es[..|es| - 1];
      QualifyingUsersMembers(p, queryTime);
      forall u ensures u in QualifyingUsers(es, queryTime) <==>
        exists i :: 0 <= i < |es| && DidQualifies(es[i], queryTime) && es[i].user == u
      {
        if exists i :: 0 <= i < |es| && DidQualifies(es[i], queryTime) && es[i].user == u {
          var i :| 0 <= i < |es| && DidQualifies(es[i], queryTime) && es[i].user == u;
          if i < |p| { assert p[i] == es[i]; }
        }
      }
    }
  }

  /** The "did" user list is empty exactly when no entry qualifies. */
  lemma DidNoUsers(es: seq<LoginEntry>, queryTime: Timestamp)
    ensures Dedupe(QualifyingUsers(es, queryTime)) == [] <==>
      forall i :: 0 <= i < |es| ==> !DidQualifies(es[i], queryTime)
  {
    QualifyingUsersMembers(es, queryTime);
    var users := Dedupe(QualifyingUsers(es, queryTime));
    if users != [] {
      assert users[0] in users;
    }
    if exists i :: 0 <= i < |es| && DidQualifies(es[i], queryTime) {
      var i :| 0 <= i < |es| && DidQualifies(es[i], queryTime);
      assert es[i].user in QualifyingUsers(es, queryTime);
    }
  }

  /** No qualifying user at all exactly when no day has a record: the report's two emptiness tests agree. */
  lemma {:induction false} DidNoUsersNoRecords(es: seq<LoginEntry>, queryTime: Timestamp, dateOf: Timestamp -> Date)
    ensures QualifyingUsers(es, queryTime) == [] <==> DidRecords(es, queryTime, dateOf) == map[]
  {
    if es != [] {
      DidNoUsersNoRecords(es[..|es| - 1], queryTime, dateOf);
    }
  }

  /** The body of the "did" loop for the entry at index `i`. */
  method DidEntry(entries: seq<LoginEntry>, i: nat, queryTime: Timestamp, dateOf: Timestamp -> Date,
                  users: seq<string>, records: map<Date, DayRecord>)
    returns (users': seq<string>, records': map<Date, DayRecord>)
    requires i < |entries|
    requires users == Dedupe(QualifyingUsers(entries[..i], queryTime))
    requires records == DidRecords(entries[..i], queryTime, dateOf)
    ensures users' == Dedupe(QualifyingUsers(entries[..i + 1], queryTime))
    ensures records' == DidRecords(entries[..i + 1], queryTime, dateOf)
  {
    var entry := entries[i];
    assert entries[..i + 1][..i] == entries[..i];
    DedupeSnoc(QualifyingUsers(entries[..i], queryTime), entry.user);
    users', records' := users, records;
    var entryTime := EntryTime(entry);
    var entryDate := dateOf(entryTime);
    if entryTime > queryTime {
      var user := entry.user;
      if user != "" {
        if user !in users' {
          users' := users' + [user];
        }
        if entryDate !in records' {
          records' := records'[entryDate := DayRecord(entryDate, entryDate, [user])];
        } else if user !in records'[entryDate].users {
          records' := records'[entryDate := records'[entryDate].(users := records'[entryDate].users + [user])];
        }
      }
    }
  }

  /**
   * The "did" loop: an entry contributes only when it is strictly after `queryTime` and
   * names a user; `users` collects each such user once, and `records` gets one record per date.
   */
  method AggregateDid(entries: seq<LoginEntry>, queryTime: Timestamp, dateOf: Timestamp -> Date)
    returns (users: seq<string>, records: map<Date, DayRecord>)
    ensures users == Dedupe(QualifyingUsers(entries, queryTime))
    ensures records == DidRecords(entries, queryTime, dateOf)
    ensures Distinct(users)
    ensures forall u :: u in users <==>
      exists i :: 0 <= i < |entries| && DidQualifies(entries[i], queryTime) && entries[i].user == u
    ensures forall d :: d in records ==> records[d].start == d == records[d].end && records[d].users != []
  {
    users := [];
    records := map[];
    var i := 0;
    while i < |entries|
      invariant 0 <= i <= |entries|
      invariant users == Dedupe(QualifyingUsers(entries[..i], queryTime))
      invariant records == DidRecords(entries[..i], queryTime, dateOf)
    {
      users, records := DidEntry(entries, i, queryTime, dateOf, users, records);
      i := i + 1;
    }
    assert entries[..i] == entries;
    QualifyingUsersMembers(entries, queryTime);
    forall d | d in records ensures records[d].start == d == records[d].end && records[d].users != [] {
      DidRecordsWellFormed(entries, queryTime, dateOf, d);
    }
  }

  // ---------------------------------------------------------------- "could" path

  /** A row counts when it is strictly after the query time, whatever users it lists. */
  predicate CouldQualifies(r: CsvRow, queryTime: Timestamp) {
    r.time > queryTime
  }

  /** The qualifying rows, in order. */
  function QualifyingRows(rows: seq<CsvRow>, queryTime: Timestamp): seq<CsvRow>
  {
    if rows == [] then []
    else
      var p, r := QualifyingRows(rows[..|rows| - 1], queryTime), rows[|rows| - 1];
      if CouldQualifies(r, queryTime) then p + [r] else p
  }

  /** The qualifying rows that fall on date `d`, in order. */
  function QualifyingRowsOn(rows: seq<CsvRow>, queryTime: Timestamp, dateOf: Timestamp -> Date, d: Date): seq<CsvRow>
  {
    if rows == [] then []
    else
      var p, r := QualifyingRowsOn(rows[..|rows| - 1], queryTime, dateOf, d), rows[|rows| - 1];
      if CouldQualifies(r, queryTime) && dateOf(r.time) == d then p + [r] else p
  }

  /** The users of `rows`, one row after the other, repeats kept. */
  function Flatten(rows: seq<CsvRow>): (r: seq<string>)
    ensures forall u :: u in r <==> exists i :: 0 <= i < |rows| && u in rows[i].users
  {
    if rows == [] then []
    else
      var p := rows[..|rows| - 1];
      assert forall i :: 0 <= i < |p| ==> p[i] == rows[i];
      Flatten(p) + rows[|rows| - 1].users
  }

  /** The `users` list after the "could" loop has read `rows`. */
  function CouldUsers(rows: seq<CsvRow>, queryTime: Timestamp): seq<string>
  {
    if rows == [] then []
    else
      var p, r := CouldUsers(rows[..|rows| - 1], queryTime), rows[|rows| - 1];
      if CouldQualifies(r, queryTime) then AppendAll(p, r.users) else p
  }

  /** The `records` dictionary after the "could" loop has read `rows`. */
  function CouldRecords(rows: seq<CsvRow>, queryTime: Timestamp, dateOf: Timestamp -> Date): map<Date, DayRecord>
  {
    if rows == [] then map[]
    else
      var m, r := CouldRecords(rows[..|rows| - 1], queryTime, dateOf), rows[|rows| - 1];
      if !CouldQualifies(r, queryTime) then m
      else
        var d := dateOf(r.time);
        if d !in m then m[d := DayRecord(d, d, r.users)]
        else m[d := m[d].(users := AppendAll(m[d].users, r.users))]
  }

  /** The "could" user list is the first-seen de-duplication of every qualifying row's users. */
  lemma {:induction false} CouldUsersDedupe(rows: seq<CsvRow>, queryTime: Timestamp)
    ensures CouldUsers(rows, queryTime) == Dedupe(Flatten(QualifyingRows(rows, queryTime)))
  {
    if rows != [] {
      var p, r := rows[..|rows| - 1], rows[|rows| - 1];
      CouldUsersDedupe(p, queryTime);
      if CouldQualifies(r, queryTime) {
        var q := QualifyingRows(p, queryTime);
        assert (q + [r])[..|q|] == q;
        AppendAllConcat([], Flatten(q), r.users);
      }
    }
  }

  lemma {:induction false} QualifyingRowsMembers(rows: seq<CsvRow>, queryTime: Timestamp)
    ensures forall r :: r in QualifyingRows(rows, queryTime) <==> r in rows && CouldQualifies(r, queryTime)
  {
    if rows != [] {
      var p := rows[..|rows| - 1];
      QualifyingRowsMembers(p, queryTime);
      assert rows == p + [rows[|rows| - 1]];
    }
  }

  /** The rows of day `d` are the qualifying rows whose time falls on `d`. */
  lemma {:induction false} QualifyingRowsOnMembers(rows: seq<CsvRow>, queryTime: Timestamp, dateOf: Timestamp -> Date, d: Date)
    ensures forall r :: r in QualifyingRowsOn(rows, queryTime, dateOf, d) <==>
      r in rows && CouldQualifies(r, queryTime) && dateOf(r.time) == d
  {
    if rows != [] {
      var p := rows[..|rows| - 1];
      QualifyingRowsOnMembers(p, queryTime, dateOf, d);
      assert rows == p + [rows[|rows| - 1]];
    }
  }

  /** The "could" user list is empty exactly when every qualifying row lists no user. */
  lemma CouldNoUsers(rows: seq<CsvRow>, queryTime: Timestamp)
    ensures CouldUsers(rows, queryTime) == [] <==>
      forall i :: 0 <= i < |rows| && CouldQualifies(rows[i], queryTime) ==> rows[i].users == []
  {
    CouldUsersMembers(rows, queryTime);
    var users := CouldUsers(rows, queryTime);
    if users != [] {
      assert users[0] in users;
      var r :| r in rows && CouldQualifies(r, queryTime) && users[0] in r.users;
    }
    if exists i :: 0 <= i < |rows| && CouldQualifies(rows[i], queryTime) && rows[i].users != [] {
      var i :| 0 <= i < |rows| && CouldQualifies(rows[i], queryTime) && rows[i].users != [];
      assert rows[i].users[0] in rows[i].users;
    }
  }

  /**
   * A date has a record exactly when some qualifying row falls on it. The record is the
   * single day `d`; its list is the first such row's users exactly as written (repeats
   * included), followed by the not-yet-listed users of the later rows of that day.
   */
  lemma {:induction false} CouldRecordsAt(rows: seq<CsvRow>, queryTime: Timestamp, dateOf: Timestamp -> Date)
    ensures forall d :: d in CouldRecords(rows, queryTime, dateOf) <==> QualifyingRowsOn(rows, queryTime, dateOf, d) != []
    ensures forall d :: d in CouldRecords(rows, queryTime, dateOf) ==>
      var day := QualifyingRowsOn(rows, queryTime, dateOf, d);
      CouldRecords(rows, queryTime, dateOf)[d] == DayRecord(d, d, AppendAll(day[0].users, Flatten(day[1..])))
  {
    if rows != [] {
      var p, r := rows[..|rows| - 1], rows[|rows| - 1];
      CouldRecordsAt(p, queryTime, dateOf);
      var m, m' := CouldRecords(p, queryTime, dateOf), CouldRecords(rows, queryTime, dateOf);
      forall d
        ensures d in m' <==> QualifyingRowsOn(rows, queryTime, dateOf, d) != []
        ensures d in m' ==>
          var day := QualifyingRowsOn(rows, queryTime, dateOf, d);
          m'[d] == DayRecord(d, d, AppendAll(day[0].users, Flatten(day[1..])))
      {
        var before := QualifyingRowsOn(p, queryTime, dateOf, d);
        var day := QualifyingRowsOn(rows, queryTime, dateOf, d);
        if CouldQualifies(r, queryTime) && dateOf(r.time) == d {
          assert day == before + [r];
          if d !in m {
            assert before == [] && day == [r] && day[1..] == [];
          } else {
            assert day[0] == before[0];
            assert day[1..] == before[1..] + [r];
            assert (before[1..] + [r])[..|before[1..]|] == before[1..];
            AppendAllConcat(before[0].users, Flatten(before[1..]), r.users);
          }
        } else {
          assert day == before;
          assert d in m' <==> d in m;
          assert d in m ==> m'[d] == m[d];
        }
      }
    }
  }

  /** Each "could" record is the day `d`, listing exactly the users of that day's qualifying rows. */
  lemma CouldRecordsWellFormed(rows: seq<CsvRow>, queryTime: Timestamp, dateOf: Timestamp -> Date, d: Date)
    requires d in CouldRecords(rows, queryTime, dateOf)
    ensures CouldRecords(rows, queryTime, dateOf)[d].start == d == CouldRecords(rows, queryTime, dateOf)[d].end
    ensures forall u :: u in CouldRecords(rows, queryTime, dateOf)[d].users <==>
      u in Flatten(QualifyingRowsOn(rows, queryTime, dateOf, d))
  {
    CouldRecordsAt(rows, queryTime, dateOf);
    var day := QualifyingRowsOn(rows, queryTime, dateOf, d);
    assert day == [day[0]] + day[1..];
    assert Flatten(day) == Flatten([day[0]]) + Flatten(day[1..]) by {
      FlattenConcat([day[0]], day[1..]);
    }
    assert Flatten([day[0]]) == day[0].users by {
      assert [day[0]][..0] == [];
    }
  }

  lemma {:induction false} FlattenConcat(a: seq<CsvRow>, b: seq<CsvRow>)
    ensures Flatten(a + b) == Flatten(a) + Flatten(b)
    decreases |b|
  {
    if b == [] {
      assert a + b == a;
    } else {
      var n := |b| - 1;
      assert (a + b)[..|a + b| - 1] == a + b[..n];
      FlattenConcat(a, b[..n]);
    }
  }

  /** The "could" users are exactly the users listed by some qualifying row, each once. */
  lemma CouldUsersMembers(rows: seq<CsvRow>, queryTime: Timestamp)
    ensures Distinct(CouldUsers(rows, queryTime))
    ensures forall u :: u in CouldUsers(rows, queryTime) <==>
      exists r :: r in rows && CouldQualifies(r, queryTime) && u in r.users
  {
    CouldUsersDedupe(rows, queryTime);
    QualifyingRowsMembers(rows, queryTime);
    var q := QualifyingRows(rows, queryTime);
    forall u ensures u in CouldUsers(rows, queryTime) <==> exists r :: r in rows && CouldQualifies(r, queryTime) && u in r.users {
      if u in CouldUsers(rows, queryTime) {
        var j :| 0 <= j < |q| && u in q[j].users;
        assert q[j] in q;
      }
    }
  }

  /**
   * The repeat quirk needs a row that repeats a user: when no row does (as with the rows
   * `log_could_access` writes), every day's user list is duplicate-free.
   */
  lemma CouldRecordsDistinct(rows: seq<CsvRow>, queryTime: Timestamp, dateOf: Timestamp -> Date)
    requires forall i :: 0 <= i < |rows| ==> Distinct(rows[i].users)
    ensures forall d :: d in CouldRecords(rows, queryTime, dateOf) ==> Distinct(CouldRecords(rows, queryTime, dateOf)[d].users)
  {
    CouldRecordsAt(rows, queryTime, dateOf);
    forall d | d in CouldRecords(rows, queryTime, dateOf)
      ensures Distinct(CouldRecords(rows, queryTime, dateOf)[d].users)
    {
      var day := QualifyingRowsOn(rows, queryTime, dateOf, d);
      QualifyingRowsOnMembers(rows, queryTime, dateOf, d);
      assert day[0] in day;
    }
  }

  /** A row repeating a user seeds its day with the repeat, which the report then shows twice. */
  lemma CouldRepeatSurvives(dateOf: Timestamp -> Date)
    ensures CouldRecords([CsvRow(1, "", ["alice", "alice"])], 0, dateOf)[dateOf(1)].users == ["alice", "alice"]
  {
    var rows := [CsvRow(1, "", ["alice", "alice"])];
    assert rows[..0] == [];
  }

  /** A qualifying row listing nobody still creates a record for its day, with an empty list. */
  lemma CouldEmptyRowMakesRecord(dateOf: Timestamp -> Date)
    ensures dateOf(1) in CouldRecords([CsvRow(1, "", [])], 0, dateOf)
    ensures CouldRecords([CsvRow(1, "", [])], 0, dateOf)[dateOf(1)].users == []
  {
    var rows := [CsvRow(1, "", [])];
    assert rows[..0] == [];
  }

  /** The inner loop `for user in entry_users: if user not in acc: acc.append(user)`. */
  method AppendUsers(acc: seq<string>, entryUsers: seq<string>) returns (r: seq<string>)
    ensures r == AppendAll(acc, entryUsers)
    ensures forall u :: u in r <==> u in acc || u in entryUsers
  {
    r := acc;
    var k := 0;
    while k < |entryUsers|
      invariant 0 <= k <= |entryUsers|
      invariant r == AppendAll(acc, entryUsers[..k])
    {
      assert entryUsers[..k + 1][..k] == entryUsers[..k];
      if entryUsers[k] !in r {
        r := r + [entryUsers[k]];
      }
      k := k + 1;
    }
    assert entryUsers[..k] == entryUsers;
  }

  /**
   * The "could" loop: a row contributes only when it is strictly after `queryTime`;
   * `users` collects each user once, and each date's record is seeded with the first
   * row's list as it stands and then extended with the later rows' new users.
   */
  method AggregateCould(rows: seq<CsvRow>, queryTime: Timestamp, dateOf: Timestamp -> Date)
    returns (users: seq<string>, records: map<Date, DayRecord>)
    ensures users == CouldUsers(rows, queryTime)
    ensures records == CouldRecords(rows, queryTime, dateOf)
    ensures Distinct(users)
    ensures forall u :: u in users <==> exists r :: r in rows && CouldQualifies(r, queryTime) && u in r.users
    ensures forall d :: d in records ==> records[d].start == d == records[d].end
  {
    users := [];
    records := map[];
    var i := 0;
    while i < |rows|
      invariant 0 <= i <= |rows|
      invariant users == CouldUsers(rows[..i], queryTime)
      invariant records == CouldRecords(rows[..i], queryTime, dateOf)
    {
      var entry := rows[i];
      assert rows[..i + 1][..i] == rows[..i];
      var entryTime := entry.time;
      var entryDate := dateOf(entryTime);
      if entryTime > queryTime {
        var entryUsers := entry.users;
        users := AppendUsers(users, entryUsers);
        if entryDate !in records {
          records := records[entryDate := DayRecord(entryDate, entryDate, entryUsers)];
        } else {
          var dayUsers := AppendUsers(records[entryDate].users, entryUsers);
          records := records[entryDate := records[entryDate].(users := dayUsers)];
        }
      }
      i := i + 1;
    }
    assert rows[..i] == rows;
    CouldUsersMembers(rows, queryTime);
    forall d | d in records ensures records[d].start == d == records[d].end {
      CouldRecordsWellFormed(rows, queryTime, dateOf, d);
    }
  }
}
