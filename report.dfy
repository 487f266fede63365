/**
 * The text report of access_audit_debug.py: `pluralise`, the `days` argument check
 * `number_of_days`, the real-name fallback and the per-interval sections of
 * `output_results`.
 */
module Report {
  import opened Wrappers
  import opened Text
  import opened Aggregate

  /**
   * `pluralise(word, count)`: a count of one gives "1 user" for the word "user" and the
   * bare word otherwise ("day", read as "in the last day"); any other count gives the
   * count, a space and the word with an "s".
   */
  function Pluralise(word: string, count: int): (r: string)
    ensures count == 1 && word == "user" ==> r == "1 user"
    ensures count == 1 && word != "user" ==> r == word
    ensures count != 1 ==> |r| == |IntToString(count)| + |word| + 2 && r[|r| - 1] == 's'
  {
    if count == 1 then
      if word == "user" then "1 user" else word
    else IntToString(count) + " " + word + "s"
  }

  /** The "day" quirk: a one-day window reads "day", not "1 day". */
  lemma PluraliseOneDay()
    ensures Pluralise("day", 1) == "day"
  {
  }

  /** For any count but one the phrase starts with the count, which reads back exactly, and ends with the word plus "s". */
  lemma PluraliseCountReadsBack(word: string, count: int)
    requires count != 1
    ensures var r := Pluralise(word, count);
      var c := FirstField(r, ' ');
      |c| < |r| && c == IntToString(count) && ParseInt(c) == count &&
      r[|c| + 1..] == word + "s"
  {
    var digits := IntToString(count);
    var r := Pluralise(word, count);
    assert " " + word + "s" == [' '] + (word + "s");
    assert r == digits + ([' '] + (word + "s"));
    assert ' ' !in digits by {
      assert forall i :: 0 <= i < |digits| ==> digits[i] == '-' || IsDigit(digits[i]);
    }
    FirstFieldOfJoin(digits, ' ', word + "s");
    IntToStringRoundTrip(count);
  }

  lemma {:induction false} FirstFieldOfJoin(a: string, sep: char, b: string)
    requires sep !in a
    ensures FirstField(a + ([sep] + b), sep) == a
  {
    if a != [] {
      assert (a + ([sep] + b))[1..] == a[1..] + ([sep] + b);
      FirstFieldOfJoin(a[1..], sep, b);
      assert a == [a[0]] + a[1..];
    }
  }

  /** `number_of_days`: a positive day count is accepted unchanged, anything below one is an argument error. */
  function NumberOfDays(days: int): (r: Result<int, string>)
    ensures r.Success? <==> days >= 1
    ensures r.Success? ==> r.value == days
    ensures r.Failure? ==> r.error == "invalid days value: " + IntToString(days) + " (positive integer required)"
  {
    if days < 1 then Failure("invalid days value: " + IntToString(days) + " (positive integer required)")
    else Success(days)
  }

  /**
   * The name printed for `user`, given the gecos field of its password-database entry
   * (`None` when the lookup misses): the first comma-separated segment of the gecos
   * field when that is non-empty, and "<user> (real name not found)" otherwise.
   */
  function DisplayName(user: string, gecos: Option<string>): (r: string)
    ensures r != []
    ensures gecos.Some? && gecos.value != [] && gecos.value[0] != ',' ==>
      r <= gecos.value && ',' !in r && (|r| < |gecos.value| ==> gecos.value[|r|] == ',')
    ensures !(gecos.Some? && gecos.value != [] && gecos.value[0] != ',') ==>
      r == user + " (real name not found)"
  {
    var nameNotFound := user + " (real name not found)";
    if gecos.Some? then
      var realName := FirstField(gecos.value, ',');
      if realName != [] then realName else nameNotFound
    else nameNotFound
  }

  /** How an interval is announced: "on <date>" or "between <start> and <end>". */
  datatype Period = On(day: Date) | Between(first: Date, last: Date)

  function PeriodOf(r: DayRecord): (p: Period)
    ensures p.On? <==> r.start == r.end
    ensures p.On? ==> p.day == r.start
    ensures p.Between? ==> p.first == r.start && p.last == r.end
  {
    if r.start == r.end then On(r.start) else Between(r.start, r.end)
  }

  /** One interval of the report: its "<n> users" header, its period, one name per user. */
  datatype Section = Section(header: string, period: Period, names: seq<string>)

  /** The report: the no-access sentence, or the summary followed by one section per interval. */
  datatype Report =
    | NoAccess(window: string)
    | Accessed(summary: string, window: string, sections: seq<Section>)

  /** The printed names of `users`, in list order, each resolved through `lookup`. */
  function Names(users: seq<string>, lookup: string -> Option<string>): (r: seq<string>)
    ensures |r| == |users|
    ensures forall i :: 0 <= i < |r| ==> r[i] == DisplayName(users[i], lookup(users[i]))
  {
    seq(|users|, i requires 0 <= i < |users| => DisplayName(users[i], lookup(users[i])))
  }

  /** The inner loop of `output_results`: one printed name per user of an interval, in order. */
  method UserNames(users: seq<string>, lookup: string -> Option<string>) returns (names: seq<string>)
    ensures names == Names(users, lookup)
  {
    names := [];
    var i := 0;
    while i < |users|
      invariant 0 <= i <= |users|
      invariant names == Names(users[..i], lookup)
    {
      var recUser := users[i];
      assert users[..i + 1][..i] == users[..i];
      names := names + [DisplayName(recUser, lookup(recUser))];
      i := i + 1;
    }
    assert users[..i] == users;
  }

  /**
   * `output_results` without the host name, the query time's rendering and the wording
   * that depends on the query type: no users gives the no-access sentence; otherwise a
   * summary and, for each merged interval in order, its header, period and the names of
   * its users in the interval's order, each falling back when the lookup misses.
   */
  method OutputResults(noOfUsers: nat, merged: seq<DayRecord>, days: int, lookup: string -> Option<string>)
    returns (report: Report)
    ensures report.NoAccess? <==> noOfUsers == 0
    ensures report.window == Pluralise("day", days)
    ensures report.Accessed? ==> report.summary == Pluralise("user", noOfUsers)
    ensures report.Accessed? ==> |report.sections| == |merged|
    ensures report.Accessed? ==> forall k :: 0 <= k < |merged| ==>
      report.sections[k] == Section(Pluralise("user", |merged[k].users|), PeriodOf(merged[k]), Names(merged[k].users, lookup))
  {
    if noOfUsers != 0 {
      var sections := [];
      var k := 0;
      while k < |merged|
        invariant 0 <= k <= |merged| && |sections| == k
        invariant forall j :: 0 <= j < k ==>
          sections[j] == Section(Pluralise("user", |merged[j].users|), PeriodOf(merged[j]), Names(merged[j].users, lookup))
      {
        var record := merged[k];
        var period := if record.start == record.end then On(record.start) else Between(record.start, record.end);
        var names := UserNames(record.users, lookup);
        sections := sections + [Section(Pluralise("user", |record.users|), period, names)];
        k := k + 1;
      }
      report := Accessed(Pluralise("user", noOfUsers), Pluralise("day", days), sections);
    } else {
      report := NoAccess(Pluralise("day", days));
    }
  }
}
