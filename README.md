# access-audit in Dafny

access-audit reports which users *did* access a host and which users *could* have.
"Did" comes from the login records in the `wtmp` files. "Could" comes from a log of
snapshots: each snapshot lists the users that have both a password-database entry and
a line in the SSH key file.

A query covers the last `days` days. It works in four steps:

1. It selects the rotated log files modified after the query time.
2. It aggregates the qualifying entries into one record per calendar day.
3. It sorts those day records and merges runs of consecutive days that have the same
   users into intervals.
4. It prints a report with one section per interval: a "N users" header, "on DATE" or
   "between DATE and DATE", and one real name per user.

This project models that core over decoded inputs. A login entry is
`LoginEntry(sec, usec, user)`. A snapshot row is `CsvRow(time, human, users)`. A
candidate log file is `LogFile(path, mtime)`. Key-file lines and password-database names
are plain strings. It covers both files of the repository:

- `access_audit_debug.py`, the working tool:
  - the aggregation loops of `query_did_access` and `query_could_access`;
  - `compile_logs` and `sort_and_merge`;
  - `number_of_days` and `pluralise`;
  - the interval and real-name logic of `output_results`;
  - the cross-reference in `log_could_access`.
- `access_audit.py`, the early draft: the `days` check and the user list of
  `did_access`.

Modules, one per part of the program:

| module | file | models |
|---|---|---|
| `Wrappers` | wrappers.dfy | `Option`, and `Result` for the argument check's error path |
| `FirstSeen` | first_seen.dfy | "append unless already present", the list idiom every loop uses |
| `Text` | text.dfy | Python string order, `split(sep)[0]`, `"{}".format(n)` for integers |
| `Sorting` | sorting.dfy | `sorted` / `list.sort` as an insertion sort under a total preorder |
| `Aggregate` | aggregate.dfy | the "did" and "could" aggregation loops and the `records` dictionary |
| `Merge` | merge.dfy | `sort_and_merge` |
| `SelectLogs` | select_logs.dfy | `compile_logs` |
| `Report` | report.dfy | `pluralise`, `number_of_days`, the period choice and the real-name fallback |
| `Snapshot` | snapshot.dfy | the user list of `log_could_access` |
| `Draft` | draft.dfy | `days` and `did_access` of access_audit.py |
| `Query` | query.dfy | the two query paths end to end, from entries to report |

The loops of the source become `method`s with `while` loops. Each loop's invariant ties
its locals to a specification function folded over the prefix read so far. The
properties are proved as lemmas about those functions.

Representation choices:

- Timestamps are integers in microseconds (`sec * 1000000 + usec`).
- Dates are integer day numbers, so `timedelta(1)` is `+ 1`.
- `date.fromtimestamp` is a parameter `dateOf`.
- The password-database lookup is a parameter `lookup: string -> Option<string>`. It
  returns the gecos field on a hit and `None` on a miss.

The model follows the code as written:

- A snapshot row stores raw user names.
- The "could" path seeds a new day with the row's user list as it is. Repeats inside one
  row therefore survive, and a row with no users still creates a record for its day. See
  `Aggregate.CouldRepeatSurvives` and `Aggregate.CouldEmptyRowMakesRecord`.
- Names are printed in the sorted order of their user names.
- The query time is `now - days * 86400` seconds.
- A prefix that matches no log file gives an empty selection.

## Model

| member | source | states |
|---|---|---|
| FirstSeen.AppendNew | access_audit_debug.py:163-164 | appending a user unless present gives a list extending the old one, holding exactly the old members plus the user, and duplicate-free when the old list was |
| FirstSeen.AppendAll | access_audit_debug.py:133-135 | appending each user of a list in turn extends the old list, adds exactly the new users, and keeps it duplicate-free |
| FirstSeen.Dedupe | access_audit_debug.py:125-127 | the first-seen list of a sequence is duplicate-free and holds exactly its members |
| FirstSeen.AppendAllConcat | access_audit_debug.py:125-127 | appending the users of two lists one after the other is the same as appending their concatenation |
| FirstSeen.DedupeOrder | access_audit_debug.py:125-127 | the first-seen list keeps first-occurrence order: an earlier element was first seen earlier |
| FirstSeen.FirstSeenWhere | access_audit_debug.py:279-282 | the filtered first-seen list is duplicate-free and holds exactly the members that pass the filter |
| FirstSeen.FirstSeenWhereOrder | access_audit_debug.py:279-282 | the filtered first-seen list keeps first-occurrence order |
| Text.LexTotal | access_audit_debug.py:181 | any two strings are ordered one way or the other under Python's string comparison |
| Text.LexTransitive | access_audit_debug.py:181 | Python's string comparison is transitive |
| Text.LexAntisymmetric | access_audit_debug.py:191 | two strings that compare both ways are equal |
| Text.FirstField | access_audit_debug.py:272-274 | `split(sep)[0]` is a prefix free of the separator, followed by the separator whenever it is shorter than the line |
| Text.NatToString | access_audit_debug.py:259 | a count renders as a non-empty digit string without a leading zero |
| Text.IntToString | access_audit_debug.py:100 | a number renders as a non-empty string that starts with a minus sign exactly when the number is negative, all other characters digits |
| Text.NatToStringRoundTrip | access_audit_debug.py:259 | reading a rendered count back gives the count |
| Text.IntToStringRoundTrip | access_audit_debug.py:100 | reading a rendered number back gives the number |
| Sorting.Insert | access_audit_debug.py:187-188 | inserting into a sorted list keeps it sorted and adds exactly one copy of the element |
| Sorting.SortBy | access_audit_debug.py:187-191 | sorting gives a sorted permutation of the input |
| Sorting.SortedUnique | access_audit_debug.py:187-191 | two sorted permutations of the same list are equal when the order separates distinct elements |
| Sorting.SortOfSorted | access_audit_debug.py:190-191 | sorting an already sorted list leaves it unchanged |
| Sorting.DistinctPermutation | access_audit_debug.py:187-188 | a permutation of a duplicate-free list is duplicate-free |
| Aggregate.QualifyingUsersMembers | access_audit_debug.py:157-164 | a user is collected exactly when some entry after the query time carries it, and the user is non-empty |
| Aggregate.QualifyingUsersOnMembers | access_audit_debug.py:157-170 | a user is collected for day `d` exactly when some qualifying entry on `d` carries it |
| Aggregate.DidRecordsAt | access_audit_debug.py:165-170 | a day has a record exactly when a qualifying entry falls on it, and the record is that day alone with the first-seen users of that day |
| Aggregate.DidRecordsWellFormed | access_audit_debug.py:165-170 | every "did" record has start = end = its day and a non-empty, duplicate-free user list holding exactly the qualifying users of that day |
| Aggregate.DidNoUsers | access_audit_debug.py:159-164 | the user list is empty exactly when no entry qualifies |
| Aggregate.DidNoUsersNoRecords | access_audit_debug.py:159-170 | no qualifying user exactly when no day record |
| Aggregate.DidEntry | access_audit_debug.py:156-170 | one pass of the "did" loop turns the users and records of the entries before index `i` into the first-seen qualifying users and the per-day records of the entries up to and including `i` |
| Aggregate.AggregateDid | access_audit_debug.py:153-170 | the "did" loop yields the first-seen qualifying users (exactly those of qualifying entries) and the per-day records, each one day long with a non-empty user list |
| Aggregate.Flatten | access_audit_debug.py:124-125 | a user is among the rows' users exactly when some row lists it |
| Aggregate.CouldUsersDedupe | access_audit_debug.py:123-127 | the "could" user list is the first-seen list of all users of the qualifying rows |
| Aggregate.QualifyingRowsMembers | access_audit_debug.py:121-123 | a row qualifies exactly when its time is strictly after the query time |
| Aggregate.QualifyingRowsOnMembers | access_audit_debug.py:121-123 | the rows of day `d` are the qualifying rows whose time falls on `d` |
| Aggregate.CouldNoUsers | access_audit_debug.py:123-127 | the "could" user list is empty exactly when every qualifying row lists no user |
| Aggregate.CouldRecordsAt | access_audit_debug.py:128-135 | a day has a record exactly when a qualifying row falls on it, and its users are the first row's list as-is followed by the new users of the later rows |
| Aggregate.CouldRecordsWellFormed | access_audit_debug.py:128-135 | every "could" record has start = end = its day and holds exactly the users of that day's qualifying rows |
| Aggregate.FlattenConcat | access_audit_debug.py:124-125 | the users of two row lists are the users of the first followed by those of the second |
| Aggregate.CouldUsersMembers | access_audit_debug.py:123-127 | the "could" user list is duplicate-free and holds exactly the users of qualifying rows |
| Aggregate.CouldRecordsDistinct | access_audit_debug.py:128-135 | when no row repeats a user, no day's user list does |
| Aggregate.CouldRepeatSurvives | access_audit_debug.py:128-131 | a single row listing a user twice yields a day whose users list that user twice |
| Aggregate.CouldEmptyRowMakesRecord | access_audit_debug.py:128-131 | a qualifying row with no users still creates a record, with an empty user list |
| Aggregate.AppendUsers | access_audit_debug.py:133-135 | the inner loop appends each new user of the row to the day's list, keeping old members and adding exactly the row's users |
| Aggregate.AggregateCould | access_audit_debug.py:117-135 | the "could" loop yields the first-seen users of qualifying rows (duplicate-free, exactly those users) and one single-day record per day with qualifying rows |
| Merge.SortNames | access_audit_debug.py:190-191 | `users.sort()` gives a sorted permutation of the user list |
| Merge.SortUsers | access_audit_debug.py:190-191 | sorting every record's users keeps each record's days and sorts only its users |
| Merge.LexLeTotalPreorder | access_audit_debug.py:191 | string order is a total, transitive and antisymmetric order, so sorting user lists is well defined |
| Merge.ByStartTotalPreorder | access_audit_debug.py:187-188 | ordering records by start is a total preorder |
| Merge.StepChain | access_audit_debug.py:194-205 | one merge step keeps the intervals ordered, one-day-or-longer and not mergeable with their neighbours |
| Merge.StepCovers | access_audit_debug.py:194-205 | one merge step keeps every day read so far inside an interval carrying its users |
| Merge.StepSound | access_audit_debug.py:194-205 | one merge step keeps every day of every interval a day read so far with the interval's users |
| Merge.MergeInvariant | access_audit_debug.py:193-205 | over ascending single-day records, the merge loop's output is ordered, maximal, covers every input day and contains no other day |
| Merge.ChainOrdered | access_audit_debug.py:194-205 | any earlier interval ends before any later one starts |
| Merge.ChainDisjoint | access_audit_debug.py:194-205 | a day lies in at most one interval |
| Merge.MergeFixpoint | access_audit_debug.py:194-205 | merging intervals that have no mergeable neighbours changes nothing |
| Merge.SortedDays | access_audit_debug.py:187-188 | sorting distinct single-day records by start gives strictly ascending distinct days |
| Merge.PreparedDays | access_audit_debug.py:187-191 | after both sorts the merge invariant holds of the merge of the records |
| Merge.SortAndMergeOrdered | access_audit_debug.py:184-206 | empty output exactly for empty input; every interval has start ≤ end and sorted users; intervals strictly ascend without overlap; none can merge with the next; each day is in at most one interval |
| Merge.SortAndMergeCovers | access_audit_debug.py:184-206 | every input day lies in an interval carrying that day's sorted users |
| Merge.SortAndMergeSound | access_audit_debug.py:184-206 | every day of every interval is an input day whose sorted users are the interval's users |
| Merge.SortAndMergeIdempotent | access_audit_debug.py:184-206 | sorting and merging the output again gives the same output |
| Merge.SortEachUsers | access_audit_debug.py:190-191 | the in-place sorting loop sorts every record's users and leaves its days alone |
| Merge.MergeRecord | access_audit_debug.py:195-205 | one pass of the merge loop either extends the last interval in place or appends the record |
| Merge.SortAndMerge | access_audit_debug.py:184-206 | `sort_and_merge` computes the specified merge of the records sorted by start, each with its users sorted |
| Merge.MergeExampleRun | access_audit_debug.py:197-199 | days 1 and 2 with the same users merge; day 3 with other users starts a new interval |
| Merge.MergeExampleGap | access_audit_debug.py:197-203 | days 1 and 3 with the same users stay apart across the gap |
| SelectLogs.DescendingTotalOrder | access_audit_debug.py:181 | reverse string order is a total, transitive, antisymmetric order |
| SelectLogs.SelectedLogs | access_audit_debug.py:177-182 | the selection is in reverse lexicographic order and is a permutation of the recent files |
| SelectLogs.RecentMembers | access_audit_debug.py:178-180 | a path is recent exactly when some listed file has that path and an mtime strictly after the query time |
| SelectLogs.RecentConcat | access_audit_debug.py:178-180 | filtering a concatenation filters each part |
| SelectLogs.CompileLogs | access_audit_debug.py:175-182 | `compile_logs` keeps exactly the files modified strictly after the query time and returns them in reverse lexicographic order |
| SelectLogs.OldFileIgnored | access_audit_debug.py:179 | adding a file modified at or before the query time, anywhere in the listing, leaves the selection unchanged |
| SelectLogs.RecentPermutation | access_audit_debug.py:178-180 | listings that are permutations of each other have recent parts that are permutations of each other |
| SelectLogs.SelectionIgnoresGlobOrder | access_audit_debug.py:178-181 | the selection does not depend on the order in which the glob lists files |
| Report.Pluralise | access_audit_debug.py:253-259 | a count of 1 gives "1 user" for "user" and the bare word otherwise; any other count gives the count, a space, the word and a final "s" |
| Report.PluraliseOneDay | access_audit_debug.py:255-258 | a one-day window reads "day", not "1 day" |
| Report.PluraliseCountReadsBack | access_audit_debug.py:259 | for any count but 1, the text before the first space reads back as the count, and the rest is the word plus "s" |
| Report.NumberOfDays | access_audit_debug.py:94-102 | a count of at least 1 is accepted unchanged; anything below 1 fails with "invalid days value: N (positive integer required)" |
| Report.DisplayName | access_audit_debug.py:231-240 | never empty; on a hit whose gecos field starts with a real name, the name is the part before the first comma; otherwise "<user> (real name not found)" |
| Report.PeriodOf | access_audit_debug.py:224-227 | a one-day interval is announced "on" its day; a longer one is "between" its start and its end |
| Report.Names | access_audit_debug.py:229-240 | one display name per user, in the interval's order |
| Report.UserNames | access_audit_debug.py:229-240 | the inner loop prints, in the interval's order, exactly one name per user, each the display name its lookup gives |
| Report.OutputResults | access_audit_debug.py:208-251 | no users gives the no-access report; otherwise the summary counts the users, and each interval gets a section in order with header, period and names; the window is always "pluralise('day', days)" |
| Snapshot.KeyUsers | access_audit_debug.py:271-274 | each key line names the user before its first ':' |
| Snapshot.KeyHolders | access_audit_debug.py:269-276 | the key holders are the first-seen users named by the key lines, exactly the users some line names |
| Snapshot.LogCouldAccess | access_audit_debug.py:261-282 | the row carries both timestamps and, once each in password-database order, exactly the names that have a key line |
| Draft.Days | access_audit.py:60-68 | the argument is returned unchanged when at least 1 and refused below 1, with the same message as `number_of_days` |
| Draft.UsersOf | access_audit.py:81-83 | the user field of each entry, in entry order |
| Draft.DidAccess | access_audit.py:78-85 | the list has no empty user, no duplicates, every non-empty user of any entry, in first-occurrence order |
| Query.QueryTime | access_audit_debug.py:145 | the query time is exactly `days` days of microseconds before now, so strictly earlier for a valid count |
| Query.RecordValues | access_audit_debug.py:187 | `records.values()` lists every record of the map exactly once, key by key |
| Query.KeyedValuesAreDays | access_audit_debug.py:187 | the values of a map keyed by each record's own day are single-day records with distinct days |
| Query.IntervalDay | access_audit_debug.py:172 | every day of a merged interval is a day of the record map, and the interval carries that day's sorted users |
| Query.DayReported | access_audit_debug.py:172 | every day of the record map lies in a merged interval carrying its sorted users |
| Query.SortNamesMembers | access_audit_debug.py:191 | sorting a user list keeps exactly its members |
| Query.MergedPeriods | access_audit_debug.py:224-227 | an interval announced "between" spans at least two days, and intervals are announced in date order |
| Query.DidIntervalsSound | access_audit_debug.py:153-172 | every day of a reported "did" interval had qualifying entries, and the interval's users are exactly that day's first-seen users, sorted |
| Query.DidEntryRecorded | access_audit_debug.py:159-170 | a qualifying entry's user is in the record of its day |
| Query.DidEntriesListed | access_audit_debug.py:153-172 | every qualifying entry's user is listed in the reported interval holding its day |
| Query.DidNothingListed | access_audit_debug.py:153-170 | with no qualifying entry the record map is empty, so no record is handed to the merge |
| Query.QueryDidAccess | access_audit_debug.py:140-173 | "did" query: no access is reported exactly when no entry qualifies, and then there are no intervals; every interval has start <= end and the intervals are sound, complete, ordered and maximal; the window reads `pluralise("day", days)` and the summary counts the distinct qualifying users; one section per interval, in order, with its "N users" header, its period and the display name of each of its users |
| Query.CouldIntervalsSound | access_audit_debug.py:117-137 | every day of a reported "could" interval had qualifying rows; the interval's users are, sorted, the first row's list as it is (repeats included) followed by the new users of the later rows, so exactly the users those rows list |
| Query.CouldRowsListed | access_audit_debug.py:117-137 | every qualifying row's day is reported, even for a row with no users, in an interval listing all of the row's users |
| Query.CouldNothingListed | access_audit_debug.py:117-135 | with no qualifying row the record map is empty, so no record is handed to the merge |
| Query.QueryCouldAccess | access_audit_debug.py:104-138 | "could" query: no access is reported exactly when no qualifying row lists a user, and with no qualifying row there are no intervals; every interval has start <= end; the window reads `pluralise("day", days)` and the summary counts the first-seen users of all qualifying rows; each interval's users are the day's seeded-then-appended list, sorted, repeats of the first row included; the intervals are complete, ordered and maximal; one section per interval, in order, with its "N users" header, its period and the display name of each of its users |

## Left out

- Command-line parsing is not modelled: `parse_arguments`, `arg_parser`, `main`, and the
  argparse defaults `const=31` and `const=30`. The `int(days)` conversion before the
  range check is left out too: `number_of_days` and `days` take an integer.
- File I/O is not modelled:
  - `glob.glob` and `path.getmtime` are replaced by a list of `LogFile(path, mtime)`.
  - Opening and reading the log files is left out, along with the buffer concatenation
    of `query_did_access` and `query_could_access`.
  - Appending the snapshot row with `csv.writer` is left out. `LogCouldAccess` returns
    the row.
  - The key file and the password database are given as lists of lines and names.
- The decoders `utmp.read` and `csv.reader` are foreign code. The entries and rows
  arrive decoded. A malformed row, a time that is not a float, or a row shorter than two
  fields is not modelled.
- `time()`, `datetime.fromtimestamp` and `date.fromtimestamp` are left out, because they
  depend on the clock and the local time zone. The current time and `dateOf` are
  parameters. The human-readable timestamp is a string parameter.
- Floating point is not modelled. `sec + usec * .000001` and `time() - days * 86400` are
  exact integers in microseconds, so rounding at the `entry_time > query_time` boundary
  is not captured.
- The `getent_passwd` emulation is replaced by `lookup`:
  - the `PasswordDbEntry` class;
  - reading the `getent` output file;
  - the call with an empty user name, which returns the whole list.
- Output formatting is not modelled: `print`, `node()`, the wording that differs between
  the "did" and "could" summaries, and the rendering of dates.
- `Report.OutputResults` does not model the query type or the host name. It returns the
  report's structure (counts, periods, names) instead of printing text.
- Aliasing is not modelled. The source mutates records in place: it sorts each user
  list and updates `last_record["end"]`, and the same dictionaries are also held by
  `records`. The model works on values, and nothing reads those dictionaries after the
  merge.
- Dictionary insertion order is not modelled. `Query.RecordValues` takes the keys in an
  unspecified order. The merge's result does not depend on that order, because the
  days are distinct and records are sorted by start.
- The early draft's `could_access` only prints its argument, so the model leaves it out.
  The draft's per-entry debug printing is left out too.
