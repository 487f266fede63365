/**
 * `log_could_access` of access_audit_debug.py: the snapshot row of users who have both
 * a password-database entry and a line in the SSH key file.
 */
module Snapshot {
  import opened FirstSeen
  import opened Text
  import opened Aggregate

  /** The user named by each key-file line: the text before its first ':'. */
  function KeyUsers(keyLines: seq<string>): (r: seq<string>)
    ensures |r| == |keyLines|
    ensures forall i :: 0 <= i < |r| ==> r[i] == FirstField(keyLines[i], ':')
  {
    seq(|keyLines|, i requires 0 <= i < |keyLines| => FirstField(keyLines[i], ':'))
  }

  /** True when some line of the key file names `user`. */
  ghost predicate HasKey(keyLines: seq<string>, user: string) {
    exists i :: 0 <= i < |keyLines| && FirstField(keyLines[i], ':') == user
  }

  /** The key holders, each once, in key-file order. */
  method KeyHolders(keyLines: seq<string>) returns (holders: seq<string>)
    ensures holders == Dedupe(KeyUsers(keyLines))
    ensures forall u :: u in holders <==> HasKey(keyLines, u)
  {
    var users := KeyUsers(keyLines);
    holders := [];
    var i := 0;
    while i < |keyLines|
      invariant 0 <= i <= |keyLines|
      invariant holders == Dedupe(users[..i])
    {
      var user := FirstField(keyLines[i], ':');
      assert users[..i + 1] == users[..i] + [user];
      DedupeSnoc(users[..i], user);
      if user !in holders {
        holders := holders + [user];
      }
      i := i + 1;
    }
    assert users[..i] == users;
    KeyUsersMembers(keyLines);
  }

  lemma KeyUsersMembers(keyLines: seq<string>)
    ensures forall u :: u in Dedupe(KeyUsers(keyLines)) <==> HasKey(keyLines, u)
  {
    var users := KeyUsers(keyLines);
    forall u ensures u in users <==> HasKey(keyLines, u) {
      if u in users {
        var k :| 0 <= k < |users| && users[k] == u;
      }
    }
  }

  /**
   * `log_could_access` with the clock, its rendering, the key file's lines and the
   * password database's names as parameters: the row carries the two timestamps and
   * every password-database name that holds a key, once each, in database order.
   */
  method LogCouldAccess(timestamp: Timestamp, human: string, keyLines: seq<string>, passwdNames: seq<string>)
    returns (row: CsvRow)
    ensures row.time == timestamp && row.human == human
    ensures Distinct(row.users)
    ensures forall u :: u in row.users <==> u in passwdNames && HasKey(keyLines, u)
    ensures forall i, j :: 0 <= i < j < |row.users| ==>
      FirstIndex(passwdNames, row.users[i]) < FirstIndex(passwdNames, row.users[j])
  {
    var usersWithKeys := KeyHolders(keyLines);
    var hasKey := u => u in usersWithKeys;
    var users := [];
    var i := 0;
    while i < |passwdNames|
      invariant 0 <= i <= |passwdNames|
      invariant users == FirstSeenWhere(passwdNames[..i], hasKey)
    {
      var user := passwdNames[i];
      assert passwdNames[..i + 1][..i] == passwdNames[..i];
      if user in usersWithKeys && user !in users {
        users := users + [user];
      }
      i := i + 1;
    }
    assert passwdNames[..i] == passwdNames;
    FirstSeenWhereOrder(passwdNames, hasKey);
    row := CsvRow(timestamp, human, users);
  }
}
