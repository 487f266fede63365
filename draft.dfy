/**
 * The early draft access_audit.py: its `days` argument check and the first-seen user
 * list of `did_access`.
 */
module Draft {
  import opened Wrappers
  import opened FirstSeen
  import opened Aggregate
  import Text
  import Report

  /**
   * `days`: the argument is returned unchanged when it is at least one and refused
   * otherwise, with the same message as the later `number_of_days`.
   */
  function Days(days: int): (r: Result<int, string>)
    ensures r.Success? <==> days >= 1
    ensures r.Success? ==> r.value == days
    ensures r == Report.NumberOfDays(days)
  {
    if days < 1 then Failure("invalid days value: " + Text.IntToString(days) + " (positive integer required)")
    else Success(days)
  }

  /** The user field of each decoded login entry. */
  function UsersOf(entries: seq<LoginEntry>): (r: seq<string>)
    ensures |r| == |entries|
    ensures forall i :: 0 <= i < |r| ==> r[i] == entries[i].user
  {
    seq(|entries|, i requires 0 <= i < |entries| => entries[i].user)
  }

  /**
   * `did_access` over decoded login entries: every non-empty user, once, in the order
   * of first appearance; no time filter is applied.
   */
  method DidAccess(entries: seq<LoginEntry>) returns (users: seq<string>)
    ensures "" !in users
    ensures Distinct(users)
    ensures forall u :: u in users <==> u != "" && u in UsersOf(entries)
    ensures forall i, j :: 0 <= i < j < |users| ==>
      FirstIndex(UsersOf(entries), users[i]) < FirstIndex(UsersOf(entries), users[j])
  {
    var all := UsersOf(entries);
    var named := (u: string) => u != "";
    users := [];
    var i := 0;
    while i < |entries|
      invariant 0 <= i <= |entries|
      invariant users == FirstSeenWhere(all[..i], named)
    {
      var user := entries[i].user;
      assert all[..i + 1][..i] == all[..i];
      assert all[..i + 1][i] == user;
      if user != "" && user !in users {
        users := users + [user];
      }
      i := i + 1;
    }
    assert all[..i] == all;
    FirstSeenWhereOrder(all, named);
  }
}
