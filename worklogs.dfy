/** One worklog record as the service returns it, and the per-record
    decisions: does it belong to the target user, and whose name goes in the
    `UserName` column. */
module Worklogs {
  import opened Types

  /** The `author` object; each identity field may be absent. */
  datatype Author = Author(accountId: Option<string>, name: Option<string>,
                           displayName: Option<string>, emailAddress: Option<string>)

  /** A record of the `worklogs` array: absent fields are `None`. */
  datatype Worklog = Worklog(author: Option<Author>, timeSpentSeconds: Option<int>,
                             started: Option<string>)

  /** `worklog.get("author") or {}`. */
  function AuthorOf(w: Worklog): Author
  {
    match w.author
    case Some(a) => a
    case None => Author(None, None, None, None)
  }

  /** `any(candidate == target for candidate in candidates if candidate)`. */
  function AnyCandidateIs(candidates: seq<Option<string>>, target: string): (r: bool)
    ensures r <==> exists i :: 0 <= i < |candidates| && Filled(candidates[i])
                              && candidates[i].value == target
    decreases |candidates|
  {
    if candidates == [] then false
    else if Filled(candidates[0]) && candidates[0].value == target then true
    else
      var r := AnyCandidateIs(candidates[1..], target);
      assert forall i :: 1 <= i < |candidates| ==> candidates[i] == candidates[1..][i - 1];
      r
  }

  /** `_matches_user`: exact, case-sensitive equality with any non-empty
      identity field of the author. */
  function MatchesUser(w: Worklog, target: string): (r: bool)
    ensures r <==> target != "" && (AuthorOf(w).accountId == Some(target)
                                    || AuthorOf(w).name == Some(target)
                                    || AuthorOf(w).displayName == Some(target)
                                    || AuthorOf(w).emailAddress == Some(target))
    ensures w.author.None? ==> !r
  {
    var a := AuthorOf(w);
    var candidates := [a.accountId, a.name, a.displayName, a.emailAddress];
    var r := AnyCandidateIs(candidates, target);
    assert candidates[0] == a.accountId && candidates[1] == a.name;
    assert candidates[2] == a.displayName && candidates[3] == a.emailAddress;
    r
  }

  /** `a or b or c or ""` over optional strings. */
  function FirstFilled(candidates: seq<Option<string>>): (r: string)
    ensures r == "" <==> forall i :: 0 <= i < |candidates| ==> !Filled(candidates[i])
    ensures r != "" ==> exists i :: 0 <= i < |candidates| && candidates[i] == Some(r)
                                    && forall j :: 0 <= j < i ==> !Filled(candidates[j])
    decreases |candidates|
  {
    if candidates == [] then ""
    else if Filled(candidates[0]) then candidates[0].value
    else
      var r := FirstFilled(candidates[1..]);
      assert forall i :: 1 <= i < |candidates| ==> candidates[i] == candidates[1..][i - 1];
      r
  }

  /** `_extract_author_name`: display name, else short name, else account id,
      else the empty string; the email address is never used. */
  function ExtractAuthorName(w: Worklog): (r: string)
    ensures Filled(AuthorOf(w).displayName) ==> r == AuthorOf(w).displayName.value
    ensures !Filled(AuthorOf(w).displayName) && Filled(AuthorOf(w).name) ==> r == AuthorOf(w).name.value
    ensures !Filled(AuthorOf(w).displayName) && !Filled(AuthorOf(w).name) ==>
              r == (if Filled(AuthorOf(w).accountId) then AuthorOf(w).accountId.value else "")
  {
    var a := AuthorOf(w);
    var r := FirstFilled([a.displayName, a.name, a.accountId]);
    assert [a.displayName, a.name, a.accountId][1..] == [a.name, a.accountId];
    assert [a.name, a.accountId][1..] == [a.accountId];
    assert [a.accountId][1..] == [];
    assert !Filled(a.displayName) ==> r == FirstFilled([a.name, a.accountId]);
    assert !Filled(a.name) ==> FirstFilled([a.name, a.accountId]) == FirstFilled([a.accountId]);
    assert FirstFilled([a.accountId]) == if Filled(a.accountId) then a.accountId.value else "";
    r
  }

  /** `int(worklog.get("timeSpentSeconds", 0))` for a numeric field. */
  function SecondsOf(w: Worklog): (r: int)
    ensures w.timeSpentSeconds.None? ==> r == 0
    ensures w.timeSpentSeconds.Some? ==> r == w.timeSpentSeconds.value
  {
    match w.timeSpentSeconds
    case None => 0
    case Some(n) => n
  }
}
