/** Login against the credentials sheet: the records are the sheet's rows
    keyed by column name, and a login succeeds when one row carries the typed
    user id in column `id` and the typed password in column `pw`. */
module Auth {

  /** A cell as the sheet library hands it over: text, or a number when the
      cell holds one. */
  datatype Cell = Text(s: string) | Number(n: int)

  /** One sheet row: column name to cell. */
  type Record = map<string, Cell>

  datatype LoginOutcome = MissingInput | Rejected | Accepted

  /** `data[column] == text` for one row: the cell exists and is that text. A
      number cell never equals a text. */
  predicate CellIs(r: Record, column: string, text: string) {
    column in r && r[column] == Text(text)
  }

  predicate RecordMatches(r: Record, user: string, password: string) {
    CellIs(r, "id", user) && CellIs(r, "pw", password)
  }

  /** The table has the column when some row has it. */
  predicate HasColumn(records: seq<Record>, column: string) {
    exists i :: 0 <= i < |records| && column in records[i]
  }

  /** The rows kept by the filter on both columns, in table order. */
  function MatchingRows(records: seq<Record>, user: string, password: string): (rows: seq<Record>)
    ensures |rows| <= |records|
    ensures forall k :: 0 <= k < |rows| ==> RecordMatches(rows[k], user, password)
    ensures |rows| > 0 <==> exists i :: 0 <= i < |records| && RecordMatches(records[i], user, password)
  {
    if |records| == 0 then []
    else
      var rest := MatchingRows(records[1..], user, password);
      assert forall i :: 1 <= i < |records| ==> records[1..][i - 1] == records[i];
      if RecordMatches(records[0], user, password) then [records[0]] + rest else rest
  }

  /** The credential check: an empty table fails; a missing `id` or `pw`
      column makes the lookup raise, which is reported and fails; otherwise
      the login succeeds when some row matches both columns. */
  function CheckCredentials(records: seq<Record>, user: string, password: string): (ok: bool)
    ensures |records| == 0 ==> !ok
    ensures ok <==> exists i :: 0 <= i < |records| && RecordMatches(records[i], user, password)
  {
    if |records| == 0 then false
    else if !HasColumn(records, "id") || !HasColumn(records, "pw") then false
    else |MatchingRows(records, user, password)| > 0
  }

  /** Submitting the login form: an empty user id or password is turned away
      before the sheet is consulted. */
  function SubmitLogin(records: seq<Record>, user: string, password: string): (out: LoginOutcome)
    ensures out == MissingInput <==> |user| == 0 || |password| == 0
    ensures out == Accepted <==>
      |user| > 0 && |password| > 0 && exists i :: 0 <= i < |records| && RecordMatches(records[i], user, password)
  {
    if |user| == 0 || |password| == 0 then MissingInput
    else if CheckCredentials(records, user, password) then Accepted
    else Rejected
  }

  /** An accepted login names a row of the sheet whose `id` is the user. */
  lemma AcceptedUserIsListed(records: seq<Record>, user: string, password: string)
    requires SubmitLogin(records, user, password) == Accepted
    ensures exists i :: 0 <= i < |records| && "id" in records[i] && records[i]["id"] == Text(user)
  {
    var i :| 0 <= i < |records| && RecordMatches(records[i], user, password);
  }

  /** A row whose password cell the library read as a number never matches
      any typed password. */
  lemma NumericPasswordNeverMatches(r: Record, user: string, password: string)
    requires "pw" in r && r["pw"].Number?
    ensures !RecordMatches(r, user, password)
  {
  }

  /** Adding rows to the sheet never takes a login away. */
  lemma {:induction false} MoreRecordsKeepAccess(records: seq<Record>, more: seq<Record>, user: string, password: string)
    requires CheckCredentials(records, user, password)
    ensures CheckCredentials(records + more, user, password)
  {
    var i :| 0 <= i < |records| && RecordMatches(records[i], user, password);
    assert (records + more)[i] == records[i];
  }
}
