/**
 * src/utils/resetSequences.ts: move `users_id_seq` to the largest user id,
 * so that the next serial id is above every id already in the table.
 */
module SequenceReset {
  import opened Common
  import opened Schema

  /** `SELECT COALESCE(MAX(id), 0) FROM users`. */
  function MaxIdOrZero(rows: seq<User>): (m: int)
    ensures rows == [] ==> m == 0
    ensures rows != [] ==> m in UserIds(rows)
    ensures forall u | u in rows :: u.id <= m
  {
    if rows == [] then 0
    else if |rows| == 1 then rows[0].id
    else Max(rows[0].id, MaxIdOrZero(rows[1..]))
  }

  /**
   * `setval('users_id_seq', (SELECT COALESCE(MAX(id), 0) FROM users), true)`:
   * the new sequence state, or the error PostgreSQL raises when that value
   * is outside the sequence's bounds.
   */
  function ResetUsersSequence(rows: seq<User>, s: SerialSequence): (r: Result<SerialSequence, DbError>)
    ensures UsersInvariant(rows) ==> (r.Ok? <==> rows != [] && MaxIdOrZero(rows) >= SerialMin)
    ensures r.Ok? ==> r.value == SerialSequence(MaxIdOrZero(rows), true)
    ensures r.Err? ==> r == Err(SequenceOutOfBounds(MaxIdOrZero(rows)))
  {
    SetVal(s, MaxIdOrZero(rows), true)
  }

  /** After a successful reset the next id exceeds every existing id. */
  lemma ResetPutsSequenceAhead(rows: seq<User>, s: SerialSequence)
    requires ResetUsersSequence(rows, s).Ok?
    ensures var s' := ResetUsersSequence(rows, s).value;
      PeekNext(s') == MaxIdOrZero(rows) + 1 && SequenceAhead(UsersState(rows, s'))
  {
  }

  /** Resetting again changes nothing. */
  lemma ResetIdempotent(rows: seq<User>, s: SerialSequence)
    requires ResetUsersSequence(rows, s).Ok?
    ensures ResetUsersSequence(rows, ResetUsersSequence(rows, s).value) == ResetUsersSequence(rows, s)
  {
  }

  /** On an empty table the statement asks for setval(0), which PostgreSQL refuses. */
  lemma ResetFailsOnEmptyTable(s: SerialSequence)
    ensures ResetUsersSequence([], s) == Err(SequenceOutOfBounds(0))
  {
  }

  /**
   * After a successful reset, a registration with a new email that fits the column
   * and NUL-free text is stored under an id that no existing row has, when the sequence is
   * not exhausted.
   */
  lemma InsertAfterResetSucceeds(
    rows: seq<User>, s: SerialSequence, name: string, email: string, thumbnail: Option<string>)
    requires UsersInvariant(rows)
    requires ResetUsersSequence(rows, s).Ok?
    requires MaxIdOrZero(rows) < SerialMax
    requires EmailFits(email) && StoredEmail(email) !in Emails(rows)
    requires StorableUser(name, email, thumbnail)
    ensures var st := UsersState(rows, ResetUsersSequence(rows, s).value);
      var out := InsertUser(st, true, name, email, thumbnail);
      out.0.Ok? && out.0.value.id == MaxIdOrZero(rows) + 1 && out.0.value.id !in UserIds(rows)
  {
  }

  /**
   * The evidently intended statement,
   * `setval('users_id_seq', COALESCE(MAX(id), 0) + 1, false)`, which also
   * works on an empty table.
   */
  function CorrectedResetUsersSequence(rows: seq<User>, s: SerialSequence): (r: Result<SerialSequence, DbError>)
    ensures r.Ok? <==> SerialMin <= MaxIdOrZero(rows) + 1 <= SerialMax
    ensures r.Ok? ==> PeekNext(r.value) == MaxIdOrZero(rows) + 1 && SequenceAhead(UsersState(rows, r.value))
  {
    SetVal(s, MaxIdOrZero(rows) + 1, false)
  }

  /** On an empty table the corrected statement restarts the numbering at 1. */
  lemma CorrectedResetOnEmptyTable(s: SerialSequence)
    ensures CorrectedResetUsersSequence([], s) == Ok(FreshSequence)
  {
  }

  /** Wherever the original statement succeeds, the corrected one hands out the same next id. */
  lemma CorrectedResetAgrees(rows: seq<User>, s: SerialSequence)
    requires ResetUsersSequence(rows, s).Ok?
    requires MaxIdOrZero(rows) < SerialMax
    ensures CorrectedResetUsersSequence(rows, s).Ok?
    ensures PeekNext(CorrectedResetUsersSequence(rows, s).value) == PeekNext(ResetUsersSequence(rows, s).value)
  {
  }
}
