/**
 * The two tables of src/db/schema.ts, read as row types and the constraints
 * PostgreSQL enforces on them, together with the `serial` sequence that
 * numbers users and the effect of an INSERT under those constraints.
 */
module Schema {
  import opened Common

  /** The range of a PostgreSQL `integer`, the type behind `serial`. */
  const Int4Min: int := -0x8000_0000
  const Int4Max: int := 0x7fff_ffff

  /** A `serial` column's sequence runs from 1 to the largest `integer`. */
  const SerialMin: int := 1
  const SerialMax: int := Int4Max

  /** `varchar('email', { length: 255 })`. */
  const EmailMaxLength: nat := 255

  /**
   * Assigning a longer value to a varchar(255) column is refused unless every
   * character past the limit is a space; those are cut off silently.
   */
  predicate EmailFits(email: string) {
    forall k | EmailMaxLength <= k < |email| :: email[k] == ' '
  }

  /** The value the column holds once the trailing spaces past the limit are cut. */
  function StoredEmail(email: string): (stored: string)
    ensures stored <= email
    ensures |stored| == Min(|email|, EmailMaxLength)
    ensures EmailFits(email) ==> email == stored + email[|stored|..]
  {
    if |email| <= EmailMaxLength then email else email[..EmailMaxLength]
  }

  /** Why the database refused a statement. */
  datatype DbError =
    | Unavailable                        // the connection or the query failed before reaching a table
    | UniqueViolation(constraint: string)
    | ValueTooLong(column: string)
    | SequenceOutOfBounds(value: int)    // setval outside [SerialMin, SerialMax]
    | SequenceExhausted                  // nextval past SerialMax
    | InvalidText                        // a text parameter holds U+0000, which UTF-8 text columns refuse

  /**
   * PostgreSQL text and varchar values cannot hold the NUL character; a
   * parameter containing one is refused when the statement's parameters are
   * bound, before the statement runs.
   */
  predicate StorableText(s: string) {
    '\0' !in s
  }

  predicate StorableUser(name: string, email: string, thumbnail: Option<string>) {
    StorableText(name) && StorableText(email) && (thumbnail.Some? ==> StorableText(thumbnail.value))
  }

  predicate StorableMessage(m: NewMessage) {
    StorableText(m.id) && StorableText(m.originalMessage) && StorableText(m.transformedMessage)
  }

  /** A row of `users`; `name` and `email` are NOT NULL, `thumbnail` may be NULL. */
  datatype User = User(id: int, name: string, email: string, thumbnail: Option<string>)

  /**
   * A row of `messages`; every column is NOT NULL. `createdAt` is the
   * insertion time in milliseconds.
   */
  datatype Message = Message(id: string, originalMessage: string, transformedMessage: string, createdAt: nat)

  /** The values an INSERT into `messages` supplies; `createdAt` may be left to its default. */
  datatype NewMessage = NewMessage(id: string, originalMessage: string, transformedMessage: string, createdAt: Option<nat>)

  function UserIds(rows: seq<User>): set<int> {
    set u | u in rows :: u.id
  }

  function Emails(rows: seq<User>): set<string> {
    set u | u in rows :: u.email
  }

  function MessageIds(rows: seq<Message>): set<string> {
    set m | m in rows :: m.id
  }

  predicate ValidUser(u: User) {
    Int4Min <= u.id <= Int4Max && |u.email| <= EmailMaxLength
  }

  /** `id` is a primary key, `email` is unique and fits varchar(255). */
  predicate UsersInvariant(rows: seq<User>) {
    && (forall i | 0 <= i < |rows| :: ValidUser(rows[i]))
    && (forall i, j | 0 <= i < j < |rows| :: rows[i].id != rows[j].id && rows[i].email != rows[j].email)
  }

  /** `id` is the primary key of `messages`. */
  predicate MessagesInvariant(rows: seq<Message>) {
    forall i, j | 0 <= i < j < |rows| :: rows[i].id != rows[j].id
  }

  /**
   * The state of `users_id_seq`: PostgreSQL's `last_value` and `is_called`.
   * A new sequence has last_value 1 and is_called false.
   */
  datatype SerialSequence = SerialSequence(lastValue: int, isCalled: bool)

  const FreshSequence: SerialSequence := SerialSequence(SerialMin, false)

  predicate SequenceInRange(s: SerialSequence) {
    SerialMin <= s.lastValue <= SerialMax
  }

  /** The value the next `nextval` hands out (if it is within range). */
  function PeekNext(s: SerialSequence): int {
    if s.isCalled then s.lastValue + 1 else s.lastValue
  }

  /** `nextval(seq)`: the value handed out and the new state. */
  function NextVal(s: SerialSequence): (r: Result<(int, SerialSequence), DbError>)
    ensures r.Ok? <==> PeekNext(s) <= SerialMax
    ensures r.Ok? ==> r.value.0 == PeekNext(s) && r.value.1 == SerialSequence(r.value.0, true)
    ensures r.Ok? && SequenceInRange(s) ==> SequenceInRange(r.value.1) && r.value.0 >= SerialMin
    ensures r.Err? ==> r.error == SequenceExhausted
  {
    var v := PeekNext(s);
    if v > SerialMax then Err(SequenceExhausted) else Ok((v, SerialSequence(v, true)))
  }

  /** `setval(seq, v, isCalled)`: refused outside the sequence's bounds. */
  function SetVal(s: SerialSequence, v: int, isCalled: bool): (r: Result<SerialSequence, DbError>)
    ensures r.Ok? <==> SerialMin <= v <= SerialMax
    ensures r.Ok? ==> r.value == SerialSequence(v, isCalled) && SequenceInRange(r.value)
    ensures r.Ok? ==> PeekNext(r.value) == (if isCalled then v + 1 else v)
    ensures r.Err? ==> r.error == SequenceOutOfBounds(v)
  {
    if SerialMin <= v <= SerialMax then Ok(SerialSequence(v, isCalled)) else Err(SequenceOutOfBounds(v))
  }

  /** The `users` table together with its id sequence. */
  datatype UsersState = UsersState(rows: seq<User>, idSeq: SerialSequence)

  predicate UsersStateValid(st: UsersState) {
    UsersInvariant(st.rows) && SequenceInRange(st.idSeq)
  }

  /**
   * `INSERT INTO users (name, email, thumbnail) ... RETURNING *`. The
   * parameters are checked first: NUL characters when they are bound, the
   * varchar(255) coercion of the email (a function of the bound value alone)
   * when the statement is planned. The id then comes from `nextval`, which
   * runs before the unique constraints are checked and is not undone when
   * they fail, so an insert refused by a constraint still uses up a value.
   */
  function InsertUser(st: UsersState, reachable: bool, name: string, email: string, thumbnail: Option<string>)
    : (out: (Result<User, DbError>, UsersState))
    ensures out.0.Ok? <==>
      && reachable && StorableUser(name, email, thumbnail)
      && PeekNext(st.idSeq) <= SerialMax
      && EmailFits(email)
      && PeekNext(st.idSeq) !in UserIds(st.rows)
      && StoredEmail(email) !in Emails(st.rows)
    ensures out.0.Ok? ==>
      out.0.value == User(PeekNext(st.idSeq), name, StoredEmail(email), thumbnail) &&
      out.1.rows == st.rows + [out.0.value]
    ensures out.0.Err? ==> out.1.rows == st.rows
    ensures out.0.Err? && reachable && !StorableUser(name, email, thumbnail) ==> out.0.error == InvalidText
    ensures reachable && StorableUser(name, email, thumbnail) && !EmailFits(email) ==>
      out.0 == Err(ValueTooLong("email"))
    ensures out.1.idSeq ==
      if reachable && StorableUser(name, email, thumbnail) && EmailFits(email) && PeekNext(st.idSeq) <= SerialMax then SerialSequence(PeekNext(st.idSeq), true)
      else st.idSeq
    ensures UsersStateValid(st) ==> UsersStateValid(out.1)
  {
    if !reachable then (Err(Unavailable), st)
    else if !StorableUser(name, email, thumbnail) then (Err(InvalidText), st)
    else if !EmailFits(email) then (Err(ValueTooLong("email")), st)
    else match NextVal(st.idSeq)
      case Err(e) => (Err(e), st)
      case Ok((id, next)) =>
        var st' := st.(idSeq := next);
        if id in UserIds(st.rows) then (Err(UniqueViolation("users_pkey")), st')
        else if StoredEmail(email) in Emails(st.rows) then (Err(UniqueViolation("users_email_unique")), st')
        else
          var u := User(id, name, StoredEmail(email), thumbnail);
          var st'' := UsersState(st.rows + [u], next);
          assert UsersStateValid(st) ==> UsersStateValid(st'') by {
            if UsersStateValid(st) {
              AppendUserKeepsInvariant(st.rows, u);
            }
          }
          (Ok(u), st'')
  }

  lemma AppendUserKeepsInvariant(rows: seq<User>, u: User)
    requires UsersInvariant(rows) && ValidUser(u)
    requires u.id !in UserIds(rows) && u.email !in Emails(rows)
    ensures UsersInvariant(rows + [u])
  {
  }

  /**
   * An email already in the table, or one that equals a stored email once
   * its trailing spaces past the limit are cut, is refused and no row is added.
   */
  lemma DuplicateEmailRejected(st: UsersState, reachable: bool, name: string, email: string, thumbnail: Option<string>)
    requires UsersInvariant(st.rows)
    requires email in Emails(st.rows) || StoredEmail(email) in Emails(st.rows)
    ensures var out := InsertUser(st, reachable, name, email, thumbnail);
      out.0.Err? && out.1.rows == st.rows
  {
  }

  /** Every existing id is below the next value the sequence will hand out. */
  predicate SequenceAhead(st: UsersState) {
    forall u | u in st.rows :: u.id < PeekNext(st.idSeq)
  }

  /** Inserting through the sequence keeps it ahead of every id, whatever the outcome. */
  lemma InsertKeepsSequenceAhead(st: UsersState, reachable: bool, name: string, email: string, thumbnail: Option<string>)
    requires SequenceAhead(st)
    ensures SequenceAhead(InsertUser(st, reachable, name, email, thumbnail).1)
  {
  }

  /** While the sequence is ahead, an insert never collides with an existing id. */
  lemma SequenceAheadMeansFreshId(st: UsersState)
    requires SequenceAhead(st)
    ensures PeekNext(st.idSeq) !in UserIds(st.rows)
  {
  }

  /**
   * `INSERT INTO messages ... RETURNING *`: refused when the id is already
   * present; `created_at` defaults to the time of the insert.
   */
  function InsertMessage(rows: seq<Message>, reachable: bool, m: NewMessage, now: nat)
    : (out: (Result<Message, DbError>, seq<Message>))
    ensures out.0.Ok? <==> reachable && StorableMessage(m) && m.id !in MessageIds(rows)
    ensures out.0.Err? && reachable && !StorableMessage(m) ==> out.0.error == InvalidText
    ensures out.0.Ok? ==>
      out.0.value == Message(m.id, m.originalMessage, m.transformedMessage, m.createdAt.GetOr(now)) &&
      out.1 == rows + [out.0.value]
    ensures out.0.Ok? && m.createdAt.None? ==> out.0.value.createdAt == now
    ensures out.0.Err? ==> out.1 == rows
    ensures MessagesInvariant(rows) ==> MessagesInvariant(out.1)
  {
    if !reachable then (Err(Unavailable), rows)
    else if !StorableMessage(m) then (Err(InvalidText), rows)
    else if m.id in MessageIds(rows) then (Err(UniqueViolation("messages_pkey")), rows)
    else
      var row := Message(m.id, m.originalMessage, m.transformedMessage, m.createdAt.GetOr(now));
      assert forall i | 0 <= i < |rows| :: rows[i].id != row.id by {
        forall i | 0 <= i < |rows| ensures rows[i].id != row.id {
          assert rows[i] in rows;
        }
      }
      (Ok(row), rows + [row])
  }

  /** Position of the first row whose id is `id`. */
  function FindMessageIndex(rows: seq<Message>, id: string): (r: Option<nat>)
    ensures r.Some? ==>
      r.value < |rows| && rows[r.value].id == id &&
      forall j | 0 <= j < r.value :: rows[j].id != id
    ensures r.None? <==> id !in MessageIds(rows)
  {
    if rows == [] then None
    else if rows[0].id == id then Some(0)
    else match FindMessageIndex(rows[1..], id)
      case None => None
      case Some(i) => Some(i + 1)
  }

  /** `SELECT * FROM messages WHERE id = $1 LIMIT 1`: the first matching row. */
  function SelectMessageById(rows: seq<Message>, id: string): (r: Option<Message>)
    ensures r.Some? ==> r.value.id == id && r.value in rows
    ensures r.None? <==> id !in MessageIds(rows)
  {
    match FindMessageIndex(rows, id)
    case None => None
    case Some(i) => Some(rows[i])
  }

  /** With unique ids, looking up any stored row's id finds exactly that row. */
  lemma SelectFindsStoredRow(rows: seq<Message>, i: nat)
    requires MessagesInvariant(rows) && i < |rows|
    ensures SelectMessageById(rows, rows[i].id) == Some(rows[i])
  {
  }

  /** A message that was just stored reads back unchanged by its id. */
  lemma ReadAfterInsert(rows: seq<Message>, reachable: bool, m: NewMessage, now: nat)
    requires InsertMessage(rows, reachable, m, now).0.Ok?
    ensures var out := InsertMessage(rows, reachable, m, now);
      SelectMessageById(out.1, m.id) == Some(out.0.value)
  {
  }
}
