/**
 * The collaborators the handlers write to, held in memory: the `users` and
 * `messages` tables of the PostgreSQL database and the R2 bucket. Each
 * method is proved against the statement semantics of module Schema.
 */
module Tables {
  import opened Common
  import opened Schema
  import SequenceReset

  class UsersTable {
    var rows: seq<User>
    var idSeq: SerialSequence

    function State(): UsersState
      reads this
    {
      UsersState(rows, idSeq)
    }

    ghost predicate Valid()
      reads this
    {
      UsersStateValid(State())
    }

    /** A table as `CREATE TABLE` leaves it: no rows, the sequence at its start. */
    constructor ()
      ensures Valid() && rows == [] && idSeq == FreshSequence
    {
      rows := [];
      idSeq := FreshSequence;
    }

    /** A table that already holds rows, some possibly inserted with explicit ids. */
    constructor Restore(existing: seq<User>, sequence: SerialSequence)
      requires UsersInvariant(existing) && SequenceInRange(sequence)
      ensures Valid() && rows == existing && idSeq == sequence
    {
      rows := existing;
      idSeq := sequence;
    }

    /** `db.insert(users).values({name, email, thumbnail}).returning()`. */
    method Insert(reachable: bool, name: string, email: string, thumbnail: Option<string>)
      returns (r: Result<User, DbError>)
      requires Valid()
      modifies this
      ensures Valid()
      ensures (r, State()) == InsertUser(old(State()), reachable, name, email, thumbnail)
    {
      if !reachable {
        return Err(Unavailable);
      }
      if !StorableUser(name, email, thumbnail) {
        return Err(InvalidText);
      }
      if !EmailFits(email) {
        return Err(ValueTooLong("email"));
      }
      var drawn := NextVal(idSeq);
      if drawn.Err? {
        return Err(drawn.error);
      }
      var id := drawn.value.0;
      idSeq := drawn.value.1;
      if id in UserIds(rows) {
        return Err(UniqueViolation("users_pkey"));
      }
      var stored := StoredEmail(email);
      if stored in Emails(rows) {
        return Err(UniqueViolation("users_email_unique"));
      }
      var u := User(id, name, stored, thumbnail);
      AppendUserKeepsInvariant(rows, u);
      rows := rows + [u];
      r := Ok(u);
    }

    /** `db.select().from(users)`: every row, in storage order, when the database answers. */
    method SelectAll(reachable: bool) returns (r: Result<seq<User>, DbError>)
      ensures r.Ok? <==> reachable
      ensures r.Ok? ==> r.value == rows
      ensures r.Err? ==> r.error == Unavailable
    {
      if !reachable {
        return Err(Unavailable);
      }
      r := Ok(rows);
    }

    /**
     * `resetSequences`: `setval('users_id_seq', COALESCE(MAX(id), 0), true)`.
     * Only the sequence may change; on success the next id exceeds every id
     * in the table, on failure (no database, or an empty table) nothing changes.
     */
    method ResetSequences(reachable: bool) returns (r: Result<int, DbError>)
      requires Valid()
      modifies this`idSeq
      ensures Valid() && rows == old(rows)
      ensures r.Ok? <==> reachable && SequenceReset.ResetUsersSequence(rows, old(idSeq)).Ok?
      ensures r.Ok? ==>
        r.value == SequenceReset.MaxIdOrZero(rows) &&
        idSeq == SerialSequence(r.value, true) &&
        SequenceAhead(State())
      ensures r.Err? ==> idSeq == old(idSeq)
      ensures r.Err? ==>
        r.error == if reachable then SequenceOutOfBounds(SequenceReset.MaxIdOrZero(rows)) else Unavailable
    {
      if !reachable {
        return Err(Unavailable);
      }
      var target := SequenceReset.MaxIdOrZero(rows);
      var result := SetVal(idSeq, target, true);
      if result.Err? {
        return Err(result.error);
      }
      idSeq := result.value;
      SequenceReset.ResetPutsSequenceAhead(rows, old(idSeq));
      r := Ok(target);
    }
  }

  class MessagesTable {
    var rows: seq<Message>

    ghost predicate Valid()
      reads this
    {
      MessagesInvariant(rows)
    }

    constructor ()
      ensures Valid() && rows == []
    {
      rows := [];
    }

    constructor Restore(existing: seq<Message>)
      requires MessagesInvariant(existing)
      ensures Valid() && rows == existing
    {
      rows := existing;
    }

    /** `db.insert(messages).values({id, original_message, transformed_message}).returning()`. */
    method Insert(reachable: bool, m: NewMessage, now: nat) returns (r: Result<Message, DbError>)
      requires Valid()
      modifies this
      ensures Valid()
      ensures (r, rows) == InsertMessage(old(rows), reachable, m, now)
    {
      if !reachable {
        return Err(Unavailable);
      }
      if !StorableMessage(m) {
        return Err(InvalidText);
      }
      if m.id in MessageIds(rows) {
        return Err(UniqueViolation("messages_pkey"));
      }
      var row := Message(m.id, m.originalMessage, m.transformedMessage, m.createdAt.GetOr(now));
      rows := rows + [row];
      r := Ok(row);
    }

    /** `db.select().from(messages)`: every row, in storage order, when the database answers. */
    method SelectAll(reachable: bool) returns (r: Result<seq<Message>, DbError>)
      ensures r.Ok? <==> reachable
      ensures r.Ok? ==> r.value == rows
      ensures r.Err? ==> r.error == Unavailable
    {
      if !reachable {
        return Err(Unavailable);
      }
      r := Ok(rows);
    }

    /** `db.select().from(messages).where(eq(messages.id, id)).limit(1)`. */
    method SelectById(reachable: bool, id: string) returns (r: Result<seq<Message>, DbError>)
      ensures r.Ok? <==> reachable && StorableText(id)
      ensures r.Err? ==> r.error == if reachable then InvalidText else Unavailable
      ensures r.Ok? ==> |r.value| <= 1
      ensures r.Ok? ==> (|r.value| == 0 <==> id !in MessageIds(rows))
      ensures r.Ok? && |r.value| == 1 ==> r.value[0].id == id && Some(r.value[0]) == SelectMessageById(rows, id)
    {
      if !reachable {
        return Err(Unavailable);
      }
      if !StorableText(id) {
        return Err(InvalidText);
      }
      var first := SelectMessageById(rows, id);
      r := Ok(if first.Some? then [first.value] else []);
    }
  }

  /** An uploaded form file: its name and its bytes. */
  datatype File = File(name: string, content: seq<bv8>)

  /** The body given to `put`: a file, or a plain string. */
  datatype Body = FileBody(file: File) | TextBody(text: string)

  /** The R2 bucket: objects by key. */
  class Bucket {
    var objects: map<string, Body>

    constructor ()
      ensures objects == map[]
    {
      objects := map[];
    }

    /** `put(key, body)` stores the body under the key, replacing any earlier one. */
    method Put(key: string, body: Body)
      modifies this
      ensures objects == old(objects)[key := body]
    {
      objects := objects[key := body];
    }
  }
}
