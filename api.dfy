/**
 * The route handlers of src/index.ts. Each handler receives its
 * collaborators (the tables, the bucket) as parameters, and the clock, the
 * random suffix, the inference reply and whether the database can be
 * reached as inputs.
 */
module Api {
  import opened Common
  import opened Schema
  import opened Tables
  import Radix
  import UniqueId
  import Reply

  // ---------------------------------------------------------------------
  // POST /api/ai and POST /api/ai/inverse
  // ---------------------------------------------------------------------

  /** The two transform routes; they differ only in the system prompt. */
  datatype Mode = Polite | Plain

  /** The JSON body `{original, transformed, id[, error]}`. */
  datatype TransformResponse = TransformResponse(original: string, transformed: string, id: string, error: Option<string>)

  const SaveFailed: string := "Failed to save message to database"

  /**
   * The answer once the insert has run: the saved row's id on success;
   * the generated id and an `error` field when the insert threw.
   */
  function RespondToTransform(message: string, transformed: string, messageId: string, saved: Result<Message, DbError>)
    : (resp: TransformResponse)
    ensures resp.original == message && resp.transformed == transformed
    ensures resp.error.None? <==> saved.Ok?
    ensures saved.Ok? ==> resp.id == saved.value.id
    ensures saved.Err? ==> resp.id == messageId && resp.error == Some(SaveFailed)
  {
    match saved
    case Ok(row) => TransformResponse(message, transformed, row.id, None)
    case Err(_) => TransformResponse(message, transformed, messageId, Some(SaveFailed))
  }

  /** Whatever the insert does, the response carries the generated id. */
  lemma ResponseIdIsGeneratedId(
    rows: seq<Message>, reachable: bool, message: string, transformed: string, messageId: string, now: nat)
    ensures var saved := InsertMessage(rows, reachable, NewMessage(messageId, message, transformed, None), now).0;
      RespondToTransform(message, transformed, messageId, saved).id == messageId
  {
  }

  /**
   * One transform request. The reply of `AI.run` is an input (the call
   * itself, and the prompt that `mode` selects, are outside the model);
   * `now` is Date.now() when the id is made, `randomPart` the random
   * suffix, `dbNow` the database clock for `created_at`.
   */
  method Transform(
    table: MessagesTable, mode: Mode, message: string, reply: Reply.AiReply,
    now: nat, randomPart: string, dbNow: nat, reachable: bool)
    returns (resp: TransformResponse)
    requires table.Valid()
    modifies table
    ensures table.Valid()
    ensures resp.original == message
    ensures resp.transformed == Reply.Normalize(reply)
    ensures resp.id == UniqueId.GenerateUniqueId(now, randomPart)
    ensures resp.error.None? <==>
      && reachable
      && StorableText(resp.id) && StorableText(message) && StorableText(resp.transformed)
      && resp.id !in MessageIds(old(table.rows))
    ensures resp.error.None? ==>
      table.rows == old(table.rows) + [Message(resp.id, message, resp.transformed, dbNow)]
    ensures resp.error.Some? ==> resp.error == Some(SaveFailed) && table.rows == old(table.rows)
  {
    var transformed := "";
    if reply.Structured? {
      // aiResponse.response || ""
      transformed := if reply.response.Some? && reply.response.value != "" then reply.response.value else "";
    } else {
      // String(aiResponse)
      transformed := if reply.Null? then "null" else Reply.PrimitiveToString(reply.value);
    }
    var messageId := UniqueId.GenerateUniqueId(now, randomPart);
    var saved := table.Insert(reachable, NewMessage(messageId, message, transformed, None), dbNow);
    resp := RespondToTransform(message, transformed, messageId, saved);
  }

  // ---------------------------------------------------------------------
  // GET /api/messages and GET /api/messages/:id
  // ---------------------------------------------------------------------

  /**
   * The answer of GET /api/messages/:id. `Failed` is a query that threw:
   * the route does not catch it, so the framework answers with status 500.
   */
  datatype MessageLookup = Found(row: Message) | NotFound(error: string) | Failed(cause: DbError)

  const MessageNotFound: string := "Message not found"

  function LookupStatus(r: MessageLookup): int {
    match r
    case Found(_) => 200
    case NotFound(_) => 404
    case Failed(_) => 500
  }

  /**
   * GET /api/messages: every row, or the uncaught query error (status 500)
   * when the database cannot be reached.
   */
  method ListMessages(table: MessagesTable, reachable: bool) returns (r: Result<seq<Message>, DbError>)
    ensures r.Ok? <==> reachable
    ensures r.Ok? ==> r.value == table.rows
    ensures r.Err? ==> r.error == Unavailable
  {
    r := table.SelectAll(reachable);
  }

  /**
   * The first stored row with the id, 404 `{error: "Message not found"}`,
   * or 500 when the query throws.
   */
  method GetMessage(table: MessagesTable, reachable: bool, id: string) returns (resp: MessageLookup)
    ensures resp.Failed? <==> !reachable || !StorableText(id)
    ensures resp.Failed? ==> resp.cause == if reachable then InvalidText else Unavailable
    ensures resp.NotFound? <==> reachable && StorableText(id) && id !in MessageIds(table.rows)
    ensures LookupStatus(resp) == 404 <==> resp.NotFound?
    ensures LookupStatus(resp) == 500 <==> resp.Failed?
    ensures resp.NotFound? ==> resp.error == MessageNotFound
    ensures resp.Found? ==> resp.row.id == id && SelectMessageById(table.rows, id) == Some(resp.row)
  {
    var found := table.SelectById(reachable, id);
    if found.Err? {
      return Failed(found.error);
    }
    if |found.value| == 0 {
      return NotFound(MessageNotFound);
    }
    resp := Found(found.value[0]);
  }

  /**
   * Write, then read: on a reachable database, with NUL-free text and a
   * base-36 random suffix, the row a transform stores
   * is what GET /api/messages/:id returns for the id it answered with.
   */
  method TransformThenFetch(
    table: MessagesTable, message: string, reply: Reply.AiReply, now: nat, randomPart: string, dbNow: nat)
    returns (created: TransformResponse, fetched: MessageLookup)
    requires table.Valid()
    requires UniqueId.IsRandomSuffix(randomPart)
    requires StorableText(message) && StorableText(Reply.Normalize(reply))
    requires UniqueId.GenerateUniqueId(now, randomPart) !in MessageIds(table.rows)
    modifies table
    ensures created.error.None?
    ensures fetched == Found(Message(created.id, message, Reply.Normalize(reply), dbNow))
  {
    UniqueId.IdAlphabet(now, randomPart, UniqueId.DefaultLength);
    created := Transform(table, Polite, message, reply, now, randomPart, dbNow, true);
    SelectFindsStoredRow(table.rows, |table.rows| - 1);
    fetched := GetMessage(table, true, created.id);
  }

  // ---------------------------------------------------------------------
  // GET /api/users and POST /api/user
  // ---------------------------------------------------------------------

  /** A multipart form field as `formData.get` returns it. */
  datatype FormValue = Absent | Text(text: string) | Upload(file: File)

  /** The value is truthy: present, and not the empty string. */
  predicate Truthy(v: FormValue) {
    v.Upload? || (v.Text? && v.text != "")
  }

  /** `value.toString()`. */
  function FormText(v: FormValue): (s: string)
    requires !v.Absent?
    ensures v.Text? ==> s == v.text
    ensures v.Upload? ==> s == "[object File]"
  {
    if v.Text? then v.text else "[object File]"
  }

  /** `(profile as File).name`: a plain text field has no name and prints as "undefined". */
  function UploadName(v: FormValue): (name: string)
    requires !v.Absent?
    ensures v.Upload? ==> name == v.file.name
    ensures v.Text? ==> name == "undefined"
  {
    if v.Upload? then v.file.name else "undefined"
  }

  function UploadBody(v: FormValue): Body
    requires !v.Absent?
  {
    if v.Upload? then FileBody(v.file) else TextBody(v.text)
  }

  const ProfilePicsPrefix: string := "profile-pics/"

  /** `"profile-pics/" + `${Date.now()}-${profile.name}``. */
  function StorageKey(now: nat, filename: string): (key: string)
    ensures ProfilePicsPrefix <= key
    ensures |key| == |ProfilePicsPrefix| + |Radix.ToRadixString(now, 10)| + 1 + |filename|
    ensures key[|key| - |filename|..] == filename
    ensures key[|key| - |filename| - 1] == '-'
  {
    ProfilePicsPrefix + Radix.ToRadixString(now, 10) + "-" + filename
  }

  /** Splits a storage key back into the upload time and the file name. */
  function ParseStorageKey(key: string): Option<(nat, string)> {
    if |key| < |ProfilePicsPrefix| || key[..|ProfilePicsPrefix|] != ProfilePicsPrefix then None
    else
      var rest := key[|ProfilePicsPrefix|..];
      match IndexOf(rest, '-')
      case None => None
      case Some(i) =>
        if Radix.Canonical(rest[..i], 10) then Some((Radix.Value(rest[..i], 10), rest[i + 1..])) else None
  }

  lemma {:induction false} StorageKeyRoundTrip(now: nat, filename: string)
    ensures ParseStorageKey(StorageKey(now, filename)) == Some((now, filename))
  {
    var digits := Radix.ToRadixString(now, 10);
    var rest := digits + "-" + filename;
    var key := StorageKey(now, filename);
    assert key == ProfilePicsPrefix + rest;
    assert key[..|ProfilePicsPrefix|] == ProfilePicsPrefix;
    assert key[|ProfilePicsPrefix|..] == rest;
    DashAfterDigits(digits, filename);
    Radix.ValueOfToRadixString(now, 10);
  }

  /** In `digits + "-" + tail`, the first '-' is the one after the digits. */
  lemma DashAfterDigits(digits: string, tail: string)
    requires Radix.Canonical(digits, 10)
    ensures var rest := digits + "-" + tail;
      IndexOf(rest, '-') == Some(|digits|) && rest[..|digits|] == digits && rest[|digits| + 1..] == tail
  {
    var rest := digits + "-" + tail;
    assert forall k | 0 <= k < |digits| :: Radix.IsLowerAlnum(digits[k]);
    assert '-' !in digits;
    assert rest[..|digits|] == digits;
    assert rest[|digits|] == '-';
  }

  /**
   * Two uploads share a key only when they have the same millisecond and
   * the same file name; then the later `put` replaces the earlier blob.
   */
  lemma StorageKeyInjective(now1: nat, filename1: string, now2: nat, filename2: string)
    requires StorageKey(now1, filename1) == StorageKey(now2, filename2)
    ensures now1 == now2 && filename1 == filename2
  {
    StorageKeyRoundTrip(now1, filename1);
    StorageKeyRoundTrip(now2, filename2);
  }

  datatype RegisterResponse =
    | Created(user: User)
    | BadRequest(error: string)
    | ServerError(error: string)

  function RegisterStatus(r: RegisterResponse): int {
    match r
    case Created(_) => 200
    case BadRequest(_) => 400
    case ServerError(_) => 500
  }

  const MissingFields: string := "Name and email are required"
  const CreateFailed: string := "Failed to create user"

  /**
   * GET /api/users: every row, or the uncaught query error (status 500)
   * when the database cannot be reached.
   */
  method ListUsers(users: UsersTable, reachable: bool) returns (r: Result<seq<User>, DbError>)
    ensures r.Ok? <==> reachable
    ensures r.Ok? ==> r.value == users.rows
    ensures r.Err? ==> r.error == Unavailable
  {
    r := users.SelectAll(reachable);
  }

  /**
   * POST /api/user. A missing or empty `name` or `email` is refused before
   * anything is written. Otherwise the upload is stored first and the row
   * inserted second; a failed insert leaves the stored blob behind.
   */
  method Register(
    users: UsersTable, bucket: Bucket, name: FormValue, email: FormValue, profile: FormValue,
    now: nat, reachable: bool)
    returns (resp: RegisterResponse)
    requires users.Valid()
    requires Truthy(name) && Truthy(email) ==> !profile.Absent?
    modifies users, bucket
    ensures users.Valid()
    ensures !(Truthy(name) && Truthy(email)) ==>
      resp == BadRequest(MissingFields) &&
      users.State() == old(users.State()) && bucket.objects == old(bucket.objects)
    ensures Truthy(name) && Truthy(email) ==>
      var key := StorageKey(now, UploadName(profile));
      var out := InsertUser(old(users.State()), reachable, FormText(name), FormText(email), Some(key));
      && bucket.objects == old(bucket.objects)[key := UploadBody(profile)]
      && users.State() == out.1
      && resp == (if out.0.Ok? then Created(out.0.value) else ServerError(CreateFailed))
    ensures resp.Created? ==>
      resp.user.thumbnail.Some? && resp.user.thumbnail.value in bucket.objects &&
      users.rows == old(users.rows) + [resp.user]
    ensures resp.ServerError? ==> users.rows == old(users.rows) && StorageKey(now, UploadName(profile)) in bucket.objects
  {
    if !Truthy(name) || !Truthy(email) {
      return BadRequest(MissingFields);
    }
    var uniqueFilename := Radix.ToRadixString(now, 10) + "-" + UploadName(profile);
    var key := ProfilePicsPrefix + uniqueFilename;
    assert key == StorageKey(now, UploadName(profile));
    bucket.Put(key, UploadBody(profile));
    var inserted := users.Insert(reachable, FormText(name), FormText(email), Some(key));
    if inserted.Ok? {
      resp := Created(inserted.value);
    } else {
      resp := ServerError(CreateFailed);
    }
  }

  /**
   * Registering an email that is already taken fails with 500, leaves the
   * number of users as it was, and leaves the uploaded blob in the bucket.
   */
  method RegisterTakenEmail(existing: User, name: string, upload: File, now: nat)
    returns (resp: RegisterResponse, usersBefore: nat, usersAfter: nat, orphaned: bool)
    requires ValidUser(existing) && existing.email != "" && name != ""
    ensures resp == ServerError(CreateFailed) && RegisterStatus(resp) == 500
    ensures usersAfter == usersBefore == 1
    ensures orphaned
  {
    var users := new UsersTable.Restore([existing], FreshSequence);
    var bucket := new Bucket();
    usersBefore := |users.rows|;
    DuplicateEmailRejected(users.State(), true, name, existing.email, Some(StorageKey(now, upload.name)));
    resp := Register(users, bucket, Text(name), Text(existing.email), Upload(upload), now, true);
    usersAfter := |users.rows|;
    orphaned := StorageKey(now, upload.name) in bucket.objects;
  }
}
