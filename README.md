# nicer-assistant: a verified model of the request core

nicer-assistant is a small Hono application. Its two transform routes
(`POST /api/ai`, which rewrites a blunt message politely, and
`POST /api/ai/inverse`, which rewrites corporate jargon plainly) send the
user's text to a hosted language model. They normalise the reply, store the
original/transformed pair in the `messages` table under a generated id, and
answer with `{original, transformed, id[, error]}`. `GET /api/messages` and
`GET /api/messages/:id` read that table back. `POST /api/user` uploads a
profile picture to an R2 bucket and inserts a row into the `users` table.
`resetSequences` sets the users id sequence to the largest stored id.

This project models that core in Dafny:

- `radix.dfy` (module `Radix`): `Number.prototype.toString(radix)` for
  non-negative integers (ECMA-262, section 21.1.3.6) in radix 36 (ids) and
  radix 10 (`String(n)`, template literals). It also holds the decoder, both
  round trips, and the digit-count law.
- `unique_id.dfy` (module `UniqueId`): `generateUniqueId`, with the JavaScript
  `slice` clamping. The clock and the random suffix are parameters.
- `reply.dfy` (module `Reply`): the model's reply as a sum type (an object
  with an optional `response` field, `null`, or a primitive), and the
  normalisation to one string.
- `schema.dfy` (module `Schema`): the `users` and `messages` row types, their
  constraints, and the `serial` sequence with PostgreSQL's `nextval`/`setval`
  semantics. It also gives the effect of each INSERT and of the
  `WHERE id = … LIMIT 1` select as functions.
- `reset_sequences.dfy` (module `SequenceReset`): the `setval` statement of
  `resetSequences` and its consequences, plus a corrected statement (see
  Findings).
- `tables.dfy` (module `Tables`): the database tables and the bucket as
  classes with `seq`/`map` fields. Each method is proved against the Schema
  functions.
- `api.dfy` (module `Api`): the route handlers as methods that receive the
  tables and the bucket as parameters.

Behaviour of the code that the model keeps as written:

- Ids are not purely alphanumeric. `generateUniqueId` puts `'-'` after the
  timestamp digits whenever they are shorter than the length
  (`UniqueId.SeparatorFollowsTimestamp`, `UniqueId.IdAlphabet`).
- A reply has three shapes, not two. `null` fails the `!== null` guard and
  becomes the text `"null"`, while an object without `response` becomes `""`.
- Message text is not validated: an empty message or an empty reply is
  stored as-is.
- An email longer than 255 characters is stored cut to 255 when everything
  past the limit is spaces, and refused otherwise; the refusal comes before
  an id is drawn.
- A duplicate-email registration leaves the row count unchanged, but the id
  sequence still advances: PostgreSQL draws `nextval` before it checks
  constraints and never rolls sequences back.
- Text containing the NUL character U+0000 cannot be stored: PostgreSQL
  refuses it while binding the statement's parameters, so such an insert
  fails like any other database error.

## Model

| member | source | states |
|---|---|---|
| `Radix.ToRadixString` | src/index.ts:11 | `toString(36)` of a non-negative integer: at least one digit, only `[0-9a-z]` digits of the radix, no leading zero except for 0 itself, and `"0"` exactly for 0 |
| `Radix.ValueOfToRadixString` | src/index.ts:11 | decoding the base-36 (or decimal) text of `n` gives back `n` |
| `Radix.ToRadixStringOfValue` | src/index.ts:11 | every canonical digit string is the text of its value: the encoding is onto the canonical strings |
| `Radix.ToRadixStringLength` | src/index.ts:11 | the text of `n` has exactly `k` digits when radix^(k-1) <= n < radix^k |
| `UniqueId.SliceTo` | src/index.ts:13 | `slice(0, end)` gives a prefix, `min(end, len)` long for `end >= 0` and `max(len + end, 0)` long for a negative `end` |
| `UniqueId.GenerateUniqueId` | src/index.ts:10-14 | the id is a prefix of `base36(now) + "-" + random`; for `length >= 0` it is never longer than `length` and exactly `min(length, full length)` long |
| `UniqueId.DefaultIdAtMostSixteen` | src/index.ts:10-13 | with the default length an id has at most 16 characters |
| `UniqueId.SeparatorFollowsTimestamp` | src/index.ts:11-13 | when the timestamp digits are shorter than `length`, the id starts with them and has `'-'` right after |
| `UniqueId.TimestampRoundTrip` | src/index.ts:11-13 | in that case the digits before the first `'-'` decode back to the creation time |
| `UniqueId.IdAlphabet` | src/index.ts:11-13 | with a random suffix of base-36 digits, every character is a base-36 digit except the one `'-'` right after the timestamp |
| `UniqueId.DefaultIdLayoutInCurrentEra` | src/index.ts:10-13 | from 36^7 to 36^8 ms (1972 to 2059) with an 8-digit suffix, the id is 16 characters: 8 timestamp digits, `'-'` at index 8, and the first 7 random digits |
| `Reply.PrimitiveToString` | src/index.ts:127 | `String(v)`: a string is unchanged, an integer of magnitude at most 2^53-1 becomes its decimal text (reading back as the number, with `'-'` for negatives), other primitives become non-empty text |
| `Reply.Normalize` | src/index.ts:121-128 | an object gives its `response`, `null` gives `"null"`, a primitive gives `String(value)`; the result is `""` exactly for an object without `response`, an object with an empty one, or the empty string |
| `Reply.NullIsNotEmptyObject` | src/index.ts:122-127 | `null` and an object without `response` normalise differently |
| `Reply.NumericReplyRoundTrip` | src/index.ts:127 | a non-negative safe-integer reply is stored as canonical decimal text that reads back as the number |
| `Schema.NextVal` | src/db/schema.ts:7 | `nextval` hands out `last_value + 1` (or `last_value` before the first call) and records it; past 2^31-1 it fails |
| `Schema.SetVal` | src/utils/resetSequences.ts:7 | `setval(v, is_called)` succeeds exactly when 1 <= v <= 2^31-1, then the next value is `v + 1` (or `v`); otherwise it reports `v` out of bounds |
| `Schema.UsersInvariant` | src/db/schema.ts:7-9 | the `users` constraints: every id is a 32-bit integer and no two rows share one (primary key), every email has at most 255 characters (`varchar(255)`), and no two rows share an email (`unique`) |
| `Schema.MessagesInvariant` | src/db/schema.ts:14 | the `messages` primary key: no two rows share a text id |
| `Schema.EmailFits` | src/db/schema.ts:9 | an email can be assigned to `varchar(255)` exactly when every character past the 255th is a space |
| `Schema.StoredEmail` | src/db/schema.ts:9 | the value `varchar(255)` keeps: the email itself when it fits, otherwise its first 255 characters, and then the rest is only the cut-off spaces |
| `Schema.InsertUser` | src/db/schema.ts:6-11 | a user insert succeeds iff the database is reachable, no text value contains NUL, the email fits 255 characters once trailing spaces past the limit are cut, the sequence has a value left, and neither the drawn id nor the stored email is taken; the row gets the sequence's id, not a caller's, and the cut email; a failed insert adds no row; NUL text and a too-long email are refused before a value is drawn, and the error is `ValueTooLong("email")` for the latter; the sequence advances whenever a value was drawn; the table constraints are preserved |
| `Schema.DuplicateEmailRejected` | src/db/schema.ts:9 | in a table meeting its constraints, inserting an email that is already present, or equals a stored one once its trailing spaces past 255 are cut, fails and leaves the rows unchanged |
| `Schema.InsertKeepsSequenceAhead` | src/db/schema.ts:7 | if the sequence is ahead of every id, it stays ahead after any insert attempt |
| `Schema.SequenceAheadMeansFreshId` | src/db/schema.ts:7 | while the sequence is ahead, the next id is not in the table |
| `Schema.InsertMessage` | src/db/schema.ts:13-18 | a message insert succeeds iff the database is reachable, no text value contains NUL, and the text id is new; the row carries the given texts, and `created_at` defaults to the insertion time; a failure adds nothing; unique ids are preserved |
| `Schema.FindMessageIndex` | src/index.ts:342-346 | finds the position of the first row with the id, with no earlier row matching; none exactly when the id is absent |
| `Schema.SelectMessageById` | src/index.ts:342-346 | the `WHERE id = … LIMIT 1` select returns a stored row with that id, and nothing exactly when no row has it |
| `Schema.SelectFindsStoredRow` | src/db/schema.ts:14 | with unique ids, selecting by a stored row's id returns exactly that row |
| `Schema.ReadAfterInsert` | src/index.ts:139-146 | a message just inserted reads back unchanged by its id |
| `SequenceReset.MaxIdOrZero` | src/utils/resetSequences.ts:7 | `COALESCE(MAX(id), 0)`: 0 for an empty table, otherwise an id of the table that no id exceeds |
| `SequenceReset.ResetUsersSequence` | src/utils/resetSequences.ts:7 | the reset succeeds exactly when the table is non-empty and its largest id is at least 1; it then sets `last_value` to that id with `is_called = true`, and otherwise reports the out-of-bounds value |
| `SequenceReset.ResetPutsSequenceAhead` | src/utils/resetSequences.ts:7 | after a successful reset, the next id is the largest id plus one, so it exceeds every stored id |
| `SequenceReset.ResetIdempotent` | src/utils/resetSequences.ts:7 | running the reset again leaves the sequence as one run left it |
| `SequenceReset.ResetFailsOnEmptyTable` | src/utils/resetSequences.ts:7 | on an empty table the statement asks for `setval(0)` and fails |
| `SequenceReset.InsertAfterResetSucceeds` | src/utils/resetSequences.ts:7 | after a reset, a registration with NUL-free text and an email that fits the column and is new once cut succeeds with id max+1, which no existing row has |
| `SequenceReset.CorrectedResetUsersSequence` | src/utils/resetSequences.ts:7 | the corrected statement succeeds iff 1 <= max+1 <= 2^31-1, and then the next id is max+1, above every stored id |
| `SequenceReset.CorrectedResetOnEmptyTable` | src/utils/resetSequences.ts:7 | on an empty table the corrected statement restores a fresh sequence, so the next id is 1 |
| `SequenceReset.CorrectedResetAgrees` | src/utils/resetSequences.ts:7 | where the original succeeds (and is not at the top of the range), the corrected statement hands out the same next id |
| `Tables.UsersTable.constructor` | src/db/schema.ts:6-11 | a new users table is empty, with its sequence at its start |
| `Tables.UsersTable.Restore` | src/db/schema.ts:6-11 | a users table can hold any rows meeting the constraints, with any in-range sequence |
| `Tables.UsersTable.Insert` | src/index.ts:65-72 | the insert changes rows and sequence exactly as `Schema.InsertUser` says, keeping the constraints |
| `Tables.UsersTable.SelectAll` | src/index.ts:44 | selecting from `users` returns every row in storage order exactly when the database is reachable, and otherwise fails |
| `Tables.UsersTable.ResetSequences` | src/utils/resetSequences.ts:3-10 | only the sequence changes; the reset succeeds exactly when the database is reachable and the statement is in range; on success the sequence holds the largest id, the returned value is that id, and the next id exceeds every row's; on failure (`Unavailable`, or the out-of-bounds value) nothing changes |
| `Tables.MessagesTable.constructor` | src/db/schema.ts:13-18 | a new messages table is empty |
| `Tables.MessagesTable.Restore` | src/db/schema.ts:13-18 | a messages table can hold any rows with distinct ids |
| `Tables.MessagesTable.Insert` | src/index.ts:139-146 | the insert changes the rows exactly as `Schema.InsertMessage` says, keeping ids unique |
| `Tables.MessagesTable.SelectAll` | src/index.ts:332 | selecting from `messages` returns every row in storage order exactly when the database is reachable, and otherwise fails |
| `Tables.MessagesTable.SelectById` | src/index.ts:342-346 | the select fails exactly when the database is unreachable or the id contains NUL (`Unavailable`, resp. `InvalidText`); otherwise it returns at most one row, none exactly when the id is absent, else the first row with that id |
| `Tables.Bucket.constructor` | src/index.ts:50 | a new bucket holds no objects |
| `Tables.Bucket.Put` | src/index.ts:62 | `put` stores the body under the key, replacing an earlier one and touching no other key |
| `Api.RespondToTransform` | src/index.ts:148-161 | the response echoes the message and the transformed text; on success it has the saved row's id and no `error`; on failure it has the generated id and `error = "Failed to save message to database"` |
| `Api.ResponseIdIsGeneratedId` | src/index.ts:131-161 | on both paths the response id is the generated id |
| `Api.Transform` | src/index.ts:81-163 | `original` is the submitted message, `transformed` the normalised reply, `id` the generated id; the insert succeeds iff the database is reachable, the message, reply text and id contain no NUL, and the id is new, appending exactly one row `{id, message, transformed, now}`; otherwise the table is unchanged and `error` is set |
| `Api.ListMessages` | src/index.ts:327-334 | `GET /api/messages` returns every stored row when the database is reachable; otherwise the query error escapes (status 500) |
| `Api.GetMessage` | src/index.ts:337-353 | `GET /api/messages/:id` fails with status 500 exactly when the database is unreachable or the id contains NUL, returns 404 "Message not found" exactly when neither holds and no row has the id, else the first row with that id, never one with another id |
| `Api.TransformThenFetch` | src/index.ts:139-152 | on a reachable database with a new id, NUL-free text and a base-36 random suffix, fetching the id a transform answered with returns the row with the message and the normalised reply |
| `Api.Truthy` | src/index.ts:56 | the guard on a missing name or email passes a field exactly when it is present and not the empty string; an uploaded file is always truthy |
| `Api.FormText` | src/index.ts:68-69 | `.toString()` of a form value: a text field gives its text, a file gives `"[object File]"` |
| `Api.UploadName` | src/index.ts:61 | `profile.name`: a file's name, or `"undefined"` for a text field |
| `Api.StorageKey` | src/index.ts:61-62 | the key starts with `"profile-pics/"`, then the decimal upload time, `'-'`, and ends with the file name |
| `Api.StorageKeyRoundTrip` | src/index.ts:61-62 | a storage key splits back into the upload time and the file name |
| `Api.StorageKeyInjective` | src/index.ts:61 | two uploads share a key only with the same millisecond and the same file name |
| `Api.ListUsers` | src/index.ts:39-46 | `GET /api/users` returns every stored user when the database is reachable; otherwise the query error escapes (status 500) |
| `Api.Register` | src/index.ts:48-79 | a missing or empty `name` or `email` gives 400 "Name and email are required" with no change to bucket or table; otherwise the upload is stored under `"profile-pics/" + now + "-" + filename` and the user is inserted with that key as `thumbnail`; a failed insert gives 500 "Failed to create user" and leaves the blob in the bucket |
| `Api.RegisterTakenEmail` | src/index.ts:64-78 | registering an already-used email fails with 500, leaves one user, and leaves the uploaded blob orphaned |

## Left out

- The language-model call (`AI.run`) and the prompt texts. The reply is an input of type `Reply.AiReply`. `Api.Mode` only names the route, because the prompt is all that differs. A failing call would be an unhandled 500.
- `Math.random().toString(36).substring(2, 10)` is floating-point conversion. It is the parameter `randomPart`, which lemmas assume has at most 8 base-36 digits.
- `Date.now()` and the database's `now()` are the natural-number parameters `now` and `dbNow`. A clock before 1970 is not modelled.
- `Reply.PrimitiveToString`: numbers are integers of magnitude at most 2^53-1 only (`Reply.SafeInteger`). Larger numbers, which `String` prints with rounded digits or, from 10^21 on, in exponent form (`"1e+21"`), are not modelled, and neither are fractions, `NaN`, `Infinity`, symbols and functions. A non-string truthy `response` field (a number, say) is not modelled either: `response` is a string or absent.
- Request parsing: the JSON body is assumed to carry a string `message`. A missing or non-string field would depend on the inference service's input validation.
- `Api.Register` requires the `profile-pic` field to be present when name and email are present. The source dereferences `profile.name` without a check and would throw a TypeError. A text field in its place is modelled: its name prints as `"undefined"`.
- Failures of the bucket `put` (an unhandled 500) are not modelled: `put` always succeeds.
- `Radix.ValidRadix` admits only radix 10 and radix 36, the two the program uses. This keeps the proofs' arithmetic linear.
- Storage order: a `SELECT` without `ORDER BY` has no guaranteed order in PostgreSQL. The model returns rows in insertion order.
- Sequence caching (`CACHE`, `log_cnt`) and transactions are not modelled. Each statement is atomic.
- Lengths: JavaScript `slice` counts UTF-16 code units and PostgreSQL `varchar(255)` counts characters. The model counts Unicode scalar values for both. These agree on the ASCII ids the generator produces.
- Not modelled: the CORS middleware, the OpenAPI document and explorer, the `GET /` text, `console` logging, the React page and the `fetch` client of the front end. Connection setup (`neon`, `drizzle`) is reduced to the `reachable` flag.
- Concurrency: each handler is one sequential method. There is no state shared between requests other than the tables and the bucket.

## Findings

| source | as written | input that shows it | evidently intended | confidence | as-written member | corrected member |
|---|---|---|---|---|---|---|
| src/utils/resetSequences.ts:7 | `setval('users_id_seq', COALESCE(MAX(id), 0), true)` | an empty `users` table: the statement asks for `setval(0)`, below the sequence minimum of 1, and PostgreSQL raises an error | the `COALESCE` fallback should restart numbering at 1: `setval('users_id_seq', COALESCE(MAX(id), 0) + 1, false)` | high; not executed | `SequenceReset.ResetFailsOnEmptyTable` | `SequenceReset.CorrectedResetOnEmptyTable` |
