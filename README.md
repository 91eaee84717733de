# NotesService in Dafny

A model of the NotesService backend: users register and log in with an email
and a password, get a signed token, and then create, list, read, update and
delete short text notes. The model covers the two repositories over the
`notes` and `users` tables and the seven HTTP handlers that read and write
them, and proves what each promises.

- `wrappers.dfy`: `Option`, `Result`, the store errors (`Sql.StoreError`) and a
  set lemma the table scans use.
- `notes.dfy`: the `Note` row and `Notes.NotesTable`. The class holds the table
  as a map from id to row, plus the id sequence and whether the database can be
  reached. Its methods follow the SQL statements of `NotesDbRepository`.
- `users.dfy`: the `User` row and `Users.UsersTable`, the same shape for
  `UsersDbRepository`.
- `foreign.dfy`: the token claims and the library calls. bcrypt, HS256 signing,
  `net/mail` address parsing and `strconv.Atoi` are fields of a `Library` value
  with no body of their own. The one bcrypt property the model uses
  (`HashesMatch`: a hash matches its own password) is a precondition, only
  where it is needed.
- `service.dfy`: the four error messages, the `Response` envelope, `NewError`,
  and the `Reply` a handler writes (`Aborted` when the handler returns a Go
  error and leaves the reply to the framework).
- `user_handlers.dfy`: `Login`, `Register`, the claims `GenerateJWT` signs,
  `IsValidEmail` (the address parses), and two scenarios: register then log in,
  and register the same email twice.
- `note_handlers.dfy`: the five note handlers and scenarios that chain them.

Request inputs that a handler reads from its echo context become parameters:
form values, the `:id` path parameter, the bound JSON body (`None` when binding
fails), and the claims of the verified token. So do the environment's
contributions: the quote of the day (`None` when the fetch or the decode
fails), the clock, the random salt bcrypt draws, the signing key from the
configuration file, the `NOW()` timestamp, a driver error on `Register`'s email
lookup alone (`lookupFails`), and the point at which a driver error cuts a
notes scan short (`interruptAt`).

The model follows the code as written:
- No handler compares a note's owner with the caller. `GetNote`, `UpdateNote`
  and `DeleteNote` act on any id, and `GetNoteIgnoresCaller` proves two
  callers get the same reply.
- `CreateUser` inserts unconditionally, so two rows may share an email
  (`CreateUserTwice`). Only `Register` checks first, and any lookup error
  counts as "no such user". So `Register` keeps `UniqueEmails` when its
  lookup works, and inserts a duplicate when the lookup fails while the
  insert goes through (`RegisterTwice`).
- `Register` looks the email up before it checks the email's syntax.
- A failed quote fetch stops note creation.
- In the note handlers, every store error, `NoteNotFound` included, reaches
  the client as "internal error". `Login` answers "invalid credentials" on any
  lookup error.
- A notes scan that a driver error interrupts still succeeds with the rows
  read so far: the repository never asks `rows.Err()`.
- `NewError` answers 400 whatever the message. The repository's tests expect
  500 for internal errors (internal/service/service_test.go:120 and 216); the
  model follows the code.

`QueryRow` without `ORDER BY` scans whichever matching row the database
returns first. So `GetUserByEmail` may return any row with the email, and the
handlers that use it report the row they got as a ghost out-parameter.

## Model

| member | source | states |
|---|---|---|
| `Notes.NotesTable.GetNote` | internal/notes/data.go:24-33 | returns the row whose id is the requested id when it exists; otherwise `NoRows`, or `ConnectionFailed` when the database cannot be reached; takes no caller |
| `Notes.NotesTable.GetUserNotes` | internal/notes/data.go:35-51 | the scan loop returns only rows with that `user_id`, each at most once (a sub-multiset); when no driver error interrupts it, exactly those rows in any order; when one does after k < all rows, exactly k rows, still as success; none gives an empty list, not an error |
| `Notes.NotesTable.CreateNote` | internal/notes/data.go:53-64 | adds one row under the next sequence id, which was free, with the given user, title, body and time; all earlier rows unchanged; keeps `Valid` |
| `Notes.NotesTable.UpdateNote` | internal/notes/data.go:66-82 | on an existing id replaces only that row's title and body (id, owner, creation time and all other rows unchanged); on a missing id returns `NoteNotFound` and changes nothing |
| `Notes.NotesTable.DeleteNote` | internal/notes/data.go:84-91 | removes the row with that id; a missing id succeeds with the table unchanged |
| `Users.UsersTable.GetUserById` | internal/users/data.go:24-33 | returns the row with that id, or `NoRows` when there is none |
| `Users.UsersTable.GetUserByEmail` | internal/users/data.go:35-44 | succeeds exactly when some row has the email, and then returns one such row as stored; otherwise `NoRows` |
| `Users.UsersTable.CreateUser` | internal/users/data.go:46-56 | adds one row with the given email and hash under a fresh id, with no uniqueness check (the model assumes no unique index on `email`); all earlier rows unchanged |
| `Users.UsersTable.CreateUserTwice` | internal/users/data.go:46-56 | two inserts of one email both succeed and leave two rows with that email, breaking `UniqueEmails` |
| `Users.UsersTable.UpdateUser` | internal/users/data.go:58-74 | on an existing id replaces only that row's email and hash; on a missing id returns `UserNotFound` and changes nothing |
| `Users.UsersTable.DeleteUser` | internal/users/data.go:76-83 | removes the row with that id; unlike `UpdateUser`, a missing id is not an error |
| `Service.ErrorMessagesDistinct` | internal/service/service.go:11-16 | the four error messages are pairwise different |
| `Service.Response.Error` | internal/service/service.go:46-48 | a response's error text is its message |
| `Service.NewError` | internal/service/service.go:50-52 | status 400 whatever the message, no object, and `Error()` gives back the message |
| `UserHandlers.NumericDate` | internal/service/users.go:95-96 | a NumericDate is the instant cut down to whole seconds: the largest second not after it |
| `UserHandlers.GenerateClaims` | internal/service/users.go:89-99 | username and subject are both the given email; expiry is 24 hours (86400 s) after the first clock reading; issued-at is the second reading |
| `UserHandlers.GenerateJwt` | internal/service/users.go:81-102 | the token is the key's HS256 signature over claims whose username and subject are the email, whose expiry is the first reading's second plus 86400 and whose issue time is the second reading's second; `None` exactly when signing fails |
| `UserHandlers.IsValidEmail` | internal/service/users.go:104-107 | an email is valid exactly when address parsing accepts it |
| `UserHandlers.Login` | internal/service/users.go:20-47 | no row for the email, a failed lookup, or a password the stored hash rejects, gives the same `InvalidCredentials` reply; a match gives 200 with the token `GenerateJwt` signs for the email, or aborts when signing fails; when every row with the email rejects the password the reply is `InvalidCredentials`, and when every such row accepts it the reply is the token (or the abort) |
| `UserHandlers.Register` | internal/service/users.go:50-79 | a found user gives `UserAlreadyExists` before the email is checked; a failed lookup counts as no user; a malformed email gives `InvalidParams`; a failed insert gives `InternalServerError`; the table changes only on 200 "OK", by one row holding `hash(password, salt)`; keeps `UniqueEmails` when the lookup works, and breaks it when a failed lookup lets an existing email in again |
| `UserHandlers.RegisterThenLogin` | internal/service/users.go:20-79 | registration succeeds exactly when the table is reachable, the email is new or its lookup failed, and the email parses; if bcrypt accepts its own hashes, a successful registration of a new email followed by a login with the same credentials gives the reply for the token `GenerateJwt` signs for that email |
| `UserHandlers.RegisterTwice` | internal/service/users.go:50-79 | the first registration succeeds exactly when `Register` would; after it succeeds for a new email, registering it again gives `UserAlreadyExists` and exactly one row has that email when the second lookup works; when the second lookup fails, the second registration succeeds too and emails are no longer unique |
| `NoteHandlers.WithQuote` | internal/service/notes.go:93 | the stored body is the submitted body, then the separator "\nQuote of the day: ", then the quote, with nothing lost or added |
| `NoteHandlers.GetNote` | internal/service/notes.go:19-35 | a non-integer id gives `InvalidParams` before the store is read; a store error gives `InternalServerError`; otherwise 200 with the note of that id |
| `NoteHandlers.GetNoteIgnoresCaller` | internal/service/notes.go:19-35 | the reply is the same for any two callers: there is no ownership check |
| `NoteHandlers.GetUserNotes` | internal/service/notes.go:38-62 | a failed lookup of the token subject gives `InternalServerError`; otherwise 200 listing only notes of the user row the subject resolved to, which is some row with that email, and all of them when the scan is not interrupted; an unreachable notes table also gives `InternalServerError` |
| `NoteHandlers.CreateNote` | internal/service/notes.go:65-111 | a bind failure gives `InvalidParams`; a failed quote fetch, a failed owner lookup or a failed insert gives `InternalServerError` and adds nothing; on 200 "OK" exactly one note is added under the next sequence id, owned by the resolved user, with body `WithQuote(body, quote)` |
| `NoteHandlers.UpdateNote` | internal/service/notes.go:114-137 | a non-integer id or a bind failure gives `InvalidParams` with the table unchanged; any store error, `NoteNotFound` included, gives `InternalServerError`; on 200 "OK" only that note's title and body changed |
| `NoteHandlers.DeleteNote` | internal/service/notes.go:140-156 | a non-integer id gives `InvalidParams`; a store error gives `InternalServerError`; otherwise 200 "OK" with that id removed, whether or not it existed |
| `NoteHandlers.CreateThenList` | internal/service/notes.go:38-111 | creation succeeds exactly when the form binds, the quote arrives, the caller's email names a row and the notes table is reachable; when emails are unique and the listing's scan is not interrupted, a created note appears in the creator's next listing, owned by the creator's row |
| `NoteHandlers.UpdateThenGet` | internal/service/notes.go:114-137 | the update succeeds exactly when the id parses, the form binds, the table is reachable and the id exists; after that, reading the id back with `GetNote` (internal/service/notes.go lines 19-35) gives the old row with the new title and body |
| `NoteHandlers.DeleteThenGet` | internal/service/notes.go:140-156 | the delete succeeds exactly when the id parses and the table is reachable; after that, reading the id back with `GetNote` (internal/service/notes.go lines 19-35) gives "internal error", not a not-found reply |

## Left out

- The HTTP router, the echo context and the `echojwt` middleware that checks the token's signature and expiry (cmd/main.go). Handlers receive the verified claims as a parameter, so an invalid or expired token never reaches the model.
- The Postgres connection, the migrations (the schema is not part of this model) and the YAML configuration. A table's `online` flag stands for a database that statements cannot reach. `lookupFails` and `interruptAt` are the only transient errors modelled.
- An unreadable or malformed configuration file ends the server process (`log.Fatalf` in cmd/config/config.go:31 and 39). So `GenerateJWT` never returns its configuration error, and the signing key is a plain input.
- bcrypt, HS256 signing (section 3.2 of RFC 7518), `net/mail.ParseAddress` and `strconv.Atoi` are foreign library code. They are uninterpreted `Library` fields; only `HashesMatch` is assumed, and only by `RegisterThenLogin`.
- The quote-of-the-day request and its JSON decoding (internal/service/notes.go:80-91) are network I/O. They are an `Option<string>` input.
- Logging calls have no effect on state or replies and are not modelled.
- `NewService` and `initRepositories` (internal/service/service.go:26-39) do not match the three-argument constructor the callers use. The handlers take the tables as parameters instead.
- The error of `GenerateFromPassword` is overwritten before it is read (internal/service/users.go:67-71), and it is not modelled. It does have an effect: on error the hash is a nil slice, `CreateUser` stores "", and `Register` still answers 200 "OK" for an account that can never log in. The model's `hash` always produces a hash, and `HashesMatch` assumes that hashing succeeds.
- The `GetSubject` error branches (internal/service/notes.go:40-44 and 74-78) are not modelled. `GetSubject` on these claims returns the subject and never an error.
- `UserHandlers.GenerateClaims`: time is in nanoseconds and claims in whole seconds. Wall-clock readings are free inputs, so nothing relates the two readings.
- The JSON shapes are abstract. In particular, an empty note list is an empty sequence; Go would encode its nil slice as `null`.
- The string-id `User` and `Note` types under cmd/internal/ are stale copies and are not modelled.
- `Notes.NotesTable.GetUserNotes`: a row that fails to scan (internal/notes/data.go:44-46) makes the call fail. The model covers that only through the `online` flag, so it has no failure after some rows were read. An iteration error is modelled (`interruptAt`). `NoteHandlers.GetUserNotes` and `NoteHandlers.CreateThenList` inherit both points.
- `UserHandlers.Register`: the database migrations are not part of this model. The model assumes `users.email` has no unique index, because the Go code does not check for duplicates. `Users.UsersTable.CreateUserTwice`, `Register`'s duplicate clause and `UserHandlers.RegisterTwice`'s second clause depend on that assumption. With a unique index, the duplicate insert would fail and `Register` would answer "internal error".
- `UserHandlers.Register`: requests run one at a time. Two concurrent registrations of one email can both pass the lookup, because the code takes no lock. Without a unique index both insert. The model does not capture that interleaving.
- `UserHandlers.RegisterTwice`: the two registrations are sequential, so the model does not show the concurrent duplicate described for `Register`. It shows the duplicate only through a failed second lookup.
