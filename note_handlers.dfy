/** The note handlers of internal/service/notes.go. Each is a chain of steps
    that stops at the first failure. `caller` holds the claims of the token the
    middleware verified; only GetUserNotes and CreateNote look at it, and then
    only to find the caller's user row. GetNote, UpdateNote and DeleteNote act
    on whatever note the id names, whoever owns it. */
module NoteHandlers {
  import opened Wrappers
  import opened Foreign
  import opened Service
  import opened Users
  import opened Notes

  /** The title and body a request carries, as c.Bind fills them in. */
  datatype NoteForm = NoteForm(title: string, body: string)

  /** The body CreateNote stores: the submitted body, a separator line, the quote. */
  function WithQuote(body: string, quote: string): (stored: string)
    ensures |stored| == |body| + |"\nQuote of the day: "| + |quote|
    ensures stored[..|body|] == body
    ensures stored[|body|..|stored| - |quote|] == "\nQuote of the day: "
    ensures stored[|stored| - |quote|..] == quote
  {
    body + "\nQuote of the day: " + quote
  }

  /** The reply is 200 with an envelope listing exactly `expected`, each once, in any order. */
  ghost predicate ListsExactly(reply: Reply, expected: set<Note>)
  {
    && reply.Reply? && reply.status == 200
    && reply.body.Json? && reply.body.response.errorMessage == ""
    && reply.body.response.obj.Some? && reply.body.response.obj.value.NoteList?
    && multiset(reply.body.response.obj.value.notes) == multiset(expected)
  }

  /** The reply is 200 with an envelope listing some of `expected`, each at most once. */
  ghost predicate ListsWithin(reply: Reply, expected: set<Note>)
  {
    && reply.Reply? && reply.status == 200
    && reply.body.Json? && reply.body.response.errorMessage == ""
    && reply.body.response.obj.Some? && reply.body.response.obj.value.NoteList?
    && multiset(reply.body.response.obj.value.notes) <= multiset(expected)
  }

  /** GET /api/note/:id. No comparison between the note's owner and the caller. */
  method GetNote(notes: NotesTable, lib: Library, caller: Claims, idParam: string) returns (reply: Reply)
    requires notes.Valid()
    ensures lib.atoi(idParam).None? ==> reply == ErrorReply(InvalidParams)
    ensures lib.atoi(idParam).Some? && !(notes.online && lib.atoi(idParam).value in notes.rows) ==>
      reply == ErrorReply(InternalServerError)
    ensures lib.atoi(idParam).Some? && notes.online && lib.atoi(idParam).value in notes.rows ==>
      reply == Reply(200, Json(Response(Some(NoteObject(notes.rows[lib.atoi(idParam).value])), "")))
    ensures reply.Reply? && reply.status == 200 ==>
      reply.body.response.obj.value.note.id == lib.atoi(idParam).value
  {
    var id := lib.atoi(idParam);
    if id.None? {
      return ErrorReply(InvalidParams);
    }
    var note := notes.GetNote(id.value);
    if note.Err? {
      return ErrorReply(InternalServerError);
    }
    reply := Reply(200, Json(Response(Some(NoteObject(note.value)), "")));
  }

  /** GET /api/notes: the notes of the user row the token's subject resolves to.
      `owner` is the row the email lookup returned, if any. A scan that a driver
      error interrupts (`interruptAt`) still answers 200, with the notes read so far. */
  method GetUserNotes(users: UsersTable, notes: NotesTable, caller: Claims, interruptAt: Option<nat>)
    returns (reply: Reply, ghost owner: Option<User>)
    requires users.Valid() && notes.Valid()
    ensures owner.Some? <==> users.online && users.WithEmail(caller.subject) != {}
    ensures owner.Some? ==>
      owner.value.email == caller.subject && owner.value.id in users.rows && users.rows[owner.value.id] == owner.value
    ensures owner.None? || !notes.online ==> reply == ErrorReply(InternalServerError)
    ensures owner.Some? && notes.online ==> ListsWithin(reply, notes.OwnedBy(owner.value.id))
    ensures owner.Some? && notes.online && interruptAt.None? ==> ListsExactly(reply, notes.OwnedBy(owner.value.id))
    ensures !users.online || users.WithEmail(caller.subject) == {} || !notes.online ==>
      reply == ErrorReply(InternalServerError)
    ensures users.online && users.WithEmail(caller.subject) != {} && notes.online ==>
      exists id :: id in users.WithEmail(caller.subject) && ListsWithin(reply, notes.OwnedBy(id))
    ensures users.online && users.WithEmail(caller.subject) != {} && notes.online && interruptAt.None? ==>
      exists id :: id in users.WithEmail(caller.subject) && ListsExactly(reply, notes.OwnedBy(id))
  {
    var email := caller.subject;
    var dbUser := users.GetUserByEmail(email);
    if dbUser.Err? {
      owner := None;
      return ErrorReply(InternalServerError), owner;
    }
    owner := Some(dbUser.value);
    var found := notes.GetUserNotes(dbUser.value.id, interruptAt);
    if found.Err? {
      return ErrorReply(InternalServerError), owner;
    }
    reply := Reply(200, Json(Response(Some(NoteList(found.value)), "")));
  }

  /** POST /api/note. The quote is fetched before the owner is looked up, and a
      failed fetch (`quote` None) stops the request. A note is added only on a
      200 reply, owned by the row the subject resolved to. */
  method CreateNote(users: UsersTable, notes: NotesTable, caller: Claims, form: Option<NoteForm>,
                    quote: Option<string>, now: string)
    returns (reply: Reply, ghost owner: Option<User>)
    requires users.Valid() && notes.Valid()
    modifies notes
    ensures notes.Valid() && notes.online == old(notes.online)
    ensures form.None? ==> reply == ErrorReply(InvalidParams)
    ensures form.Some? && reply != Reply(200, Text(OK)) ==> reply == ErrorReply(InternalServerError)
    ensures owner.Some? <==>
      form.Some? && quote.Some? && users.online && users.WithEmail(caller.subject) != {}
    ensures owner.Some? ==>
      owner.value.email == caller.subject && owner.value.id in users.rows && users.rows[owner.value.id] == owner.value
    ensures reply == Reply(200, Text(OK)) <==> owner.Some? && old(notes.online)
    ensures reply != Reply(200, Text(OK)) ==> notes.rows == old(notes.rows) && notes.nextId == old(notes.nextId)
    ensures reply == Reply(200, Text(OK)) ==>
      notes.rows == old(notes.rows)[old(notes.nextId) :=
        Note(old(notes.nextId), owner.value.id, form.value.title, WithQuote(form.value.body, quote.value), now)]
      && notes.nextId == old(notes.nextId) + 1
  {
    owner := None;
    if form.None? {
      return ErrorReply(InvalidParams), owner;
    }
    var note := form.value;
    var email := caller.subject;
    if quote.None? {
      return ErrorReply(InternalServerError), owner;
    }
    note := note.(body := WithQuote(note.body, quote.value));
    var dbUser := users.GetUserByEmail(email);
    if dbUser.Err? {
      return ErrorReply(InternalServerError), owner;
    }
    owner := Some(dbUser.value);
    var created := notes.CreateNote(dbUser.value.id, note.title, note.body, now);
    if created.Err? {
      return ErrorReply(InternalServerError), owner;
    }
    reply := Reply(200, Text(OK));
  }

  /** PUT /api/note/:id. The id is parsed before the body is bound. Any store
      error, NoteNotFound included, becomes InternalServerError. */
  method UpdateNote(notes: NotesTable, lib: Library, caller: Claims, idParam: string, form: Option<NoteForm>)
    returns (reply: Reply)
    requires notes.Valid()
    modifies notes
    ensures notes.Valid() && notes.online == old(notes.online) && notes.nextId == old(notes.nextId)
    ensures lib.atoi(idParam).None? || form.None? ==> reply == ErrorReply(InvalidParams)
    ensures lib.atoi(idParam).Some? && form.Some? && reply != Reply(200, Text(OK)) ==>
      reply == ErrorReply(InternalServerError)
    ensures reply == Reply(200, Text(OK)) <==>
      lib.atoi(idParam).Some? && form.Some? && old(notes.online) && lib.atoi(idParam).value in old(notes.rows)
    ensures reply != Reply(200, Text(OK)) ==> notes.rows == old(notes.rows)
    ensures reply == Reply(200, Text(OK)) ==>
      var id := lib.atoi(idParam).value;
      notes.rows == old(notes.rows)[id := old(notes.rows)[id].(title := form.value.title, body := form.value.body)]
  {
    var id := lib.atoi(idParam);
    if id.None? {
      return ErrorReply(InvalidParams);
    }
    if form.None? {
      return ErrorReply(InvalidParams);
    }
    var updated := notes.UpdateNote(id.value, form.value.title, form.value.body);
    if updated.Err? {
      return ErrorReply(InternalServerError);
    }
    reply := Reply(200, Text(OK));
  }

  /** DELETE /api/note/:id. Deleting an id that names no note still answers 200. */
  method DeleteNote(notes: NotesTable, lib: Library, caller: Claims, idParam: string) returns (reply: Reply)
    requires notes.Valid()
    modifies notes
    ensures notes.Valid() && notes.online == old(notes.online) && notes.nextId == old(notes.nextId)
    ensures lib.atoi(idParam).None? ==> reply == ErrorReply(InvalidParams)
    ensures lib.atoi(idParam).Some? && !old(notes.online) ==> reply == ErrorReply(InternalServerError)
    ensures reply == Reply(200, Text(OK)) <==> lib.atoi(idParam).Some? && old(notes.online)
    ensures reply != Reply(200, Text(OK)) ==> notes.rows == old(notes.rows)
    ensures reply == Reply(200, Text(OK)) ==> notes.rows == old(notes.rows) - {lib.atoi(idParam).value}
  {
    var id := lib.atoi(idParam);
    if id.None? {
      return ErrorReply(InvalidParams);
    }
    var deleted := notes.DeleteNote(id.value);
    if deleted.Err? {
      return ErrorReply(InternalServerError);
    }
    reply := Reply(200, Text(OK));
  }

  /** Two callers asking for the same id get the same reply: nothing ties a
      note to the caller who reads it. */
  method GetNoteIgnoresCaller(notes: NotesTable, lib: Library, owner: Claims, stranger: Claims, idParam: string)
    returns (ownerReply: Reply, strangerReply: Reply)
    requires notes.Valid()
    ensures ownerReply == strangerReply
    ensures lib.atoi(idParam).Some? && notes.online && lib.atoi(idParam).value in notes.rows ==>
      strangerReply.Reply? && strangerReply.status == 200
  {
    ownerReply := GetNote(notes, lib, owner, idParam);
    strangerReply := GetNote(notes, lib, stranger, idParam);
  }

  /** Creating a note and then listing the caller's notes shows the new note,
      provided the caller's email names at most one user row and the listing's
      scan runs to the end. */
  method CreateThenList(users: UsersTable, notes: NotesTable, caller: Claims, form: Option<NoteForm>,
                        quote: Option<string>, now: string, interruptAt: Option<nat>)
    returns (created: Reply, listed: Reply, ghost ownerId: int)
    requires users.Valid() && notes.Valid() && users.UniqueEmails()
    modifies notes
    ensures created == Reply(200, Text(OK)) <==>
      form.Some? && quote.Some? && users.online && users.WithEmail(caller.subject) != {} && old(notes.online)
    ensures created == Reply(200, Text(OK)) && interruptAt.None? ==>
      && form.Some? && quote.Some?
      && ownerId in users.rows && users.rows[ownerId].email == caller.subject
      && ListsExactly(listed, notes.OwnedBy(ownerId))
      && Note(old(notes.nextId), ownerId, form.value.title, WithQuote(form.value.body, quote.value), now)
         in listed.body.response.obj.value.notes
  {
    ghost var newId := notes.nextId;
    ghost var owner;
    created, owner := CreateNote(users, notes, caller, form, quote, now);
    ownerId := if owner.Some? then owner.value.id else 0;
    ghost var lister;
    listed, lister := GetUserNotes(users, notes, caller, interruptAt);
    if created == Reply(200, Text(OK)) && interruptAt.None? {
      assert lister.value.id == ownerId;
      assert notes.rows[newId] in notes.OwnedBy(ownerId);
      assert notes.rows[newId] in multiset(listed.body.response.obj.value.notes);
    }
  }

  /** After a successful update, reading the note back shows the new title and
      body under the same id, owner and creation time. */
  method UpdateThenGet(notes: NotesTable, lib: Library, caller: Claims, idParam: string, form: Option<NoteForm>)
    returns (updated: Reply, fetched: Reply)
    requires notes.Valid()
    modifies notes
    ensures updated == Reply(200, Text(OK)) <==>
      lib.atoi(idParam).Some? && form.Some? && old(notes.online) && lib.atoi(idParam).value in old(notes.rows)
    ensures updated == Reply(200, Text(OK)) ==>
      && lib.atoi(idParam).Some? && form.Some? && lib.atoi(idParam).value in old(notes.rows)
      && var id := lib.atoi(idParam).value;
      fetched == Reply(200, Json(Response(Some(NoteObject(
        old(notes.rows)[id].(title := form.value.title, body := form.value.body))), "")))
  {
    updated := UpdateNote(notes, lib, caller, idParam, form);
    fetched := GetNote(notes, lib, caller, idParam);
  }

  /** After a successful delete, reading the note back fails, and the failure
      is reported as an internal error rather than as a missing note. */
  method DeleteThenGet(notes: NotesTable, lib: Library, caller: Claims, idParam: string)
    returns (deleted: Reply, fetched: Reply)
    requires notes.Valid()
    modifies notes
    ensures deleted == Reply(200, Text(OK)) <==> lib.atoi(idParam).Some? && old(notes.online)
    ensures deleted == Reply(200, Text(OK)) ==> fetched == ErrorReply(InternalServerError)
  {
    deleted := DeleteNote(notes, lib, caller, idParam);
    fetched := GetNote(notes, lib, caller, idParam);
  }
}
