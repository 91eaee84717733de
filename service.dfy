/** What every handler shares (internal/service/service.go): the four error
    messages, the JSON envelope, and the replies handlers write. */
module Service {
  import opened Wrappers
  import Notes

  const InvalidParams := "invalid params"
  const InvalidCredentials := "invalid credentials"
  const InternalServerError := "internal error"
  const UserAlreadyExists := "user already exists"

  /** The four messages a client can tell apart. */
  lemma ErrorMessagesDistinct()
    ensures InvalidParams != InvalidCredentials && InvalidParams != InternalServerError
    ensures InvalidParams != UserAlreadyExists && InvalidCredentials != InternalServerError
    ensures InvalidCredentials != UserAlreadyExists && InternalServerError != UserAlreadyExists
  {
  }

  /** What the `Object` field (JSON "object") of a Response carries in this service. */
  datatype Object = NoteObject(note: Notes.Note) | NoteList(notes: seq<Notes.Note>)

  /** The JSON envelope; a None `obj` is a nil `any`, which `omitempty` leaves out. */
  datatype Response = Response(obj: Option<Object>, errorMessage: string) {

    /** Response satisfies Go's `error` interface with its message. */
    function Error(): (m: string)
      ensures m == errorMessage
    {
      errorMessage
    }
  }

  /** The status and envelope for a failed request: always 400, whatever the message. */
  function NewError(err: string): (r: (int, Response))
    ensures r.0 == 400
    ensures r.1.obj == None && r.1.Error() == err
  {
    (400, Response(None, err))
  }

  /** What a handler writes to the client. */
  datatype Body =
    | Json(response: Response)   // c.JSON(status, Response{...}), including c.JSON(s.NewError(m))
    | TokenJson(token: string)   // c.JSON(200, map[string]string{"token": token})
    | JsonString(text: string)   // c.JSON(200, "OK")
    | Text(text: string)         // c.String(200, "OK")

  /** A written reply, or Aborted when the handler returns a Go error instead
      and leaves the reply to the framework's error handler. */
  datatype Reply = Reply(status: int, body: Body) | Aborted

  /** `c.JSON(s.NewError(message))`. */
  function ErrorReply(message: string): Reply
  {
    var (status, response) := NewError(message);
    Reply(status, Json(response))
  }

  /** The success text written by Register and the three note-changing handlers. */
  const OK := "OK"
}
