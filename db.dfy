/** The two collections the handlers read and write, the queries they run
    against them, the invariant the handlers keep, and the shape of what a
    handler answers. */
module Db {
  import opened Js
  import opened Strings

  /** An ObjectId in its canonical string form. */
  type Id = string

  datatype User = User(username: string, password: string, roles: seq<string>, active: bool)

  datatype Note = Note(user: Id, title: string, text: string, completed: bool)

  datatype Tables = Tables(users: map<Id, User>, notes: map<Id, Note>)

  /** `Note.findOne({ title }).collation({ locale: "en", strength: 2 })` finds a document. */
  predicate TitleTaken(notes: map<Id, Note>, title: string) {
    exists nid | nid in notes :: SameUpToCase(notes[nid].title, title)
  }

  /** `User.findOne({ username }).collation({ locale: "en", strength: 2 })` finds a document. */
  predicate NameTaken(users: map<Id, User>, name: string) {
    exists uid | uid in users :: SameUpToCase(users[uid].username, name)
  }

  /** `Note.findOne({ user: id })` finds a document. */
  predicate HasNotes(notes: map<Id, Note>, uid: Id) {
    exists nid | nid in notes :: notes[nid].user == uid
  }

  /** No two users share a username up to case. */
  predicate NamesDistinct(users: map<Id, User>) {
    forall a, b :: a in users && b in users && a != b ==> !SameUpToCase(users[a].username, users[b].username)
  }

  /** No two notes share a title up to case. */
  predicate TitlesDistinct(notes: map<Id, Note>) {
    forall a, b :: a in notes && b in notes && a != b ==> !SameUpToCase(notes[a].title, notes[b].title)
  }

  /** Every note's owner is a stored user. */
  predicate OwnersExist(t: Tables) {
    forall nid :: nid in t.notes ==> t.notes[nid].user in t.users
  }

  /** The invariant the user and note handlers keep between them. */
  predicate Consistent(t: Tables) {
    OwnersExist(t) && NamesDistinct(t.users) && TitlesDistinct(t.notes)
  }

  /** `User.findOne({ username })` without a collation: the one user whose
      name is exactly `name`, if any. Distinct names make the answer unique. */
  function FindByUsername(users: map<Id, User>, name: string): (r: Option<Id>)
    requires NamesDistinct(users)
    ensures r.Some? ==> r.value in users && users[r.value].username == name
    ensures r.None? <==> forall uid :: uid in users ==> users[uid].username != name
  {
    if exists uid | uid in users :: users[uid].username == name then
      var uid :| uid in users && users[uid].username == name;
      Some(uid)
    else
      None
  }

  /** A stored user with the password field removed (`select("-password")`). */
  datatype UserView = UserView(username: string, roles: seq<string>, active: bool)

  /** A note joined with its owner's name (`{ ...note, username }`). */
  datatype NoteView = NoteView(user: Id, title: string, text: string, completed: bool, username: string)

  datatype Body =
    | Message(text: string)                 // res.json({ message })
    | Text(text: string)                    // res.json(someString)
    | CreatedNote(id: Id, note: Note)       // res.json(note)
    | NoteList(notes: map<Id, NoteView>)
    | UserList(users: map<Id, UserView>)
    | AccessToken(token: string)            // res.json({ accessToken })

  datatype Reply = Reply(status: int, body: Body)

  /** An exception that escapes a handler. Thrown inside an
      `asyncHandler`-wrapped route it reaches the fallback error handler;
      thrown inside `refresh`'s `jwt.verify` callback it does not (see
      `AuthController.RefreshAsWritten`). */
  datatype JsError =
    | ReferenceError(name: string)          // an identifier that is not in scope
    | TypeError(what: string)               // a property read on null or undefined
    | CastError(value: string)              // a string Mongoose cannot cast to an ObjectId

  /** How a handler ends: a single reply; an exception before any reply;
      or a reply followed by an exception. */
  datatype Outcome =
    | Sent(reply: Reply)
    | Threw(error: JsError)
    | SentThenThrew(reply: Reply, error: JsError)
  {
    predicate Is(code: int) {
      Sent? && reply.status == code
    }
  }

  /** `res.status(code).json({ message })`. */
  function Refusal(code: int, message: string): Reply {
    Reply(code, Message(message))
  }

  /** A handler that ends by answering `res.status(code).json({ message })`. */
  function Refuse(code: int, message: string): Outcome {
    Sent(Refusal(code, message))
  }

  /** A handler's outcome and the collections after it. */
  datatype Step = Step(out: Outcome, after: Tables)
}
