/** The note handlers of controllers/notesController.js as decisions over
    the two collections: each returns its outcome and the collections after
    it. The in-place versions are the methods of `Store.Store`. */
module NotesController {
  import opened Js
  import opened Strings
  import opened Runtime
  import opened Db

  /** The body of `POST /notes`. */
  datatype NewNote = NewNote(user: Field, title: Field, text: Field)

  /** The body of `PATCH /notes`. */
  datatype NoteUpdate = NoteUpdate(id: Field, user: Field, title: Field, text: Field, completed: Json)

  /** `getAllNotes`: every note with its owner's username. An owner that is
      gone makes `user.username` throw inside `Promise.all`. */
  function GetAllNotes(t: Tables): (o: Outcome)
    ensures |t.notes| == 0 <==> o == Refuse(400, "No notes found")
    ensures o.Threw? <==> |t.notes| > 0 && !OwnersExist(t)
    ensures OwnersExist(t) && |t.notes| > 0 ==> o.Is(200)
    ensures o.Is(200) ==> o.reply.body.NoteList? && o.reply.body.notes.Keys == t.notes.Keys
    ensures o.Is(200) ==>
      o.reply.body.NoteList? &&
      forall nid :: nid in t.notes ==>
        nid in o.reply.body.notes &&
        var n, v := t.notes[nid], o.reply.body.notes[nid];
        n.user in t.users && v == NoteView(n.user, n.title, n.text, n.completed, t.users[n.user].username)
  {
    if |t.notes| == 0 then Refuse(400, "No notes found")
    else if exists nid | nid in t.notes :: t.notes[nid].user !in t.users then
      Threw(TypeError("Cannot read properties of null (reading 'username')"))
    else
      var views := map nid | nid in t.notes ::
        var n := t.notes[nid];
        NoteView(n.user, n.title, n.text, n.completed, t.users[n.user].username);
      Sent(Reply(200, NoteList(views)))
  }

  /** The guard of `createNote` that decides 201: every later check passes. */
  predicate CreateAccepted(t: Tables, req: NewNote, env: Env) {
    && Present(req.user) && Present(req.title) && Present(req.text)
    && env.validId(req.user.value)
    && !TitleTaken(t.notes, req.title.value)
    && req.user.value in t.users
  }

  /** `createNote`; `newId` is the ObjectId the database assigns. */
  function CreateNote(t: Tables, req: NewNote, env: Env, newId: Id): (r: Step)
    requires newId !in t.notes
    ensures r.out.Is(201) <==> CreateAccepted(t, req, env)
    ensures !r.out.Is(201) ==> r.after == t
    ensures r.out.Is(201) ==>
      var n := Note(req.user.value, req.title.value, req.text.value, env.defaults.completed);
      r.after == t.(notes := t.notes[newId := n]) && r.out.reply.body == CreatedNote(newId, n)
    ensures !(Present(req.user) && Present(req.title) && Present(req.text)) ==>
      r.out == Refuse(400, "All fields are required")
    ensures Present(req.user) && Present(req.title) && Present(req.text) && !env.validId(req.user.value) ==>
      r.out == Refuse(400, "Invalid user ID")
    ensures r.out.Is(409) <==>
      Present(req.user) && Present(req.title) && Present(req.text) && env.validId(req.user.value)
      && TitleTaken(t.notes, req.title.value)
    ensures r.out.Is(409) ==> r.out == Refuse(409, "Duplicate note title")
    ensures Present(req.user) && Present(req.title) && Present(req.text) && env.validId(req.user.value)
            && !TitleTaken(t.notes, req.title.value) && req.user.value !in t.users ==>
      r.out == Refuse(400, "User doesnt exist")
    ensures r.out.Is(400) || r.out.Is(409) || r.out.Is(201)
    ensures Consistent(t) ==> Consistent(r.after)
  {
    if !Present(req.user) || !Present(req.title) || !Present(req.text) then
      Step(Refuse(400, "All fields are required"), t)
    else if !env.validId(req.user.value) then
      Step(Refuse(400, "Invalid user ID"), t)
    else if TitleTaken(t.notes, req.title.value) then
      Step(Refuse(409, "Duplicate note title"), t)
    else if req.user.value !in t.users then
      Step(Refuse(400, "User doesnt exist"), t)
    else
      var note := Note(req.user.value, req.title.value, req.text.value, env.defaults.completed);
      Step(Sent(Reply(201, CreatedNote(newId, note))), t.(notes := t.notes[newId := note]))
  }

  /** The guard of `updateNote` that decides 200. */
  predicate UpdateAccepted(t: Tables, req: NoteUpdate, env: Env) {
    && Present(req.id) && Present(req.user) && Present(req.title) && Present(req.text)
    && req.completed.Bool?
    && env.validId(req.user.value) && env.validId(req.id.value)
    && !TitleTaken(t.notes, req.title.value)
    && req.user.value in t.users
    && req.id.value in t.notes
  }

  /** `updateNote`. */
  function UpdateNote(t: Tables, req: NoteUpdate, env: Env): (r: Step)
    ensures r.out.Is(200) <==> UpdateAccepted(t, req, env)
    ensures !r.out.Is(200) ==> r.after == t
    ensures r.out.Is(200) ==>
      r.after == t.(notes := t.notes[req.id.value :=
        Note(req.user.value, req.title.value, req.text.value, req.completed.b)])
    ensures !(Present(req.id) && Present(req.user) && Present(req.title) && Present(req.text) && req.completed.Bool?) ==>
      r.out == Refuse(400, "All fields are required")
    ensures Present(req.id) && Present(req.user) && Present(req.title) && Present(req.text) && req.completed.Bool?
            && !env.validId(req.user.value) ==>
      r.out == Refuse(400, "Invalid user ID")
    ensures Present(req.id) && Present(req.user) && Present(req.title) && Present(req.text) && req.completed.Bool?
            && env.validId(req.user.value) && !env.validId(req.id.value) ==>
      r.out == Refuse(400, "Invalid note ID")
    ensures r.out.Is(409) <==>
      Present(req.id) && Present(req.user) && Present(req.title) && Present(req.text) && req.completed.Bool?
      && env.validId(req.user.value) && env.validId(req.id.value) && TitleTaken(t.notes, req.title.value)
    ensures r.out.Is(409) ==> r.out == Refuse(409, "Duplicate note title")
    ensures Present(req.id) && Present(req.user) && Present(req.title) && Present(req.text) && req.completed.Bool?
            && env.validId(req.user.value) && env.validId(req.id.value) && !TitleTaken(t.notes, req.title.value)
            && req.user.value !in t.users ==>
      r.out == Refuse(400, "User does not exist")
    ensures Present(req.id) && Present(req.user) && Present(req.title) && Present(req.text) && req.completed.Bool?
            && env.validId(req.user.value) && env.validId(req.id.value) && !TitleTaken(t.notes, req.title.value)
            && req.user.value in t.users && req.id.value !in t.notes ==>
      r.out == Refuse(400, "Note does not exist")
    ensures r.out.Is(400) || r.out.Is(409) || r.out.Is(200)
    ensures Consistent(t) ==> Consistent(r.after)
  {
    if !Present(req.user) || !Present(req.title) || !Present(req.text) || !Present(req.id) || !req.completed.Bool? then
      Step(Refuse(400, "All fields are required"), t)
    else if !env.validId(req.user.value) then
      Step(Refuse(400, "Invalid user ID"), t)
    else if !env.validId(req.id.value) then
      Step(Refuse(400, "Invalid note ID"), t)
    else if TitleTaken(t.notes, req.title.value) then
      Step(Refuse(409, "Duplicate note title"), t)
    else if req.user.value !in t.users then
      Step(Refuse(400, "User does not exist"), t)
    else if req.id.value !in t.notes then
      Step(Refuse(400, "Note does not exist"), t)
    else
      var id := req.id.value;
      var note := t.notes[id].(user := req.user.value, title := req.title.value,
                               text := req.text.value, completed := req.completed.b);
      Step(Sent(Reply(200, Message("Note " + id + " updated"))), t.(notes := t.notes[id := note]))
  }

  /** `deleteNote`. An id Mongoose cannot cast makes `Note.findById` reject. */
  function DeleteNote(t: Tables, id: Field, env: Env): (r: Step)
    ensures r.out.Is(200) <==> Present(id) && env.validId(id.value) && id.value in t.notes
    ensures r.out.Is(200) ==> r.after == t.(notes := t.notes - {id.value})
    ensures !r.out.Is(200) ==> r.after == t
    ensures !Present(id) ==> r.out == Refuse(400, "All fields are required")
    ensures Present(id) && env.validId(id.value) && id.value !in t.notes ==>
      r.out == Refuse(400, "Note with given id does not exist")
    ensures r.out.Threw? <==> Present(id) && !env.validId(id.value)
    ensures Consistent(t) ==> Consistent(r.after)
  {
    if !Present(id) then Step(Refuse(400, "All fields are required"), t)
    else if !env.validId(id.value) then Step(Threw(CastError(id.value)), t)
    else if id.value !in t.notes then Step(Refuse(400, "Note with given id does not exist"), t)
    else
      Step(Sent(Reply(200, Message("Note with id " + id.value + " has been deleted"))),
           t.(notes := t.notes - {id.value}))
  }

  /** Collation makes "Todo" and "todo" the same title: once a note titled
      "Todo" is created, creating "todo" is refused and adds nothing. */
  lemma {:induction false} CaseVariantTitleRefused(t: Tables, env: Env, owner: Id, text: string, id1: Id, id2: Id)
    requires id1 !in t.notes && id2 !in t.notes && id1 != id2
    requires owner != "" && text != ""
    requires env.validId(owner)
    requires CreateNote(t, NewNote(Some(owner), Some("Todo"), Some(text)), env, id1).out.Is(201)
    ensures var t1 := CreateNote(t, NewNote(Some(owner), Some("Todo"), Some(text)), env, id1).after;
      var r := CreateNote(t1, NewNote(Some(owner), Some("todo"), Some(text)), env, id2);
      r.out == Refuse(409, "Duplicate note title") && r.after == t1
  {
    var t1 := CreateNote(t, NewNote(Some(owner), Some("Todo"), Some(text)), env, id1).after;
    TodoCollidesWithTodo();
    assert t1.notes[id1].title == "Todo";
    assert TitleTaken(t1.notes, "todo");
  }

  /** The duplicate-title query does not leave out the note being updated,
      so an update that keeps the note's title (up to case) is always refused. */
  lemma {:induction false} KeepingOwnTitleRefused(t: Tables, req: NoteUpdate, env: Env)
    requires Present(req.id) && Present(req.user) && Present(req.title) && Present(req.text)
    requires req.completed.Bool?
    requires env.validId(req.user.value) && env.validId(req.id.value)
    requires req.id.value in t.notes && SameUpToCase(t.notes[req.id.value].title, req.title.value)
    ensures UpdateNote(t, req, env).out == Refuse(409, "Duplicate note title")
    ensures UpdateNote(t, req, env).after == t
  {
    assert TitleTaken(t.notes, req.title.value) by {
      var nid := req.id.value;
      assert nid in t.notes && SameUpToCase(t.notes[nid].title, req.title.value);
    }
  }

  /** A duplicate title is reported even when the named owner does not exist:
      the title check runs first. */
  lemma {:induction false} DuplicateBeatsMissingOwner(t: Tables, req: NewNote, env: Env, newId: Id, other: Id)
    requires newId !in t.notes
    requires Present(req.user) && Present(req.title) && Present(req.text) && env.validId(req.user.value)
    requires req.user.value !in t.users
    requires other in t.notes && SameUpToCase(t.notes[other].title, req.title.value)
    ensures CreateNote(t, req, env, newId).out == Refuse(409, "Duplicate note title")
  {
    assert TitleTaken(t.notes, req.title.value);
  }

  /** Deleting a note removes exactly that note: every other note is still there, unchanged. */
  lemma DeleteNoteRemovesOnlyIt(t: Tables, id: Field, env: Env, other: Id)
    requires DeleteNote(t, id, env).out.Is(200)
    requires other in t.notes && other != id.value
    ensures var after := DeleteNote(t, id, env).after;
      id.value !in after.notes && other in after.notes && after.notes[other] == t.notes[other]
      && after.users == t.users
  {
  }
}
