/** The note and user collections as one in-memory store whose handlers
    change it in place, the way the Mongoose handlers insert, assign fields
    of a found document and save, or delete. Each method is proved to do
    what the matching decision of `NotesController` or `UsersController`
    describes, and to keep `Consistent`. */
module Store {
  import opened Js
  import opened Strings
  import opened Runtime
  import opened Db
  import NotesController
  import UsersController

  class Store {
    var users: map<Id, User>
    var notes: map<Id, Note>

    function Snapshot(): Tables
      reads this
    {
      Tables(users, notes)
    }

    ghost predicate Valid()
      reads this
    {
      Consistent(Snapshot())
    }

    constructor ()
      ensures Valid() && users == map[] && notes == map[]
    {
      users, notes := map[], map[];
    }

    /** `createNote`. */
    method CreateNote(req: NotesController.NewNote, env: Env, newId: Id) returns (o: Outcome)
      requires Valid() && newId !in notes
      modifies this
      ensures Valid()
      ensures Step(o, Snapshot()) == NotesController.CreateNote(old(Snapshot()), req, env, newId)
    {
      if !Present(req.user) || !Present(req.title) || !Present(req.text) {
        return Sent(Reply(400, Message("All fields are required")));
      }
      var user, title, text := req.user.value, req.title.value, req.text.value;
      if !env.validId(user) {
        return Sent(Reply(400, Message("Invalid user ID")));
      }
      var duplicate := TitleTaken(notes, title);
      if duplicate {
        return Sent(Reply(409, Message("Duplicate note title")));
      }
      if user !in users {
        return Sent(Reply(400, Message("User doesnt exist")));
      }
      var note := Note(user, title, text, env.defaults.completed);
      notes := notes[newId := note];
      o := Sent(Reply(201, CreatedNote(newId, note)));
    }

    /** `updateNote`: the found note's fields are assigned one by one, then saved. */
    method UpdateNote(req: NotesController.NoteUpdate, env: Env) returns (o: Outcome)
      requires Valid()
      modifies this
      ensures Valid()
      ensures Step(o, Snapshot()) == NotesController.UpdateNote(old(Snapshot()), req, env)
    {
      if !Present(req.user) || !Present(req.title) || !Present(req.text) || !Present(req.id) || !req.completed.Bool? {
        return Sent(Reply(400, Message("All fields are required")));
      }
      var id, user, title, text, completed := req.id.value, req.user.value, req.title.value, req.text.value, req.completed.b;
      if !env.validId(user) {
        return Sent(Reply(400, Message("Invalid user ID")));
      }
      if !env.validId(id) {
        return Sent(Reply(400, Message("Invalid note ID")));
      }
      var duplicate := TitleTaken(notes, title);
      if duplicate {
        return Sent(Reply(409, Message("Duplicate note title")));
      }
      if user !in users {
        return Sent(Reply(400, Message("User does not exist")));
      }
      if id !in notes {
        return Sent(Reply(400, Message("Note does not exist")));
      }
      var foundNote := notes[id];
      foundNote := foundNote.(user := user);
      foundNote := foundNote.(title := title);
      foundNote := foundNote.(text := text);
      foundNote := foundNote.(completed := completed);
      notes := notes[id := foundNote];
      o := Sent(Reply(200, Message("Note " + id + " updated")));
    }

    /** `deleteNote`. */
    method DeleteNote(id: Field, env: Env) returns (o: Outcome)
      requires Valid()
      modifies this
      ensures Valid()
      ensures Step(o, Snapshot()) == NotesController.DeleteNote(old(Snapshot()), id, env)
    {
      if !Present(id) {
        return Sent(Reply(400, Message("All fields are required")));
      }
      if !env.validId(id.value) {
        return Threw(CastError(id.value));
      }
      if id.value !in notes {
        return Sent(Reply(400, Message("Note with given id does not exist")));
      }
      notes := notes - {id.value};
      o := Sent(Reply(200, Message("Note with id " + id.value + " has been deleted")));
    }

    /** `createNewUser`. */
    method CreateNewUser(req: UsersController.NewUser, env: Env, newId: Id) returns (o: Outcome)
      requires Valid() && newId !in users
      modifies this
      ensures Valid()
      ensures Step(o, Snapshot()) == UsersController.CreateNewUser(old(Snapshot()), req, env, newId)
    {
      if !Present(req.username) || !Present(req.password) {
        return Sent(Reply(400, Message("All fields are required")));
      }
      var username, password := req.username.value, req.password.value;
      var duplicate := NameTaken(users, username);
      if duplicate {
        return Sent(Reply(409, Message("User already exists")));
      }
      var hashedPwd := env.hash(password);
      var roles := if !IsNonEmptyArray(req.roles) then env.defaults.roles else req.roles.items;
      users := users[newId := User(username, hashedPwd, roles, env.defaults.active)];
      o := Sent(Reply(201, Message("New user " + username + " created")));
    }

    /** `updateUser`, with the id check line 64 intends (see
        `UsersController.UpdateUserAsWritten` for the line as written). */
    method UpdateUser(req: UsersController.UserUpdate, env: Env) returns (o: Outcome)
      requires Valid()
      modifies this
      ensures Valid()
      ensures Step(o, Snapshot()) == UsersController.UpdateUser(old(Snapshot()), req, env)
    {
      if !UsersController.UpdateFieldsGiven(req) {
        return Sent(Reply(400, Message("All fields are required")));
      }
      var id, username := req.id.value, req.username.value;
      if !env.validId(id) {
        return Sent(Reply(400, Message("Invalid user ID")));
      }
      if id !in users {
        return Sent(Reply(400, Message("User not found")));
      }
      var duplicate := UsersController.NameTakenByOther(users, id, username);
      if duplicate {
        return Sent(Reply(409, Message("Duplicate username")));
      }
      var user := users[id];
      user := user.(username := username);
      user := user.(roles := req.roles.items);
      user := user.(active := req.active.b);
      if UsersController.NewPasswordGiven(req.password) {
        user := user.(password := env.hash(req.password.value));
      }
      users := users[id := user];
      o := Sent(Reply(200, Message(user.username + " updated")));
    }

    /** `deleteUser`. */
    method DeleteUser(id: Field, env: Env) returns (o: Outcome)
      requires Valid()
      modifies this
      ensures Valid()
      ensures Step(o, Snapshot()) == UsersController.DeleteUser(old(Snapshot()), id, env)
    {
      if !Present(id) {
        return Sent(Reply(400, Message("User id required")));
      }
      if !env.validId(id.value) {
        return Threw(CastError(id.value));
      }
      var assignedNote := HasNotes(notes, id.value);
      if assignedNote {
        return Sent(Reply(400, Message("User has assigned notes")));
      }
      if id.value !in users {
        return Sent(Reply(400, Message("User not found")));
      }
      var user := users[id.value];
      users := users - {id.value};
      o := Sent(Reply(200, Text("Username " + user.username + " with id " + id.value + " deleted")));
    }
  }
}
