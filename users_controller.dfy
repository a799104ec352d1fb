/** The user handlers of controllers/usersController.js as decisions over
    the two collections. The in-place versions are the methods of
    `Store.Store`. */
module UsersController {
  import opened Js
  import opened Strings
  import opened Runtime
  import opened Db

  /** The body of `POST /users`. */
  datatype NewUser = NewUser(username: Field, password: Field, roles: Json)

  /** The body of `PATCH /users`. */
  datatype UserUpdate = UserUpdate(id: Field, username: Field, roles: Json, active: Json, password: Field)

  function Redact(u: User): UserView {
    UserView(u.username, u.roles, u.active)
  }

  /** `getAllUsers`: every user without the password field. */
  function GetAllUsers(t: Tables): (o: Outcome)
    ensures |t.users| == 0 <==> o == Refuse(400, "No users found")
    ensures |t.users| > 0 ==> o.Is(200) && o.reply.body.UserList? && o.reply.body.users.Keys == t.users.Keys
    ensures o.Is(200) ==>
      && o.reply.body.UserList?
      && forall uid :: uid in t.users ==>
        var u, v := t.users[uid], o.reply.body.users[uid];
        v.username == u.username && v.roles == u.roles && v.active == u.active
  {
    if |t.users| == 0 then Refuse(400, "No users found")
    else Sent(Reply(200, UserList(map uid | uid in t.users :: Redact(t.users[uid]))))
  }

  /** The roles `createNewUser` stores: the given array when it is a
      non-empty array, otherwise the field is left out and the schema's
      default applies. */
  function StoredRoles(roles: Json, env: Env): (r: seq<string>)
    ensures IsNonEmptyArray(roles) ==> r == roles.items
    ensures !IsNonEmptyArray(roles) ==> r == env.defaults.roles
  {
    if !IsNonEmptyArray(roles) then env.defaults.roles else roles.items
  }

  /** `createNewUser`; `newId` is the ObjectId the database assigns. */
  function CreateNewUser(t: Tables, req: NewUser, env: Env, newId: Id): (r: Step)
    requires newId !in t.users
    ensures r.out.Is(201) <==>
      Present(req.username) && Present(req.password) && !NameTaken(t.users, req.username.value)
    ensures !(Present(req.username) && Present(req.password)) ==> r.out == Refuse(400, "All fields are required")
    ensures r.out.Is(409) <==>
      Present(req.username) && Present(req.password) && NameTaken(t.users, req.username.value)
    ensures !r.out.Is(201) ==> r.after == t
    ensures r.out.Is(201) ==>
      && newId in r.after.users
      && r.after == t.(users := t.users[newId := r.after.users[newId]])
      && r.after.users[newId].username == req.username.value
      && r.after.users[newId].password == env.hash(req.password.value)
      && r.after.users[newId].roles == StoredRoles(req.roles, env)
      && r.after.users[newId].active == env.defaults.active
    ensures Consistent(t) ==> Consistent(r.after)
  {
    if !Present(req.username) || !Present(req.password) then
      Step(Refuse(400, "All fields are required"), t)
    else if NameTaken(t.users, req.username.value) then
      Step(Refuse(409, "User already exists"), t)
    else
      var hashed := env.hash(req.password.value);
      var user := User(req.username.value, hashed, StoredRoles(req.roles, env), env.defaults.active);
      Step(Sent(Reply(201, Message("New user " + req.username.value + " created"))), t.(users := t.users[newId := user]))
  }

  /** The field guard of `updateUser` (lines 52-62). */
  predicate UpdateFieldsGiven(req: UserUpdate) {
    Present(req.id) && Present(req.username) && IsNonEmptyArray(req.roles) && Truthy(req.active) && req.active.Bool?
  }

  /** `password && password.trim()`: a new password is given and is not blank. */
  predicate NewPasswordGiven(pw: Field) {
    Present(pw) && Trim(pw.value) != ""
  }

  /** Another user than `id` holds `name` up to case. Under `NamesDistinct`
      at most one user matches, so this is exactly when the document
      `findOne` returns has an id other than `id`. */
  predicate NameTakenByOther(users: map<Id, User>, id: Id, name: string) {
    exists uid | uid in users :: uid != id && SameUpToCase(users[uid].username, name)
  }

  /** The guard of `updateUser` that decides 200. */
  predicate UpdateAccepted(t: Tables, req: UserUpdate, env: Env) {
    && UpdateFieldsGiven(req)
    && env.validId(req.id.value)
    && req.id.value in t.users
    && !NameTakenByOther(t.users, req.id.value, req.username.value)
  }

  /** `updateUser` with the id check the source intends at line 64. As
      written, that line names `mongoose`, which the file never imports (its
      imports are lines 1-4); `UpdateUserAsWritten` models that. */
  function UpdateUser(t: Tables, req: UserUpdate, env: Env): (r: Step)
    ensures r.out.Sent?
    ensures r.out.Is(200) <==> UpdateAccepted(t, req, env)
    ensures !UpdateFieldsGiven(req) ==> r.out == Refuse(400, "All fields are required")
    ensures UpdateFieldsGiven(req) && !env.validId(req.id.value) ==> r.out == Refuse(400, "Invalid user ID")
    ensures UpdateFieldsGiven(req) && env.validId(req.id.value) && req.id.value !in t.users ==>
      r.out == Refuse(400, "User not found")
    ensures r.out.Is(409) <==>
      UpdateFieldsGiven(req) && env.validId(req.id.value) && req.id.value in t.users
      && NameTakenByOther(t.users, req.id.value, req.username.value)
    ensures !r.out.Is(200) ==> r.after == t
    ensures r.out.Is(200) ==> req.id.value in t.users && req.id.value in r.after.users
    ensures r.out.Is(200) ==>
      var old_, new_ := t.users[req.id.value], r.after.users[req.id.value];
      && r.after == t.(users := t.users[req.id.value := new_])
      && new_.username == req.username.value
      && new_.roles == req.roles.items
      && new_.active
      && new_.password == (if NewPasswordGiven(req.password) then env.hash(req.password.value) else old_.password)
    ensures Consistent(t) ==> Consistent(r.after)
  {
    if !UpdateFieldsGiven(req) then
      Step(Refuse(400, "All fields are required"), t)
    else if !env.validId(req.id.value) then
      Step(Refuse(400, "Invalid user ID"), t)
    else if req.id.value !in t.users then
      Step(Refuse(400, "User not found"), t)
    else if NameTakenByOther(t.users, req.id.value, req.username.value) then
      Step(Refuse(409, "Duplicate username"), t)
    else
      var id := req.id.value;
      var user := t.users[id].(username := req.username.value, roles := req.roles.items, active := req.active.b);
      var user := if NewPasswordGiven(req.password) then user.(password := env.hash(req.password.value)) else user;
      Step(Sent(Reply(200, Message(user.username + " updated"))), t.(users := t.users[id := user]))
  }

  /** `updateUser` as written: past the field guard, line 64 evaluates
      `mongoose.Types`, and `mongoose` is not bound in this file. It agrees
      with the intended handler exactly on the requests the guard refuses. */
  function UpdateUserAsWritten(t: Tables, req: UserUpdate, env: Env): (r: Step)
    ensures !UpdateFieldsGiven(req) ==> r == UpdateUser(t, req, env)
    ensures UpdateFieldsGiven(req) ==> r.out == Threw(ReferenceError("mongoose")) && r.after == t
    ensures r.out.Threw? <==> UpdateFieldsGiven(req)
  {
    if !UpdateFieldsGiven(req) then Step(Refuse(400, "All fields are required"), t)
    else Step(Threw(ReferenceError("mongoose")), t)
  }

  /** No update ever succeeds as written: every request that gets past the
      field guard throws, while the intended handler accepts some. */
  lemma {:induction false} UpdateUserAsWrittenNeverSucceeds(t: Tables, req: UserUpdate, env: Env)
    requires UpdateAccepted(t, req, env)
    ensures UpdateUser(t, req, env).out.Is(200)
    ensures UpdateUserAsWritten(t, req, env).out == Threw(ReferenceError("mongoose"))
    ensures UpdateUserAsWritten(t, req, env).after == t
    ensures UpdateUser(t, req, env).after.users[req.id.value].username == req.username.value
  {
  }

  /** `active: false` can never be sent: the `!active` test refuses it. */
  lemma {:induction false} DeactivationRefused(t: Tables, req: UserUpdate, env: Env)
    requires req.active == Bool(false)
    ensures UpdateUser(t, req, env) == Step(Refuse(400, "All fields are required"), t)
  {
    assert !UpdateFieldsGiven(req);
  }

  /** A user may keep their own username, under any change of case. */
  lemma {:induction false} KeepingOwnNameAllowed(t: Tables, req: UserUpdate, env: Env)
    requires NamesDistinct(t.users)
    requires UpdateFieldsGiven(req) && env.validId(req.id.value) && req.id.value in t.users
    requires SameUpToCase(t.users[req.id.value].username, req.username.value)
    ensures UpdateUser(t, req, env).out.Is(200)
  {
  }

  /** A blank new password (after trimming) leaves the stored hash as it was. */
  lemma BlankPasswordKeepsHash(t: Tables, req: UserUpdate, env: Env)
    requires UpdateUser(t, req, env).out.Is(200)
    requires req.password.Some? && IsBlank(req.password.value)
    ensures UpdateUser(t, req, env).after.users[req.id.value].password == t.users[req.id.value].password
  {
    TrimEmptyIffBlank(req.password.value);
  }

  /** `deleteUser`. The notes query runs first; an id Mongoose cannot cast
      to the `user` reference makes it reject. */
  function DeleteUser(t: Tables, id: Field, env: Env): (r: Step)
    ensures r.out.Is(200) <==> Present(id) && env.validId(id.value) && !HasNotes(t.notes, id.value) && id.value in t.users
    ensures r.out.Is(200) ==> r.after == t.(users := t.users - {id.value})
    ensures !r.out.Is(200) ==> r.after == t
    ensures !Present(id) ==> r.out == Refuse(400, "User id required")
    ensures r.out.Threw? <==> Present(id) && !env.validId(id.value)
    ensures Present(id) && env.validId(id.value) && HasNotes(t.notes, id.value) ==>
      r.out == Refuse(400, "User has assigned notes")
    ensures Present(id) && env.validId(id.value) && !HasNotes(t.notes, id.value) && id.value !in t.users ==>
      r.out == Refuse(400, "User not found")
    ensures Consistent(t) ==> Consistent(r.after)
  {
    if !Present(id) then Step(Refuse(400, "User id required"), t)
    else if !env.validId(id.value) then Step(Threw(CastError(id.value)), t)
    else if HasNotes(t.notes, id.value) then Step(Refuse(400, "User has assigned notes"), t)
    else if id.value !in t.users then Step(Refuse(400, "User not found"), t)
    else
      var user := t.users[id.value];
      Step(Sent(Reply(200, Text("Username " + user.username + " with id " + id.value + " deleted"))),
           t.(users := t.users - {id.value}))
  }

  /** A user who owns a note cannot be deleted, so no note is left without
      its owner; a user without notes can. */
  lemma {:induction false} OwnerOfNoteNotDeleted(t: Tables, id: Id, env: Env, nid: Id)
    requires id != "" && env.validId(id)
    requires nid in t.notes && t.notes[nid].user == id
    ensures DeleteUser(t, Some(id), env) == Step(Refuse(400, "User has assigned notes"), t)
  {
    assert HasNotes(t.notes, id);
  }
}
