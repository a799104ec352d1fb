/** controllers/authController.js: `login`, `refresh` and `logout` as
    decisions over the user collection and the `jwt` cookie, the browser's
    cookie slot they write to, and the handlers that write a response. */
module AuthController {
  import opened Js
  import opened Runtime
  import opened Db
  import UsersController

  /** `expiresIn: "1m"` for access tokens, in seconds. */
  const AccessLifetime: int := 60
  /** `expiresIn: "15m"` for refresh tokens, in seconds. */
  const RefreshLifetime: int := 15 * 60
  /** `maxAge: 1000 * 60 * 60 * 24` of the `jwt` cookie, in milliseconds. */
  const CookieMaxAgeMs: int := 1000 * 60 * 60 * 24

  datatype CookieOptions = CookieOptions(httpOnly: bool, secure: bool, sameSite: string, maxAgeMs: Option<int>)

  /** The options `login` sets the `jwt` cookie with. */
  const SetOptions := CookieOptions(true, true, "None", Some(CookieMaxAgeMs))
  /** The options `logout` clears the `jwt` cookie with. */
  const ClearOptions := CookieOptions(true, true, "None", None)

  /** A `Set-Cookie` instruction: `res.cookie` or `res.clearCookie`. */
  datatype CookieOp =
    | SetOp(name: string, value: string, options: CookieOptions)
    | ClearOp(name: string, options: CookieOptions)

  /** A handler's reply and the cookie instruction it sends with it, if any. */
  datatype AuthStep = AuthStep(reply: Reply, cookie: Option<CookieOp>)

  /** The body of `POST /auth`. */
  datatype LoginBody = LoginBody(username: Field, password: Field)

  /** The guard of `login` that decides 200: the exact username names an
      active user whose hash matches the password. */
  predicate LoginAccepted(users: map<Id, User>, body: LoginBody, env: Env) {
    && Present(body.username) && Present(body.password)
    && exists uid | uid in users ::
      && users[uid].username == body.username.value
      && users[uid].active
      && env.compare(body.password.value, users[uid].password)
  }

  /** The access token for a user, issued at clock reading `now` (seconds). */
  function AccessTokenFor(u: User, env: Env, now: int): string {
    env.sign(AccessClaims(u.username, u.roles), env.accessSecret, now + AccessLifetime)
  }

  /** The refresh token for a user, issued at clock reading `now` (seconds). */
  function RefreshTokenFor(u: User, env: Env, now: int): string {
    env.sign(RefreshClaims(u.username), env.refreshSecret, now + RefreshLifetime)
  }

  /** `login`. The lookup is by exact username, without collation. */
  function Login(users: map<Id, User>, body: LoginBody, env: Env, now: int): (r: AuthStep)
    requires NamesDistinct(users)
    ensures !(Present(body.username) && Present(body.password)) ==> r == AuthStep(Refusal(400, "All fields are required"), None)
    ensures r.reply.status == 200 <==> LoginAccepted(users, body, env)
    ensures r.reply.status in {200, 400, 401}
    ensures Present(body.username) && Present(body.password) && !LoginAccepted(users, body, env) ==>
      r.reply.status == 401 && r.cookie.None?
    ensures Present(body.username) && Present(body.password)
            && (forall uid :: uid in users && users[uid].username == body.username.value ==> !users[uid].active) ==>
      r == AuthStep(Refusal(401, "User not found"), None)
    ensures Present(body.username) && Present(body.password)
            && (exists uid | uid in users :: users[uid].username == body.username.value && users[uid].active
                                             && !env.compare(body.password.value, users[uid].password)) ==>
      r == AuthStep(Refusal(401, "Unauthorized"), None)
    ensures r.cookie.Some? <==> r.reply.status == 200
    ensures r.reply.status == 200 ==>
      exists uid | uid in users ::
        && users[uid].username == body.username.value
        && r.reply.body == AccessToken(AccessTokenFor(users[uid], env, now))
        && r.cookie == Some(SetOp("jwt", RefreshTokenFor(users[uid], env, now), SetOptions))
    ensures r.cookie.Some? ==>
      r.cookie.value.options.maxAgeMs.Some? && r.cookie.value.options.maxAgeMs.value > RefreshLifetime * 1000
  {
    if !Present(body.username) || !Present(body.password) then
      AuthStep(Refusal(400, "All fields are required"), None)
    else
      var found := FindByUsername(users, body.username.value);
      if found.None? || !users[found.value].active then
        AuthStep(Refusal(401, "User not found"), None)
      else
        var foundUser := users[found.value];
        if !env.compare(body.password.value, foundUser.password) then
          AuthStep(Refusal(401, "Unauthorized"), None)
        else
          AuthStep(Reply(200, AccessToken(AccessTokenFor(foundUser, env, now))),
                   Some(SetOp("jwt", RefreshTokenFor(foundUser, env, now), SetOptions)))
  }

  /** `decoded.username`: present only in a refresh payload. */
  function ClaimedUsername(p: Payload): Option<string> {
    match p
    case RefreshClaims(name) => Some(name)
    case AccessClaims(_, _) => None
  }

  /** The user `refresh` looks up after the token verifies. */
  function RefreshUser(users: map<Id, User>, claims: Payload): (r: Option<Id>)
    requires NamesDistinct(users)
    ensures r.Some? ==> r.value in users && ClaimedUsername(claims) == Some(users[r.value].username)
    ensures r.None? <==> ClaimedUsername(claims).None? || forall uid :: uid in users ==> Some(users[uid].username) != ClaimedUsername(claims)
  {
    match ClaimedUsername(claims)
    case None => None
    case Some(name) => FindByUsername(users, name)
  }

  /** `refresh` with the early return that the 401 at line 64 evidently
      intends when the user is gone; `RefreshAsWritten` is the code as it stands. */
  function Refresh(users: map<Id, User>, jwt: Field, env: Env, now: int): (o: Outcome)
    requires NamesDistinct(users)
    ensures o.Sent?
    ensures !Present(jwt) ==> o == Sent(Refusal(401, "Unauthorized"))
    ensures Present(jwt) && env.verify(jwt.value, env.refreshSecret, now).None? ==> o == Sent(Refusal(403, "Forbidden"))
    ensures o.Is(200) <==>
      Present(jwt) && env.verify(jwt.value, env.refreshSecret, now).Some?
      && RefreshUser(users, env.verify(jwt.value, env.refreshSecret, now).value).Some?
    ensures o.Is(200) ==>
      exists uid | uid in users ::
        && Some(users[uid].username) == ClaimedUsername(env.verify(jwt.value, env.refreshSecret, now).value)
        && o.reply.body == AccessToken(AccessTokenFor(users[uid], env, now))
    ensures Present(jwt) && env.verify(jwt.value, env.refreshSecret, now).Some?
            && RefreshUser(users, env.verify(jwt.value, env.refreshSecret, now).value).None? ==>
      o == Sent(Refusal(401, "Unauthorized"))
    ensures o.reply.status in {200, 401, 403}
  {
    if !Present(jwt) then Sent(Refusal(401, "Unauthorized"))
    else match env.verify(jwt.value, env.refreshSecret, now)
      case None => Sent(Refusal(403, "Forbidden"))
      case Some(decoded) =>
        var found := RefreshUser(users, decoded);
        if found.None? then Sent(Refusal(401, "Unauthorized"))
        else Sent(Reply(200, AccessToken(AccessTokenFor(users[found.value], env, now))))
  }

  /** `refresh` as written: when the user is gone, line 64 sends 401 but does
      not return, and line 69 then reads `username` of `null`. The exception
      is thrown inside the `asyncHandler`-wrapped callback of `jwt.verify`,
      whose last argument (the one the wrapper would use as `next`) is
      `decoded`, so it is not forwarded to Express's error handler. */
  function RefreshAsWritten(users: map<Id, User>, jwt: Field, env: Env, now: int): (o: Outcome)
    requires NamesDistinct(users)
    ensures o.SentThenThrew? <==>
      Present(jwt) && env.verify(jwt.value, env.refreshSecret, now).Some?
      && RefreshUser(users, env.verify(jwt.value, env.refreshSecret, now).value).None?
    ensures o.SentThenThrew? ==> o.reply == Refusal(401, "Unauthorized") && o.error.TypeError?
    ensures !o.SentThenThrew? ==> o == Refresh(users, jwt, env, now)
  {
    if !Present(jwt) then Sent(Refusal(401, "Unauthorized"))
    else match env.verify(jwt.value, env.refreshSecret, now)
      case None => Sent(Refusal(403, "Forbidden"))
      case Some(decoded) =>
        var found := RefreshUser(users, decoded);
        if found.None? then
          SentThenThrew(Refusal(401, "Unauthorized"), TypeError("Cannot read properties of null (reading 'username')"))
        else Sent(Reply(200, AccessToken(AccessTokenFor(users[found.value], env, now))))
  }

  /** `logout`: always 200; with a cookie it clears it with the attributes it was set with. */
  function Logout(jwt: Field): (r: AuthStep)
    ensures r.reply.status == 200
    ensures r.cookie.Some? <==> Present(jwt)
    ensures !Present(jwt) ==> r.reply.body == Message("No refresh token to delete")
    ensures r.cookie.Some? ==>
      r.cookie.value.ClearOp? && r.cookie.value.name == "jwt" && SameScope(r.cookie.value.options, SetOptions)
  {
    if !Present(jwt) then AuthStep(Reply(200, Message("No refresh token to delete")), None)
    else AuthStep(Reply(200, Message("Cookie cleared")), Some(ClearOp("jwt", ClearOptions)))
  }

  // The browser's `jwt` cookie slot.

  datatype StoredCookie = StoredCookie(value: string, options: CookieOptions)

  /** A clearing instruction removes a cookie only when its options other
      than `expires` and `maxAge` equal those the cookie was set with. */
  predicate SameScope(a: CookieOptions, b: CookieOptions) {
    a.httpOnly == b.httpOnly && a.secure == b.secure && a.sameSite == b.sameSite
  }

  /** The slot after the browser applies a handler's cookie instruction. */
  function Apply(slot: Option<StoredCookie>, op: Option<CookieOp>): (r: Option<StoredCookie>)
    ensures op.None? ==> r == slot
    ensures op.Some? && op.value.SetOp? && op.value.name == "jwt" ==>
      r == Some(StoredCookie(op.value.value, op.value.options))
    ensures op.Some? && op.value.ClearOp? ==>
      r == (if op.value.name == "jwt" && slot.Some? && SameScope(slot.value.options, op.value.options) then None else slot)
  {
    match op
    case None => slot
    case Some(SetOp(name, value, options)) =>
      if name == "jwt" then Some(StoredCookie(value, options)) else slot
    case Some(ClearOp(name, options)) =>
      if name == "jwt" && slot.Some? && SameScope(slot.value.options, options) then None else slot
  }

  /** Laws of the cookie slot, for every slot: whatever it held, `logout`'s
      clear removes a cookie `login` set; a later `jwt` cookie replaces an
      earlier one; and clearing a second time changes nothing. */
  lemma {:induction false} ApplyLaws(slot: Option<StoredCookie>, v: string, w: string, op: CookieOp)
    requires v != ""
    ensures Apply(Apply(slot, Some(SetOp("jwt", v, SetOptions))), Logout(Some(v)).cookie) == None
    ensures Apply(Apply(slot, Some(SetOp("jwt", v, SetOptions))), Some(SetOp("jwt", w, SetOptions)))
      == Apply(slot, Some(SetOp("jwt", w, SetOptions)))
    ensures op.ClearOp? ==> Apply(Apply(slot, Some(op)), Some(op)) == Apply(slot, Some(op))
  {
  }

  /** A user that `createNewUser` stores can log in with the name and
      password it was created with, provided new users are active by default:
      bcrypt's compare accepts the hash that `createNewUser` stored. */
  lemma {:induction false} CreatedUserCanLogIn(t: Tables, req: UsersController.NewUser, env: Env, newId: Id, now: int)
    requires Consistent(t) && Sound(env) && env.defaults.active
    requires newId !in t.users
    requires UsersController.CreateNewUser(t, req, env, newId).out.Is(201)
    ensures var after := UsersController.CreateNewUser(t, req, env, newId).after;
      NamesDistinct(after.users)
      && Login(after.users, LoginBody(req.username, req.password), env, now).reply.status == 200
  {
    var after := UsersController.CreateNewUser(t, req, env, newId).after;
    assert after.users[newId].username == req.username.value;
    assert env.compare(req.password.value, after.users[newId].password);
    assert LoginAccepted(after.users, LoginBody(req.username, req.password), env);
  }

  /** `req.cookies.jwt` as the browser sends it from the slot. */
  function CookieSent(slot: Option<StoredCookie>): Field {
    match slot
    case None => None
    case Some(c) => Some(c.value)
  }

  /** Logging out twice in a row answers 200 both times; when the slot holds
      the cookie `login` set, the first call clears it and the second finds
      nothing to delete. */
  lemma {:induction false} LogoutTwice(slot: Option<StoredCookie>)
    ensures var r1 := Logout(CookieSent(slot));
      var r2 := Logout(CookieSent(Apply(slot, r1.cookie)));
      r1.reply.status == 200 && r2.reply.status == 200
    ensures slot.Some? && SameScope(slot.value.options, SetOptions) ==>
      var r1 := Logout(CookieSent(slot));
      var r2 := Logout(CookieSent(Apply(slot, r1.cookie)));
      r2 == AuthStep(Reply(200, Message("No refresh token to delete")), None)
  {
    var r1 := Logout(CookieSent(slot));
    if slot.Some? && SameScope(slot.value.options, SetOptions) {
      if Present(CookieSent(slot)) {
        assert Apply(slot, r1.cookie) == None;
      } else {
        assert r1.cookie.None?;
      }
    }
  }

  /** After a successful login the slot holds the refresh token; a logout
      then empties it. */
  lemma {:induction false} LoginThenLogoutEmptiesSlot(users: map<Id, User>, body: LoginBody, env: Env, now: int, slot: Option<StoredCookie>)
    requires NamesDistinct(users) && Sound(env)
    requires Login(users, body, env, now).reply.status == 200
    ensures var s1 := Apply(slot, Login(users, body, env, now).cookie);
      s1.Some? && Present(CookieSent(s1)) && s1.value.options == SetOptions
      && Apply(s1, Logout(CookieSent(s1)).cookie) == None
  {
    var r := Login(users, body, env, now);
    var uid :| uid in users && users[uid].username == body.username.value
      && r.cookie == Some(SetOp("jwt", RefreshTokenFor(users[uid], env, now), SetOptions));
    assert IsTokenText(RefreshTokenFor(users[uid], env, now));
  }

  /** A refresh with the cookie `login` set, made while the refresh token is
      unexpired, issues an access token that carries the roles the user has
      NOW, in whatever state the collection has reached since login. */
  lemma {:induction false} RefreshUsesCurrentRoles(
    users: map<Id, User>, body: LoginBody, env: Env, now: int,
    users': map<Id, User>, uid': Id, later: int)
    requires NamesDistinct(users) && NamesDistinct(users') && Sound(env)
    requires Login(users, body, env, now).reply.status == 200
    requires now <= later < now + RefreshLifetime
    requires uid' in users' && users'[uid'].username == body.username.value
    ensures var cookie := Apply(None, Login(users, body, env, now).cookie);
      Refresh(users', CookieSent(cookie), env, later)
        == Sent(Reply(200, AccessToken(env.sign(AccessClaims(body.username.value, users'[uid'].roles), env.accessSecret, later + AccessLifetime))))
  {
    var r := Login(users, body, env, now);
    var uid :| uid in users && users[uid].username == body.username.value
      && r.cookie == Some(SetOp("jwt", RefreshTokenFor(users[uid], env, now), SetOptions));
    var token := RefreshTokenFor(users[uid], env, now);
    assert IsTokenText(token);
    assert env.verify(token, env.refreshSecret, later) == Some(RefreshClaims(body.username.value));
    assert FindByUsername(users', body.username.value) == Some(uid');
  }

  /** When the user named in a valid refresh token is gone, the corrected
      `refresh` answers 401 and issues nothing, whereas the code as written
      answers 401 and then throws reading `username` of `null`. */
  lemma {:induction false} RefreshForMissingUser(
    users: map<Id, User>, body: LoginBody, env: Env, now: int,
    users': map<Id, User>, later: int)
    requires NamesDistinct(users) && NamesDistinct(users') && Sound(env)
    requires Login(users, body, env, now).reply.status == 200
    requires now <= later < now + RefreshLifetime
    requires forall uid :: uid in users' ==> users'[uid].username != body.username.value
    ensures var jwt := CookieSent(Apply(None, Login(users, body, env, now).cookie));
      && Refresh(users', jwt, env, later) == Sent(Refusal(401, "Unauthorized"))
      && RefreshAsWritten(users', jwt, env, later).SentThenThrew?
  {
    var r := Login(users, body, env, now);
    var uid :| uid in users && users[uid].username == body.username.value
      && r.cookie == Some(SetOp("jwt", RefreshTokenFor(users[uid], env, now), SetOptions));
    var token := RefreshTokenFor(users[uid], env, now);
    assert IsTokenText(token);
    assert env.verify(token, env.refreshSecret, later) == Some(RefreshClaims(body.username.value));
  }

  /** The cookie outlives the token it carries: between 15 minutes and 24
      hours after login the browser still sends it, and `refresh` answers 403. */
  lemma {:induction false} ExpiredRefreshTokenForbidden(
    users: map<Id, User>, body: LoginBody, env: Env, now: int,
    users': map<Id, User>, later: int)
    requires NamesDistinct(users) && NamesDistinct(users') && Sound(env)
    requires Login(users, body, env, now).reply.status == 200
    requires now + RefreshLifetime <= later < now + CookieMaxAgeMs / 1000
    ensures now + RefreshLifetime < now + CookieMaxAgeMs / 1000
    ensures var jwt := CookieSent(Apply(None, Login(users, body, env, now).cookie));
      Present(jwt) && Refresh(users', jwt, env, later) == Sent(Refusal(403, "Forbidden"))
  {
    var r := Login(users, body, env, now);
    var uid :| uid in users && users[uid].username == body.username.value
      && r.cookie == Some(SetOp("jwt", RefreshTokenFor(users[uid], env, now), SetOptions));
    var token := RefreshTokenFor(users[uid], env, now);
    assert IsTokenText(token);
    assert env.verify(token, env.refreshSecret, later) == None;
  }

  /** The Express response a handler writes: status, JSON body, and the
      `Set-Cookie` instructions in the order they were made. */
  class Response {
    var status: int
    var body: Option<Body>
    var cookies: seq<CookieOp>

    constructor ()
      ensures status == 200 && body == None && cookies == []
    {
      status, body, cookies := 200, None, [];
    }

    /** `res.status(code)`. */
    method Status(code: int)
      modifies this
      ensures status == code && body == old(body) && cookies == old(cookies)
    {
      status := code;
    }

    /** `res.json(b)`. */
    method Json(b: Body)
      modifies this
      ensures body == Some(b) && status == old(status) && cookies == old(cookies)
    {
      body := Some(b);
    }

    /** `res.cookie(name, value, options)`. */
    method Cookie(name: string, value: string, options: CookieOptions)
      modifies this
      ensures cookies == old(cookies) + [SetOp(name, value, options)]
      ensures status == old(status) && body == old(body)
    {
      cookies := cookies + [SetOp(name, value, options)];
    }

    /** `res.clearCookie(name, options)`. */
    method ClearCookie(name: string, options: CookieOptions)
      modifies this
      ensures cookies == old(cookies) + [ClearOp(name, options)]
      ensures status == old(status) && body == old(body)
    {
      cookies := cookies + [ClearOp(name, options)];
    }
  }

  function OpsOf(op: Option<CookieOp>): seq<CookieOp> {
    if op.Some? then [op.value] else []
  }

  /** `login` writing to a fresh response. */
  method LoginHandler(res: Response, users: map<Id, User>, body: LoginBody, env: Env, now: int)
    requires NamesDistinct(users)
    requires res.status == 200 && res.body == None
    modifies res
    ensures var r := Login(users, body, env, now);
      res.status == r.reply.status && res.body == Some(r.reply.body)
      && res.cookies == old(res.cookies) + OpsOf(r.cookie)
  {
    if !Present(body.username) || !Present(body.password) {
      res.Status(400);
      res.Json(Message("All fields are required"));
      return;
    }
    var username, password := body.username.value, body.password.value;
    var found := FindByUsername(users, username);
    if found.None? || !users[found.value].active {
      res.Status(401);
      res.Json(Message("User not found"));
      return;
    }
    var foundUser := users[found.value];
    var pwdMatch := env.compare(password, foundUser.password);
    if !pwdMatch {
      res.Status(401);
      res.Json(Message("Unauthorized"));
      return;
    }
    var accessToken := env.sign(AccessClaims(foundUser.username, foundUser.roles), env.accessSecret, now + AccessLifetime);
    var refreshToken := env.sign(RefreshClaims(foundUser.username), env.refreshSecret, now + RefreshLifetime);
    res.Cookie("jwt", refreshToken, SetOptions);
    res.Json(AccessToken(accessToken));
  }

  /** `logout` writing to a fresh response. */
  method LogoutHandler(res: Response, jwt: Field)
    requires res.status == 200 && res.body == None
    modifies res
    ensures var r := Logout(jwt);
      res.status == r.reply.status && res.body == Some(r.reply.body)
      && res.cookies == old(res.cookies) + OpsOf(r.cookie)
  {
    if !Present(jwt) {
      res.Status(200);
      res.Json(Message("No refresh token to delete"));
      return;
    }
    res.ClearCookie("jwt", ClearOptions);
    res.Json(Message("Cookie cleared"));
  }
}
