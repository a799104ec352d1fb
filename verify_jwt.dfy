/** middleware/verifyJwt.js: the `Authorization` header parser, the
    401/403/next decision, and the middleware that records the caller's
    identity on the request. */
module VerifyJwt {
  import opened Js
  import opened Strings
  import opened Runtime
  import opened Db
  import AuthController

  const Prefix := "Bearer "

  /** `authHeader.split(" ")[1]` once the header is known to start with
      `"Bearer "`: the text after the prefix up to the next space. */
  function BearerToken(header: string): (token: string)
    requires StartsWith(header, Prefix)
    ensures ' ' !in token
    ensures StartsWith(header[|Prefix|..], token)
    ensures token == header[|Prefix|..] || header[|Prefix| + |token|] == ' '
  {
    var rest := header[|Prefix|..];
    assert header == "Bearer" + [' '] + rest;
    SplitAtFirst("Bearer", rest, ' ');
    var parts := Split(header, ' ');
    assert parts[1] == Split(rest, ' ')[0];
    SplitFirstIsPrefix(rest, ' ');
    parts[1]
  }

  /** The first part of a split is the text before the first separator. */
  lemma {:induction false} SplitFirstIsPrefix(s: string, sep: char)
    ensures var first := Split(s, sep)[0];
      |first| <= |s| && s[..|first|] == first && (first == s || s[|first|] == sep)
    decreases |s|
  {
    if s != [] && s[0] != sep {
      SplitFirstIsPrefix(s[1..], sep);
    }
  }

  /** What the middleware does with a request. */
  datatype Gate =
    | Deny(reply: Reply)                        // answers and does not call next
    | Pass(user: string, roles: seq<string>)    // sets req.user and req.roles, calls next
    | Crash(error: JsError)                     // throws before setting anything

  /** `verifyJwt`'s decision for a header (`None` when absent) at clock reading `now`. */
  function Decide(header: Option<string>, env: Env, now: int): (g: Gate)
    ensures header.None? || !StartsWith(header.value, Prefix) ==> g == Deny(Refusal(401, "Unauthorized"))
    ensures header.Some? && StartsWith(header.value, Prefix) && BearerToken(header.value) == "" ==>
      g == Deny(Refusal(401, "Token missing"))
    ensures header.Some? && StartsWith(header.value, Prefix) && BearerToken(header.value) != ""
            && env.verify(BearerToken(header.value), env.accessSecret, now).None? ==>
      g == Deny(Refusal(403, "Invalid or expired token"))
    ensures g.Pass? <==>
      header.Some? && StartsWith(header.value, Prefix) && BearerToken(header.value) != ""
      && env.verify(BearerToken(header.value), env.accessSecret, now).Some?
      && env.verify(BearerToken(header.value), env.accessSecret, now).value.AccessClaims?
    ensures g.Pass? ==>
      env.verify(BearerToken(header.value), env.accessSecret, now) == Some(AccessClaims(g.user, g.roles))
  {
    if header.None? || !StartsWith(header.value, Prefix) then Deny(Refusal(401, "Unauthorized"))
    else
      var token := BearerToken(header.value);
      if token == "" then Deny(Refusal(401, "Token missing"))
      else match env.verify(token, env.accessSecret, now)
        case None => Deny(Refusal(403, "Invalid or expired token"))
        case Some(AccessClaims(username, roles)) => Pass(username, roles)
        case Some(RefreshClaims(_)) => Crash(TypeError("Cannot read properties of undefined (reading 'username')"))
  }

  /** The header shapes the `split(" ")[1]` rule treats specially. */
  lemma BearerTokenExamples()
    ensures StartsWith("Bearer ", Prefix) && BearerToken("Bearer ") == ""
    ensures StartsWith("Bearer  x", Prefix) && BearerToken("Bearer  x") == ""
    ensures StartsWith("Bearer a b", Prefix) && BearerToken("Bearer a b") == "a"
  {
    assert "Bearer "[|Prefix|..] == "";
    assert "Bearer  x"[|Prefix|..] == " x";
    assert "Bearer a b"[|Prefix|..] == "a b";
    SplitAtFirst("a", "b", ' ');
  }

  /** A token that is not empty and has no space comes back whole from the header. */
  lemma {:induction false} BearerTokenRoundTrip(token: string)
    requires IsTokenText(token)
    ensures StartsWith(Prefix + token, Prefix) && BearerToken(Prefix + token) == token
  {
    var header := Prefix + token;
    assert header[|Prefix|..] == token;
    SplitWithoutSep(token, ' ');
    SplitFirstIsPrefix(token, ' ');
  }

  /** An access token `login` issued, presented as a bearer header before it
      expires, lets the request through with exactly the username and roles
      `login` embedded. */
  lemma {:induction false} LoginTokenPassesGate(
    users: map<Id, User>, body: AuthController.LoginBody, env: Env, now: int, later: int)
    requires NamesDistinct(users) && Sound(env)
    requires AuthController.Login(users, body, env, now).reply.status == 200
    requires now <= later < now + AuthController.AccessLifetime
    ensures var r := AuthController.Login(users, body, env, now);
      r.reply.body.AccessToken? &&
      exists uid | uid in users ::
        && users[uid].username == body.username.value
        && Decide(Some(Prefix + r.reply.body.token), env, later) == Pass(users[uid].username, users[uid].roles)
  {
    var r := AuthController.Login(users, body, env, now);
    var uid :| uid in users && users[uid].username == body.username.value
      && r.reply.body == AccessToken(AuthController.AccessTokenFor(users[uid], env, now));
    var token := AuthController.AccessTokenFor(users[uid], env, now);
    assert IsTokenText(token);
    BearerTokenRoundTrip(token);
    assert env.verify(token, env.accessSecret, later) == Some(AccessClaims(users[uid].username, users[uid].roles));
  }

  /** The refresh token cannot stand in for an access token: signed with the
      other secret, it fails verification and the request gets 403. */
  lemma {:induction false} RefreshTokenRefusedAsBearer(
    users: map<Id, User>, body: AuthController.LoginBody, env: Env, now: int, later: int)
    requires NamesDistinct(users) && Sound(env) && env.accessSecret != env.refreshSecret
    requires AuthController.Login(users, body, env, now).reply.status == 200
    ensures var r := AuthController.Login(users, body, env, now);
      r.cookie.Some? && r.cookie.value.SetOp? &&
      Decide(Some(Prefix + r.cookie.value.value), env, later) == Deny(Refusal(403, "Invalid or expired token"))
  {
    var r := AuthController.Login(users, body, env, now);
    var uid :| uid in users && users[uid].username == body.username.value
      && r.cookie == Some(AuthController.SetOp("jwt", AuthController.RefreshTokenFor(users[uid], env, now), AuthController.SetOptions));
    var token := AuthController.RefreshTokenFor(users[uid], env, now);
    assert IsTokenText(token);
    BearerTokenRoundTrip(token);
    assert env.verify(token, env.accessSecret, later) == None;
  }

  /** The request as the middleware sees and changes it. */
  class Request {
    const authorization: Option<string>
    var user: Option<string>
    var roles: Option<seq<string>>
    /** How many times `next()` has been called for this request. */
    var nextCalls: nat

    constructor (authorization: Option<string>)
      ensures this.authorization == authorization
      ensures user == None && roles == None && nextCalls == 0
    {
      this.authorization := authorization;
      user, roles, nextCalls := None, None, 0;
    }
  }

  /** `verifyJwt(req, res, next)`: on success records the caller and calls
      `next` once; otherwise answers (or throws) and leaves the request as it was. */
  method Middleware(req: Request, env: Env, now: int) returns (sent: Option<Outcome>)
    modifies req
    ensures var g := Decide(req.authorization, env, now);
      match g
      case Pass(u, rs) =>
        sent == None && req.user == Some(u) && req.roles == Some(rs) && req.nextCalls == old(req.nextCalls) + 1
      case Deny(reply) =>
        sent == Some(Sent(reply)) && unchanged(req)
      case Crash(e) =>
        sent == Some(Threw(e)) && unchanged(req)
  {
    var authHeader := req.authorization;
    if authHeader.None? || !StartsWith(authHeader.value, Prefix) {
      return Some(Sent(Refusal(401, "Unauthorized")));
    }
    var token := BearerToken(authHeader.value);
    if token == "" {
      return Some(Sent(Refusal(401, "Token missing")));
    }
    var decoded := env.verify(token, env.accessSecret, now);
    if decoded.None? {
      return Some(Sent(Refusal(403, "Invalid or expired token")));
    }
    if !decoded.value.AccessClaims? {
      return Some(Threw(TypeError("Cannot read properties of undefined (reading 'username')")));
    }
    req.user := Some(decoded.value.username);
    req.roles := Some(decoded.value.roles);
    req.nextCalls := req.nextCalls + 1;
    sent := None;
  }
}
