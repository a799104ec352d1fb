/** The collaborators the handlers call but whose code is not modelled:
    `mongoose.Types.ObjectId.isValid`, bcrypt, jsonwebtoken, the two
    secrets from the process environment, and the defaults the Mongoose
    schemas fill in. Each is a value of `Env`; what the handlers rely on
    about them is stated by `Sound`. */
module Runtime {
  import opened Js

  /** The claims a token carries. `login` and `refresh` sign
      `{UserInfo: {username, roles}}` for access; `login` signs `{username}`
      for refresh. */
  datatype Payload =
    | AccessClaims(username: string, roles: seq<string>)
    | RefreshClaims(username: string)

  /** Field values the schemas supply when a handler does not set them. */
  datatype Defaults = Defaults(roles: seq<string>, active: bool, completed: bool)

  datatype Env = Env(
    validId: string -> bool,                        // ObjectId.isValid
    hash: string -> string,                         // bcrypt.hash(password, 11)
    compare: (string, string) -> bool,              // bcrypt.compare(password, hash)
    sign: (Payload, string, int) -> string,         // jwt.sign(payload, secret, expiry in seconds)
    verify: (string, string, int) -> Option<Payload>, // jwt.verify(token, secret) at a clock reading
    accessSecret: string,                           // ACCESS_TOKEN_SECRET
    refreshSecret: string,                          // REFRESH_TOKEN_SECRET
    defaults: Defaults)

  /** A signed token in compact form: never empty and never containing a
      space (header, payload and signature are base64url joined by dots). */
  predicate IsTokenText(s: string) {
    s != "" && ' ' !in s
  }

  /** What the handlers assume of bcrypt and jsonwebtoken:
      a password matches its own hash; a token verified with the secret it
      was signed with before its expiry yields the signed payload; at or after
      the expiry, or with another secret, verification fails. */
  ghost predicate Sound(env: Env) {
    && (forall pw :: env.compare(pw, env.hash(pw)))
    && (forall p, k, exp :: IsTokenText(env.sign(p, k, exp)))
    && (forall p, k, exp, now :: now < exp ==> env.verify(env.sign(p, k, exp), k, now) == Some(p))
    && (forall p, k, exp, now :: exp <= now ==> env.verify(env.sign(p, k, exp), k, now) == None)
    && (forall p, k, k', exp, now :: k != k' ==> env.verify(env.sign(p, k, exp), k', now) == None)
  }
}
