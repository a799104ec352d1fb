# technote-backend: a verified model of the note, user and auth handlers

This project models the request handlers of a small Express/MongoDB backend for
a multi-user note-taking application, and proves properties of them in Dafny.

- **Notes and users.** The model keeps two collections: users
  (`username`, password hash, `roles`, `active`) and notes (owning user,
  `title`, `text`, `completed`).
  - Each CRUD handler is a chain of guards, and each guard ends in a fixed
    HTTP status. A handler changes the collections only on success.
  - Duplicate titles and usernames are detected under a collation of
    strength 2, which compares letters without regard to case.
  - The handlers keep the collections consistent together: usernames are
    distinct up to case, titles are distinct up to case, and every note's
    owner exists.
  - The handlers appear twice. `NotesController` and `UsersController`
    state each one as a decision over a value of the collections. `Store`
    applies each one in place to a store object, and its methods are proved
    to match the decisions.
- **Authentication.** `login` checks credentials and issues two tokens:
  - a one-minute access token carrying `{UserInfo: {username, roles}}`;
  - a fifteen-minute refresh token carrying `{username}`, set in the
    http-only `jwt` cookie with a 24-hour max-age.

  `refresh` exchanges the cookie for a new access token that carries the
  user's current roles. `logout` clears the cookie with the same attributes
  it was set with. The browser's `jwt` cookie slot is modelled so that
  login, logout and refresh can be chained.
- **Bearer gate.** The `verifyJwt` middleware reads
  `Authorization: Bearer <token>` using `startsWith` and `split(" ")[1]`.
  It answers 401 or 403, or it records `req.user` and `req.roles` and calls
  `next` once.

The collaborators are the values of `Runtime.Env`: `ObjectId.isValid`,
bcrypt's hash and compare, jsonwebtoken's sign and verify, the two secrets,
and the schema defaults. `Runtime.Sound` states what the handlers rely on
from them:

- a password matches its own hash;
- a signed token contains no space;
- verifying a token with the secret it was signed with, before it expires,
  returns the signed payload;
- verification fails at or after expiry, and with any other secret.

Lemmas that need these facts take `Sound(env)` as a hypothesis.

Behaviour a reader may not expect, modelled as the code has it:

- `login` tells the two 401 cases apart by their message: "User not found"
  for an unknown or inactive user, "Unauthorized" for a wrong password.
- A collation of strength 2 ignores case but not accents.
- A not-found id gets 400, not 404.
- `updateNote`'s duplicate-title query does not leave out the note being
  updated, so an update that keeps the note's title is refused with 409.
  `NotesController.KeepingOwnTitleRefused` proves this.
- `updateUser` refuses `active: false` with 400.
  `UsersController.DeactivationRefused` proves this.

## Model

| member | source | states |
|---|---|---|
| `Strings.Split` | middleware/verifyJwt.js:10 | `split` on one separator gives at least one part, and no part contains the separator |
| `Strings.JoinSplit` | middleware/verifyJwt.js:10 | joining the parts of a split with the separator gives back the original string |
| `Strings.SplitWithoutSep` | middleware/verifyJwt.js:10 | a string without the separator splits into itself alone |
| `Strings.SplitAtFirst` | middleware/verifyJwt.js:10 | the text before the first separator is part 0, and the rest is split on its own |
| `Strings.TrimStart` | controllers/usersController.js:84 | the result is the suffix left after removing all leading JavaScript white space, and it starts with a non-space |
| `Strings.TrimEnd` | controllers/usersController.js:84 | the result is the prefix left after removing all trailing JavaScript white space, and it ends with a non-space |
| `Strings.TrimEmptyIffBlank` | controllers/usersController.js:84 | `password.trim()` is empty exactly when the password is all white space |
| `Strings.SameUpToCaseIff` | controllers/notesController.js:37-40 | collation equality holds exactly when the lengths are equal and the strings agree letter by letter after lower-casing |
| `Strings.TodoCollidesWithTodo` | controllers/notesController.js:37-43 | "Todo" and "todo" are different strings that the collation treats as equal |
| `Js.ActiveGuardAcceptsOnlyTrue` | controllers/usersController.js:57-58 | `!active \|\| typeof active !== "boolean"` lets through only the literal `true` |
| `Db.FindByUsername` | controllers/authController.js:14 | finds the user whose username is exactly the given name, and finds none when no user has that name |
| `NotesController.GetAllNotes` | controllers/notesController.js:9-21 | 400 exactly when there are no notes. It throws exactly when a note's owner is missing. Whenever every owner exists it answers 200 with exactly one entry per note, holding the note's fields and its owner's username |
| `NotesController.CreateNote` | controllers/notesController.js:27-51 | 201 exactly when all guards pass. A missing field gives 400, and so does an invalid user id. 409 exactly when the fields are given, the user id is valid and a title matches, even when the owner is missing. Otherwise a missing owner gives 400. On success exactly one note is added, and otherwise nothing changes. Consistency is kept |
| `NotesController.UpdateNote` | controllers/notesController.js:57-93 | 200 exactly when all guards pass. Missing fields give 400 "All fields are required". An invalid user id gives 400 "Invalid user ID", checked before the note id's 400 "Invalid note ID". 409 exactly when the fields are valid and some note, the updated one included, has the title. After that, a missing owner gives 400 "User does not exist", checked before a missing note's 400 "Note does not exist". On success only that note is replaced, with the given user, title, text and completed flag. Consistency is kept |
| `NotesController.DeleteNote` | controllers/notesController.js:99-110 | A missing id gives 400. An id that cannot be cast to an ObjectId throws. An unknown id gives 400. Otherwise exactly that note is removed. Consistency is kept |
| `NotesController.CaseVariantTitleRefused` | controllers/notesController.js:37-43 | after "Todo" is created, creating "todo" is refused with 409 and adds nothing |
| `NotesController.KeepingOwnTitleRefused` | controllers/notesController.js:71-77 | an update that keeps the note's own title, up to case, is refused with 409 and changes nothing |
| `NotesController.DuplicateBeatsMissingOwner` | controllers/notesController.js:37-47 | with a duplicate title and a missing owner, the answer is 409, not 400 |
| `NotesController.DeleteNoteRemovesOnlyIt` | controllers/notesController.js:107-110 | a successful delete removes that note, and leaves every other note and every user as they were |
| `UsersController.GetAllUsers` | controllers/usersController.js:9-13 | 400 exactly when there are no users; otherwise 200 with every user's username, roles and active flag, and no password |
| `UsersController.CreateNewUser` | controllers/usersController.js:19-44 | A missing username or password gives 400. A username taken up to case gives 409. Otherwise 201, with exactly one user added, whose stored password is the hash of the given password, whose roles are the given ones when they are a non-empty array and the schema default otherwise, and whose active flag is the default. Consistency is kept |
| `UsersController.UpdateUser` | controllers/usersController.js:50-89 | It never throws. Missing fields give 400. Past the field guard, an invalid id gives 400 "Invalid user ID" and an unknown id gives 400 "User not found". 200 exactly when the fields are given, the id is valid and known, and no other user has the name up to case. On success the username and roles are replaced and the user is set active. The hash is replaced only for a non-blank new password. Consistency is kept |
| `UsersController.UpdateUserAsWritten` | controllers/usersController.js:52-66 | as written, it throws exactly on the requests that pass the field guard (a ReferenceError on `mongoose`, nothing changed); on every other request it is the intended `UpdateUser` |
| `UsersController.UpdateUserAsWrittenNeverSucceeds` | controllers/usersController.js:64 | a request the intended handler accepts throws in the code as written |
| `UsersController.DeactivationRefused` | controllers/usersController.js:52-61 | `active: false` is always refused with 400, and nothing changes |
| `UsersController.KeepingOwnNameAllowed` | controllers/usersController.js:72-79 | a user may keep their own username under any change of case |
| `UsersController.BlankPasswordKeepsHash` | controllers/usersController.js:84-86 | a blank new password leaves the stored hash unchanged |
| `UsersController.DeleteUser` | controllers/usersController.js:94-110 | The notes query runs first: a user who still owns notes gets 400, even when the id is unknown. An invalid id throws. A valid id that owns no notes and is not stored gives 400 "User not found". 200 exactly when the id is valid, owns no notes and is stored, and then exactly that user is removed. Consistency is kept |
| `UsersController.OwnerOfNoteNotDeleted` | controllers/usersController.js:96-100 | deleting a user who owns a note is refused with "User has assigned notes", and nothing changes |
| `Store.Store.CreateNote` | controllers/notesController.js:27-51 | inserts in place, exactly as `NotesController.CreateNote` decides, and keeps the store consistent |
| `Store.Store.UpdateNote` | controllers/notesController.js:79-93 | assigns the found note's fields one by one and saves, exactly as `NotesController.UpdateNote` decides, and keeps the store consistent |
| `Store.Store.DeleteNote` | controllers/notesController.js:99-110 | removes in place, exactly as `NotesController.DeleteNote` decides, and keeps the store consistent |
| `Store.Store.CreateNewUser` | controllers/usersController.js:19-44 | inserts in place, exactly as `UsersController.CreateNewUser` decides, and keeps the store consistent |
| `Store.Store.UpdateUser` | controllers/usersController.js:81-89 | assigns the found user's fields in place, exactly as `UsersController.UpdateUser` decides, and keeps the store consistent |
| `Store.Store.DeleteUser` | controllers/usersController.js:94-110 | removes in place, exactly as `UsersController.DeleteUser` decides, and keeps the store consistent |
| `AuthController.Login` | controllers/authController.js:9-45 | A missing field gives 400. 200 exactly when the exact username names an active user whose hash matches the password. Every other login with both fields gives 401 and no cookie: "User not found" when no active user has the name, "Unauthorized" when the user is active and the password does not match. On 200 the access token is signed over `{username, roles}` with the access secret, expiring in 60 s. The cookie `jwt` holds the refresh token, signed over `{username}` with the refresh secret and expiring in 900 s. The cookie's max-age is longer than the refresh token's lifetime |
| `AuthController.RefreshUser` | controllers/authController.js:63 | finds the user named by the token's `username` claim, or none |
| `AuthController.CreatedUserCanLogIn` | controllers/usersController.js:32-41 | when new users are active by default, a user that `createNewUser` stores gets 200 from `login` with the name and password it was created with |
| `AuthController.Refresh` | controllers/authController.js:51-78 | No cookie gives 401. A token that fails verification gives 403. A missing user gives 401. Otherwise 200 with an access token over the stored user's current roles. It never throws |
| `AuthController.RefreshAsWritten` | controllers/authController.js:63-70 | exactly when the user is missing, it sends 401 and then throws a TypeError; on every other input it is `Refresh` |
| `AuthController.Logout` | controllers/authController.js:84-94 | Always 200. Without a cookie: "No refresh token to delete" and no cookie instruction. With one: a clear of `jwt` with the same attributes that were used to set it |
| `AuthController.ApplyLaws` | controllers/authController.js:39-93 | for every slot, logout's clear removes the cookie login set, a later `jwt` cookie replaces an earlier one, and a second identical clear changes nothing |
| `AuthController.LogoutTwice` | controllers/authController.js:84-94 | two logouts in a row both answer 200; after a login cookie, the second finds nothing to delete |
| `AuthController.LoginThenLogoutEmptiesSlot` | controllers/authController.js:39-93 | after a login the slot holds the refresh token with the login attributes, and a logout then empties it |
| `AuthController.RefreshUsesCurrentRoles` | controllers/authController.js:63-75 | a refresh made with login's cookie before expiry issues a token with the roles the user has at refresh time |
| `AuthController.RefreshForMissingUser` | controllers/authController.js:63-70 | a valid refresh token for a user who is gone gets 401 from the corrected handler, while the code as written sends 401 and then throws |
| `AuthController.ExpiredRefreshTokenForbidden` | controllers/authController.js:31-61 | from 15 minutes after login until the cookie's 24-hour max-age ends, the cookie is still sent and refresh answers 403 |
| `AuthController.LoginHandler` | controllers/authController.js:9-46 | writes the status, the JSON body and the `jwt` cookie that `Login` decides to a fresh response |
| `AuthController.LogoutHandler` | controllers/authController.js:84-95 | writes the status, body and cookie clear that `Logout` decides to a fresh response |
| `VerifyJwt.BearerToken` | middleware/verifyJwt.js:10 | `split(" ")[1]` after the prefix is the text up to the next space, and it contains no space |
| `VerifyJwt.SplitFirstIsPrefix` | middleware/verifyJwt.js:10 | the first part of a split is the prefix that ends at the first separator or at the end of the string |
| `VerifyJwt.Decide` | middleware/verifyJwt.js:3-19 | An absent header, or one without the "Bearer " prefix, gives 401 "Unauthorized". An empty token gives 401 "Token missing". A failed verification gives 403. The request passes exactly when the token verifies to access claims, and it passes with those claims' username and roles |
| `VerifyJwt.BearerTokenExamples` | middleware/verifyJwt.js:10-11 | "Bearer " and "Bearer  x" give an empty token, and "Bearer a b" gives "a" |
| `VerifyJwt.BearerTokenRoundTrip` | middleware/verifyJwt.js:10 | a non-empty token without spaces comes back whole from "Bearer " followed by the token |
| `VerifyJwt.LoginTokenPassesGate` | middleware/verifyJwt.js:13-18 | login's access token, presented before expiry, passes with exactly the username and roles login embedded |
| `VerifyJwt.RefreshTokenRefusedAsBearer` | middleware/verifyJwt.js:13-15 | with distinct secrets, login's refresh token presented as a bearer token gets 403 |
| `VerifyJwt.Middleware` | middleware/verifyJwt.js:3-20 | On a pass it sets `req.user` and `req.roles` and calls `next` exactly once. Otherwise it answers or throws, and leaves the request unchanged |

## Left out

- server.js, middleware/loginLimiter.js and routes/notesRoutes.js are not part of this model. They hold app wiring, the database connection, static files, 404 negotiation, and the rate-limit configuration of a library whose counting code is not visible.
- bcrypt and jsonwebtoken internals are not modelled: hashing, salting, HMAC, base64 and the clock check. They are opaque `Env` functions, and their properties are the hypothesis `Sound`. The clock is a parameter `now` in whole seconds.
- `ObjectId.isValid` is an opaque predicate. The model assumes that Mongoose can cast an id exactly when this predicate holds. Ids are compared as exact strings in canonical form.
- The collation is modelled on ASCII letters only. Unicode case folding and locale rules are not modelled.
- models/User.js and models/Note.js are not part of this model. The schema defaults for `roles`, `active` and `completed` are parameters. A note's `user` is assumed to be an ObjectId reference, which is why a malformed id in `deleteUser`'s note query throws a CastError.
- Fields used as strings (ids, names, titles, text, passwords, the cookie) are modelled as optional strings. The model does not cover non-string JSON in these fields, or the Mongoose casting and bcrypt type errors that such values would cause.
- Array elements of `roles` are modelled as strings, as the schema casts them.
- The model does not cover the branches that need the database to misbehave. These are `if (!note)` after `Note.create`, `if (user)` after `User.create`, and an unacknowledged delete in `deleteNote` and `deleteUser`. The model assumes a create returns the document and a delete is acknowledged.
- `Threw` records the exception that escapes a handler. The fallback error handler's 500 reply and the logging are not modelled.
- The model does not cover concurrency. Each handler runs atomically, so the race between a duplicate check and the following insert is not modelled. The `Promise.all` lookups in `getAllNotes` are not modelled.
- The lists from `getAllNotes` and `getAllUsers` are modelled as maps keyed by id. Their order, the `_id` and `__v` fields, and timestamps are not modelled.
- In `refresh`, a verified payload with no `username` claim is treated as naming no user. Such a payload exists only if the two secrets are equal. How the driver serialises an `undefined` filter is not modelled.
- The browser clears a cookie when the clear instruction's attributes, other than `expires` and `maxAge`, match those the cookie was set with. This is the rule Express documents; domain and path are not modelled. Cookie expiry in the browser is not modelled: the slot keeps a cookie until it is replaced or cleared. `AuthController.ExpiredRefreshTokenForbidden` is therefore stated only for times before the cookie's 24-hour max-age ends.
- `UsersController.UpdateUser`: the duplicate check at usersController.js:72-79 is modelled as "another user holds the name up to case". When the collection already holds two names equal up to case, which the handlers never create, `findOne` may return the user being renamed and the source then answers 200, while the model answers 409. Which document `findOne` returns is not modelled.
- The id the database assigns to a new note or user is a parameter. It is required to be unused.
- `AuthController.LogoutTwice`: the second call reports "No refresh token to delete" only when the stored cookie has the attributes `login` sets. With other attributes the browser keeps the cookie, but both calls still answer 200.

## Findings

| source | as written | input that shows it | evidently intended | confidence | as-written member | corrected member |
|---|---|---|---|---|---|---|
| controllers/authController.js:64 | When the user is gone, `refresh` sends 401 but does not return. Line 69 then reads `username` of `null`, so the handler throws after it has answered. | a `jwt` cookie holding an unexpired refresh token for a user who has since been deleted or renamed | return after the 401. As written, the TypeError is thrown inside the `asyncHandler`-wrapped `jwt.verify` callback, whose last argument is `decoded` rather than `next`, so it does not reach Express's error handler. It becomes an unhandled rejection; the wrapper's code is not part of this model | high; not executed | `AuthController.RefreshAsWritten`, `AuthController.RefreshForMissingUser` | `AuthController.Refresh` |
| controllers/usersController.js:64 | `updateUser` calls `mongoose.Types.ObjectId.isValid`, but the file never imports `mongoose` (its imports are lines 1-4). Every request that passes the field guard throws a ReferenceError. | a body with `id`, `username`, a non-empty `roles` array and `active: true` | check the id with an imported `mongoose` | high; not executed | `UsersController.UpdateUserAsWritten`, `UsersController.UpdateUserAsWrittenNeverSucceeds` | `UsersController.UpdateUser` |
