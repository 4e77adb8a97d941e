# yodlr-backend: access control and the user store, in Dafny

This project models the two parts of the yodlr backend whose behaviour can be stated
precisely, and proves properties of the model.

- **The authentication middleware** (`middleware/auth.js`). `authenticateJWT` takes the
  `authorization` header and removes one leading `Bearer ` or `bearer `. It trims the rest
  and verifies it as a JSON Web Token. When verification succeeds, the claims become
  `res.locals.user`. The request always goes on without an error. The guards `ensureAdmin`
  and `ensureCorrectUserOrAdmin` let a request through or reject it with a 403 error.
- **The `User` model** (`models/user.js`). Its static methods `authenticate`, `add`,
  `getAllUsers`, `getUser`, `delete`, `update` and `activate` read and then change the
  users table.

Files, one module each:

| file | module | models |
|---|---|---|
| `wrappers.dfy` | `Wrappers` | `Option` (an absent value) and `Result` (a value or a thrown error) |
| `js_text.dfy` | `JsText` | the JavaScript built-ins the core uses: `trim`, unary `+` on a string, `${n}` |
| `tokens.dfy` | `Tokens` | jsonwebtoken's sign and verify, and `createToken` |
| `auth.dfy` | `AuthMiddleware` | `middleware/auth.js` |
| `user.dfy` | `UserModel` | `models/user.js` |
| `scenarios.dfy` | `Scenarios` | properties that span both components, and the three-user test fixture |

How the model is built:

- **Foreign libraries.** bcrypt and jsonwebtoken stay abstract. A `Hasher` holds a
  `hash(salt, password)` and a `compare(password, hash)` function. A `Codec` holds
  `sign(secret, claims)` and `verify(secret, token)`. The laws the proofs need are
  predicates that lemmas take as hypotheses, not axioms:
  - `Sound`: a password matches its own hash, for every salt.
  - `Faithful`: a token verifies to its claims under the key that signed it, and never
    verifies under another key. A compact token also has no whitespace at its ends.
- **Inputs from outside.** The random salt and the issue time `iat` are parameters.
- **The users table.** The source changes the table in place, so `UserModel.UserStore` is
  a class. Its `rows: map<int, UserRow>` field is the table. Its `nextId` field is the id
  sequence, which starts at 1 (`TRUNCATE … RESTART IDENTITY`).
- **Step functions.** Each operation is also written as a pure step function
  (`AddStep`, `UpdateStep`, …). A step function maps the table before the call to the
  table after it, plus the value returned or the error thrown. Each class method follows
  the source's order of queries, checks and writes, and is proved to agree with its step
  function. The lemmas about the step functions state what the source promises.
- **The guards** are pure decisions, so they are functions. `authenticateJWT` assigns
  `res.locals.user` in place. It is a module-level method that takes a `Locals` object,
  and it may modify only that object's `user` field.

Points where the code does something other than what its comments or names suggest. The
model follows the code:

- **`update` always checks the current password.** The comment at `models/user.js:166`
  says the current password is checked when the password is being updated. The code
  then compares `currentPassword` a second time, with no condition, at
  `models/user.js:186-193`. So every update needs a matching `currentPassword`.
  - When it is missing, bcrypt is handed `undefined`. bcrypt then raises a plain error,
    which has no HTTP status. The model calls this `HashArgumentError`.
- **Only the first letter of the scheme is case-insensitive.** The regular expression
  `/^[Bb]earer /` at `middleware/auth.js:21` removes `Bearer ` and `bearer ` only.
  `BEARER x` reaches `verify` unchanged.
- **`state` is any string.** `add` stores the `state` it is given
  (`models/user.js:64`, `:85`). `activate` only compares it with `"active"`
  (`models/user.js:240`).
- **`update` does not check email uniqueness.** `add` refuses a duplicate email, but
  `update` writes the new email without a check. Email uniqueness is therefore not an
  invariant of the table. Lemma `UpdateCanDuplicateEmail` shows a case.
  - `authenticate` reads the first row with the email. With duplicate emails, that row
    can be any of them, so `AuthenticateOutcome` allows each.

## Model

| member | source | states |
|---|---|---|
| `JsText.Trim` | middleware/auth.js:21 | `trim` returns a slice of its input with only whitespace removed at each end; the result has no outer whitespace, and a string without outer whitespace is returned unchanged |
| `JsText.NatToString` | models/user.js:125 | `${n}` is a non-empty run of digits with no leading zero (unless n is 0) |
| `JsText.DigitsValueOfNatToString` | models/user.js:125 | reading the decimal text of n back as digits gives n |
| `JsText.StringToNumber` | middleware/auth.js:54 | `+s` of a blank string is 0, and a negative result needs a leading minus after trimming |
| `JsText.StringToNumberOfTrimmed` | middleware/auth.js:54 | surrounding whitespace does not change `+s` |
| `JsText.StringToNumberOfBlank` | middleware/auth.js:54 | a string of whitespace only, or the empty string, converts to 0 |
| `JsText.StringToNumberOfPlus` | middleware/auth.js:54 | `+d` converts to the decimal value of the digits d |
| `JsText.StringToNumberOfMinus` | middleware/auth.js:54 | `-d` converts to minus the decimal value of the digits d |
| `JsText.StringToNumberOfPrefixed` | middleware/auth.js:54 | `0x`, `0o` and `0b` (either case) read the rest in base 16, 8 and 2 |
| `JsText.DigitsValueOfDigits` | middleware/auth.js:54 | every run of decimal digits has a numeric value |
| `JsText.StringToNumberOfDigits` | middleware/auth.js:54 | a run of decimal digits converts to its non-negative decimal value |
| `JsText.StringToNumberOfNatToString` | middleware/auth.js:54 | `+` applied to the decimal text of n gives n, so the path `/users/<n>` converts to the id n |
| `Tokens.SubjectClaims` | helpers/token.test.js:25-33 | createToken signs the user's id, an isAdmin that is false when the user has none, and the issue time |
| `Tokens.CreateToken` | helpers/token.test.js:4-33 | for a library that keeps its laws, a created token has no outer whitespace, so trimming keeps it, and no other key verifies it |
| `Tokens.CreateTokenRoundTrip` | helpers/token.test.js:4-33 | a created token verifies, under the same key, to {id, isAdmin, iat} |
| `AuthMiddleware.StripBearer` | middleware/auth.js:21 | exactly one leading `Bearer ` or `bearer ` is removed; any other header is left as it is |
| `AuthMiddleware.AuthorizationToken` | middleware/auth.js:18-21 | a token is looked for iff there are headers with a non-empty `authorization`; it is the header without the scheme, trimmed |
| `AuthMiddleware.AttachedUser` | middleware/auth.js:20-26 | locals.user becomes the verified claims when the token verifies, and keeps its old value otherwise (no header, or a token that fails) |
| `AuthMiddleware.AuthenticateJWT` | middleware/auth.js:16-31 | always calls `next()` with no error; sets only `locals.user`, to AttachedUser; other locals unchanged |
| `AuthMiddleware.EnsureAdmin` | middleware/auth.js:38-49 | goes on iff a user is attached and its isAdmin is truthy; otherwise rejects with status 403 |
| `AuthMiddleware.ParamId` | middleware/auth.js:54 | `+req.params.id` is NaN when the parameter is missing, and the decimal value when it is a run of digits |
| `AuthMiddleware.EnsureCorrectUserOrAdmin` | middleware/auth.js:51-63 | goes on iff a user is attached and it is an admin or its id equals `+req.params.id`; otherwise rejects with status 403 |
| `AuthMiddleware.AdminPassesOwnershipGuard` | middleware/auth.js:38-63 | whatever passes ensureAdmin passes ensureCorrectUserOrAdmin for every path |
| `AuthMiddleware.AnonymousRejected` | middleware/auth.js:38-63 | with no attached user both guards reject with 403, whatever the parameters |
| `AuthMiddleware.OwnerPassesOwnPath` | middleware/auth.js:54 | a user whose id is n passes ensureCorrectUserOrAdmin on `/users/<n>` |
| `AuthMiddleware.NonOwnerRejected` | middleware/auth.js:54-58 | a non-admin whose id is not n is rejected on `/users/<n>` |
| `AuthMiddleware.BearerHeaderToken` | middleware/auth.js:21 | `Bearer <t>` and `bearer <t>` both yield the token t |
| `AuthMiddleware.OtherSchemeKept` | middleware/auth.js:21 | `BEARER <t>` is not stripped: the whole header reaches verify |
| `AuthMiddleware.IssuedTokenAttached` | middleware/auth.test.js:14-32 | a token signed with the server's key attaches exactly its claims |
| `AuthMiddleware.ForeignTokenIgnored` | middleware/auth.test.js:45-54 | a token signed with another key leaves locals.user as it was |
| `AuthMiddleware.GuardExamples` | middleware/auth.test.js:57-128 | the requests in the guard tests get the decisions those tests expect |
| `UserModel.AuthenticateOutcome` | models/user.js:24-48 | for an unknown email the only outcome is UnauthorizedError("Invalid email/password"); a success is a row with that email whose hash matches the password, returned without the password |
| `UserModel.AuthenticateFailsUniformly` | models/user.js:35-43 | every failure of authenticate is UnauthorizedError("Invalid email/password"), whether the email is unknown or the password wrong |
| `UserModel.AuthenticateUnique` | models/user.js:24-48 | with unique emails, authenticate succeeds iff the password matches that row, and returns the row without its password |
| `UserModel.UserStore.Authenticate` | models/user.js:24-48 | the result is one the query allows: the same error for no row and for a bad password, and on success a row with that email whose hash matches the password, without the password |
| `UserModel.AddStep` | models/user.js:64-91 | add fails iff the email is present, with BadRequest "Duplicate email: <email>" and no change; otherwise the new row gets the next id |
| `UserModel.AddInsertsOneRow` | models/user.js:78-90 | a successful add inserts exactly one row, under a fresh id, with the given fields and the hash of the password, keeps every other row, and returns it without the password |
| `UserModel.AddKeepsEmailsUnique` | models/user.js:66-75 | the duplicate check keeps emails unique |
| `UserModel.AddThenAuthenticate` | models/user.js:24-91 | after add, authenticate with the same email and password returns the new user |
| `UserModel.UserStore.Add` | models/user.js:64-91 | the table and result agree with AddStep; the id invariant is kept |
| `UserModel.AllPublic` | models/user.js:98-105 | getAllUsers lists every row, and only rows, without passwords |
| `UserModel.AllPublicSize` | models/user.js:98-105 | getAllUsers lists as many users as there are rows |
| `UserModel.UserStore.GetAllUsers` | models/user.js:98-105 | returns every row without its password, one user per row; changes nothing |
| `UserModel.FindUser` | models/user.js:114-129 | getUser returns the row without its password iff the id exists, else NotFound "No user found with id: <id>" |
| `UserModel.UserStore.GetUser` | models/user.js:114-129 | agrees with FindUser and changes nothing |
| `UserModel.DeleteStep` | models/user.js:138-152 | delete succeeds iff the id exists and then removes exactly that id; otherwise NotFound "No user found with id: <id>" and no change; the id sequence never moves |
| `UserModel.DeleteRemovesOneRow` | models/user.js:138-152 | delete removes exactly the row with that id and no other; with no such row it fails with NotFound and changes nothing |
| `UserModel.DeleteThenGone` | models/user.js:114-152 | after a delete, getUser and a second delete fail with NotFound |
| `UserModel.DeletedIdNotReissued` | models/user.js:81-86 | a later add never reuses a deleted id |
| `UserModel.UserStore.Delete` | models/user.js:138-152 | the table and result agree with DeleteStep; the id invariant is kept |
| `UserModel.Patched` | models/user.js:195-209 | the partial update keeps isAdmin, writes a present email and a new password hash, and leaves a row with nothing to set as it was |
| `UserModel.PatchedIdempotent` | models/user.js:195-209 | applying the same patch twice gives the same row as applying it once |
| `UserModel.UpdateStep` | models/user.js:163-215 | a failed update changes nothing; no update moves the id sequence |
| `UserModel.UpdateFailures` | models/user.js:164-209 | update fails with NotFound for a missing id, with the bcrypt argument error when currentPassword is absent, with Unauthorized("Incorrect password") when it does not match, and with NothingToSet when the patch sets no column; it succeeds iff none of these holds |
| `UserModel.UpdateChangesOnlyPatchedColumns` | models/user.js:164-214 | a successful update changes only the columns present in the patch, and the password only to Hash(newPassword) when both passwords are given; id, isAdmin and other rows keep their values |
| `UserModel.UpdateWithoutCurrentPasswordFails` | models/user.js:186-193 | even without newPassword, an update with no currentPassword fails and changes nothing |
| `UserModel.UpdateCanDuplicateEmail` | models/user.js:195-201 | update can give two users the same email |
| `UserModel.PasswordChangeThenAuthenticate` | models/user.js:167-185 | after a password change, authenticate with the new password returns the updated user |
| `UserModel.UserStore.Update` | models/user.js:163-215 | the two password checks, in the source's order, give the same table and result as UpdateStep |
| `UserModel.ActivateStep` | models/user.js:225-254 | activate succeeds iff the user exists and is not "active"; a failure changes nothing; a success returns that user with state "active" and keeps the same ids |
| `UserModel.ActivateOnlyChangesState` | models/user.js:225-254 | activate fails with NotFound for a missing id and with BadRequest "User with id <id> is already active." for an active user, changing nothing; otherwise it sets only that user's state to "active" |
| `UserModel.ActivateTwiceFails` | models/user.test.js:163-170 | a second activate on the same id fails with "already active" |
| `UserModel.StepsKeepInvariants` | models/user.js:64-254 | add, delete and activate keep ids valid and emails unique; update keeps ids valid |
| `UserModel.UserStore.Activate` | models/user.js:225-254 | the table and result agree with ActivateStep; the id invariant is kept |
| `UserModel.UserStore.constructor` | models/_testCommon.js:9 | an empty table whose ids start at 1 |
| `Scenarios.RegisterLoginFetchOwnRecord` | routes/auth.js:56-77 | register, log in and present the token: the request carries the new user's identity, may read its own record but not the admin listing, and the record has no password |
| `Scenarios.SeededRows` | models/_testCommon.js:7-38 | the fixture's three adds get ids 1, 2 and 3 |
| `Scenarios.SeededAdds` | routes/users.test.js:54-94 | on the fixture the next add gets id 4 and a repeated email is refused with "Duplicate email: user1@user.com" |
| `Scenarios.SeededLookups` | models/user.test.js:93-180 | on the fixture user 1 is found and activates, the active admin (id 3) is already active, and id 9999 is not found |

## Left out

- app.js is not part of this model. That covers Express wiring, body parsing, CORS,
  static files and the error handler. The handler maps `err.status || 500`, so
  `HashArgumentError` becomes a 500.
- The routes in routes/users.js and routes/auth.js are not modelled. That includes their
  JSON-schema validation and login's missing-field check. Register's forced
  `isAdmin = false` and `state = "pending"` appear only as arguments in
  `Scenarios.RegisterLoginFetchOwnRecord`.
- helpers/sql.js is not part of this model. Partial update is modelled as a merge of the
  patch into the row.
  - An update that passes the password checks but has no column to set fails with
    `NothingToSet` and changes nothing. The source would send an UPDATE with an empty
    SET list, or have helpers/sql.js throw first. Which error the caller then sees is
    not modelled.
  - Patch keys other than email, firstName, lastName, state, currentPassword and
    newPassword are not modelled. For example, a raw `password` key would be written
    unhashed. The route's schema, which is not part of this model, decides whether such a
    body reaches `update`.
- The `NotFound` at models/user.js:212 ("No user with id") cannot be reached in the
  model. Each operation is atomic, and the earlier check at :190 already fails.
- Concurrency is left out, including the race between `add`'s duplicate check and its
  insert. Each operation runs atomically.
- bcrypt and jsonwebtoken internals are left out: hashing, signature algorithms, expiry,
  `BCRYPT_WORK_FACTOR` and `SECRET_KEY` loading. Their laws are the hypotheses `Sound`
  and `Faithful`.
- `console.log`, the logger, and database transactions in the tests are left out.
- `UserModel.UserStore.GetAllUsers` returns a set, so it does not model row order. The
  store gives no order.
- `JsText.StringToNumber` models integer results only. It gives None (NaN) for decimal
  fractions and exponents, even when their value is an integer (`1.0`, `1e0`). It also
  gives None for `Infinity`. It ignores floating-point precision above 2^53.
- `UserModel.UserStore.GetUser`, `Delete`, `Update` and `Activate` take an integer id.
  The database's conversion of the string path parameter, which fails for non-numeric
  text, is not modelled.
- `UserModel.UserStore.Add` takes every field as a present string. Missing or null
  fields are not modelled, such as a missing `state` or a missing password reaching
  bcrypt.
- Email uniqueness enforced by a database constraint is not modelled, because the schema
  is not part of this model.
- Token claims are modelled as an optional integer id, the truthiness of isAdmin, and
  iat. Other payload shapes are not modelled. Path parameters are Express's string map,
  which is always present.
- expressError.js is not part of this model. Error kinds keep the source's names, and
  only the guards' 403 status is stated.
