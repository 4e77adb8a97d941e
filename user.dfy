/**
 * The `User` model: check-then-mutate operations over the users table.
 *
 * Each operation is specified by a function from the table before the call to the
 * table after it and the value returned or the error thrown (AddStep, UpdateStep, ...).
 * The class UserStore holds the table and implements the operations step by step as
 * the model does (query, check, then write); each of its methods is proved to agree
 * with its step function, and the lemmas below state what those functions guarantee.
 */
module UserModel {
  import opened Wrappers
  import JsText

  /** The random salt bcrypt draws for each hash. */
  type Salt = int

  /** bcrypt.hash and bcrypt.compare, kept abstract. */
  datatype Hasher = Hasher(hash: (Salt, string) -> string, compare: (string, string) -> bool)

  /** The one law the model relies on: a password matches its own hash, whatever the salt. */
  ghost predicate Sound(h: Hasher) {
    forall salt, password :: h.compare(password, h.hash(salt, password))
  }

  /** A row of the users table; the id is its key in the table. */
  datatype UserRow = UserRow(email: string, passwordHash: string, firstName: string,
                             lastName: string, isAdmin: bool, state: string)

  /** A user as the model returns it: every column except the password. */
  datatype PublicUser = PublicUser(id: int, email: string, firstName: string,
                                   lastName: string, isAdmin: bool, state: string)

  /**
   * The errors the operations throw. HashArgumentError is the plain Error bcrypt raises
   * when compare is given no password; it carries no HTTP status (so it becomes a 500).
   * NothingToSet is the failure of an update whose SET list is empty: building it is
   * helpers/sql.js's job, which is not part of this model, so only the failure is kept.
   */
  datatype UserError =
    | NotFound(message: string)
    | BadRequest(message: string)
    | Unauthorized(message: string)
    | HashArgumentError
    | NothingToSet

  /** The argument of User.add. */
  datatype NewUser = NewUser(email: string, password: string, firstName: string,
                             lastName: string, isAdmin: bool, state: string)

  /** The argument of User.update: the keys that may be present, each optional. */
  datatype Patch = Patch(email: Option<string>, firstName: Option<string>,
                         lastName: Option<string>, state: Option<string>,
                         currentPassword: Option<string>, newPassword: Option<string>)

  /** The users table and the next value of its id sequence. */
  datatype Db = Db(rows: map<int, UserRow>, nextId: int)

  /** The table after an operation, and what the operation returned or threw. */
  datatype Step<T> = Step(db: Db, result: Result<T, UserError>)

  const InvalidCredentials := Unauthorized("Invalid email/password")
  const IncorrectPassword := Unauthorized("Incorrect password")

  function NoSuchUser(id: int): UserError {
    NotFound("No user found with id: " + JsText.IntToString(id))
  }

  function DuplicateEmail(email: string): UserError {
    BadRequest("Duplicate email: " + email)
  }

  function AlreadyActive(id: int): UserError {
    BadRequest("User with id " + JsText.IntToString(id) + " is already active.")
  }

  /** The row without its password column. */
  function Public(id: int, row: UserRow): PublicUser {
    PublicUser(id, row.email, row.firstName, row.lastName, row.isAdmin, row.state)
  }

  /** Ids are positive and below the next value of the sequence, which starts at 1. */
  ghost predicate ValidDb(db: Db) {
    db.nextId >= 1 && forall id :: id in db.rows ==> 1 <= id < db.nextId
  }

  predicate EmailTaken(rows: map<int, UserRow>, email: string) {
    exists id :: id in rows && rows[id].email == email
  }

  ghost predicate UniqueEmails(rows: map<int, UserRow>) {
    forall i, j :: i in rows && j in rows && rows[i].email == rows[j].email ==> i == j
  }

  /** JavaScript truthiness of an optional string: present and non-empty. */
  predicate Truthy(s: Option<string>) {
    s.Some? && s.value != ""
  }

  // ---------------------------------------------------------------- authenticate

  /**
   * The possible results of authenticate(email, password). The query takes the first
   * row with that email, in an order the store does not fix, so when several rows share
   * the email any of them may be the one compared.
   */
  ghost predicate AuthenticateOutcome(rows: map<int, UserRow>, h: Hasher, email: string,
                                      password: string, r: Result<PublicUser, UserError>): (b: bool)
    ensures !EmailTaken(rows, email) ==> (b <==> r == Err(InvalidCredentials))
    ensures b && r.Ok? ==> r.value.id in rows && rows[r.value.id].email == email
                           && h.compare(password, rows[r.value.id].passwordHash)
                           && r.value == Public(r.value.id, rows[r.value.id])
  {
    if !EmailTaken(rows, email) then
      r == Err(InvalidCredentials)
    else
      exists id :: id in rows && rows[id].email == email &&
        r == if h.compare(password, rows[id].passwordHash) then Ok(Public(id, rows[id]))
             else Err(InvalidCredentials)
  }

  /**
   * With unique emails authenticate is determined: it succeeds exactly when the password
   * matches the row holding the email, and both ways of failing give the same error.
   */
  lemma AuthenticateUnique(rows: map<int, UserRow>, h: Hasher, email: string, password: string,
                           r: Result<PublicUser, UserError>, id: int)
    requires UniqueEmails(rows) && AuthenticateOutcome(rows, h, email, password, r)
    requires id in rows && rows[id].email == email
    ensures r == if h.compare(password, rows[id].passwordHash) then Ok(Public(id, rows[id]))
                 else Err(InvalidCredentials)
  {
    var k :| k in rows && rows[k].email == email &&
      r == if h.compare(password, rows[k].passwordHash) then Ok(Public(k, rows[k]))
           else Err(InvalidCredentials);
    assert k == id;
  }

  /** Every failure of authenticate is the same UnauthorizedError("Invalid email/password"). */
  lemma AuthenticateFailsUniformly(rows: map<int, UserRow>, h: Hasher, email: string,
                                   password: string, r: Result<PublicUser, UserError>)
    requires AuthenticateOutcome(rows, h, email, password, r) && r.Err?
    ensures r.error == InvalidCredentials
  {
  }

  // ---------------------------------------------------------------- add

  /** User.add: refuses an email already present, else inserts one row with a fresh id. */
  function AddStep(db: Db, h: Hasher, salt: Salt, u: NewUser): (s: Step<PublicUser>)
    ensures s.result.Err? <==> EmailTaken(db.rows, u.email)
    ensures s.result.Err? ==> s.db == db && s.result.error == DuplicateEmail(u.email)
    ensures s.result.Ok? ==> s.result.value.id == db.nextId && s.db.nextId == db.nextId + 1
  {
    if EmailTaken(db.rows, u.email) then
      Step(db, Err(DuplicateEmail(u.email)))
    else
      var row := UserRow(u.email, h.hash(salt, u.password), u.firstName, u.lastName, u.isAdmin, u.state);
      Step(Db(db.rows[db.nextId := row], db.nextId + 1), Ok(Public(db.nextId, row)))
  }

  /**
   * A successful add inserts exactly one row under a fresh id, holding the given email,
   * names, admin flag and state and the hash of the password; every other row is kept,
   * and the returned user is that row without its password.
   */
  lemma AddInsertsOneRow(db: Db, h: Hasher, salt: Salt, u: NewUser)
    requires ValidDb(db) && !EmailTaken(db.rows, u.email)
    ensures var s := AddStep(db, h, salt, u);
      var id := db.nextId;
      && s.result == Ok(PublicUser(id, u.email, u.firstName, u.lastName, u.isAdmin, u.state))
      && id !in db.rows
      && s.db.rows.Keys == db.rows.Keys + {id}
      && |s.db.rows| == |db.rows| + 1
      && (forall k :: k in db.rows ==> s.db.rows[k] == db.rows[k])
      && s.db.rows[id] == UserRow(u.email, h.hash(salt, u.password), u.firstName, u.lastName, u.isAdmin, u.state)
      && ValidDb(s.db)
  {
  }

  /** add keeps emails unique: it is the guard that keeps them so. */
  lemma AddKeepsEmailsUnique(db: Db, h: Hasher, salt: Salt, u: NewUser)
    requires UniqueEmails(db.rows)
    ensures UniqueEmails(AddStep(db, h, salt, u).db.rows)
  {
  }

  /** After a successful add, authenticating with the same email and password returns the new user. */
  lemma AddThenAuthenticate(db: Db, h: Hasher, salt: Salt, u: NewUser, r: Result<PublicUser, UserError>)
    requires Sound(h)
    requires AddStep(db, h, salt, u).result.Ok?
    requires AuthenticateOutcome(AddStep(db, h, salt, u).db.rows, h, u.email, u.password, r)
    ensures r == AddStep(db, h, salt, u).result
  {
    var s := AddStep(db, h, salt, u);
    var id := db.nextId;
    assert id in s.db.rows && s.db.rows[id].email == u.email;
    var k :| k in s.db.rows && s.db.rows[k].email == u.email &&
      r == if h.compare(u.password, s.db.rows[k].passwordHash) then Ok(Public(k, s.db.rows[k]))
           else Err(InvalidCredentials);
    assert h.compare(u.password, h.hash(salt, u.password));
  }

  // ---------------------------------------------------------------- getAllUsers, getUser

  /** getAllUsers: every row, without passwords. */
  function AllPublic(rows: map<int, UserRow>): (users: set<PublicUser>)
    ensures forall u :: u in users ==> u.id in rows && u == Public(u.id, rows[u.id])
    ensures forall id :: id in rows ==> Public(id, rows[id]) in users
  {
    set id | id in rows :: Public(id, rows[id])
  }

  /** getAllUsers lists one user per row. */
  lemma {:induction false} AllPublicSize(rows: map<int, UserRow>)
    ensures |AllPublic(rows)| == |rows|
    decreases |rows|
  {
    if |rows| > 0 {
      var k := SomeKey(rows);
      var rest := rows - {k};
      AllPublicSize(rest);
      AllPublicSplit(rows, k);
      assert |rows.Keys| == |rest.Keys| + 1;
    }
  }

  /** Some id of a non-empty table. */
  lemma SomeKey(rows: map<int, UserRow>) returns (k: int)
    requires |rows| > 0
    ensures k in rows
  {
    if !(exists id :: id in rows) {
      assert false;
    }
    k :| k in rows;
  }

  /** Taking one row out of the table takes exactly its user out of the listing. */
  lemma AllPublicSplit(rows: map<int, UserRow>, k: int)
    requires k in rows
    ensures AllPublic(rows) == AllPublic(rows - {k}) + {Public(k, rows[k])}
    ensures Public(k, rows[k]) !in AllPublic(rows - {k})
  {
    var rest := rows - {k};
    forall user | user in AllPublic(rows)
      ensures user in AllPublic(rest) + {Public(k, rows[k])}
    {
      if user.id != k {
        assert user.id in rest;
      }
    }
  }

  /** getUser(id): the row without its password, or NotFound. */
  function FindUser(rows: map<int, UserRow>, id: int): (r: Result<PublicUser, UserError>)
    ensures r.Ok? <==> id in rows
    ensures r.Ok? ==> r.value == Public(id, rows[id]) && r.value.id == id
    ensures r.Err? ==> r.error == NoSuchUser(id)
  {
    if id in rows then Ok(Public(id, rows[id])) else Err(NoSuchUser(id))
  }

  // ---------------------------------------------------------------- delete

  /** User.delete: removes the row with that id, or throws NotFound. */
  function DeleteStep(db: Db, id: int): (s: Step<()>)
    ensures s.result.Ok? <==> id in db.rows
    ensures s.result.Err? ==> s.db == db && s.result.error == NoSuchUser(id)
    ensures s.result.Ok? ==> id !in s.db.rows && s.db.rows.Keys == db.rows.Keys - {id}
    ensures s.db.nextId == db.nextId
  {
    if id in db.rows then Step(Db(db.rows - {id}, db.nextId), Ok(()))
    else Step(db, Err(NoSuchUser(id)))
  }

  /**
   * delete removes exactly the row with that id and no other, or, when there is none,
   * throws NotFound and changes nothing.
   */
  lemma DeleteRemovesOneRow(db: Db, id: int)
    ensures var s := DeleteStep(db, id);
      && (s.result.Ok? <==> id in db.rows)
      && (s.result.Err? ==> s.result.error == NoSuchUser(id) && s.db == db)
      && (s.result.Ok? ==> s.db.rows.Keys == db.rows.Keys - {id} && |s.db.rows| == |db.rows| - 1)
      && (forall k :: k in db.rows && k != id ==> k in s.db.rows && s.db.rows[k] == db.rows[k])
      && s.db.nextId == db.nextId
  {
  }

  /** After a delete the user is gone: getUser and a second delete throw NotFound. */
  lemma DeleteThenGone(db: Db, id: int)
    requires DeleteStep(db, id).result.Ok?
    ensures FindUser(DeleteStep(db, id).db.rows, id) == Err(NoSuchUser(id))
    ensures DeleteStep(DeleteStep(db, id).db, id).result == Err(NoSuchUser(id))
  {
  }

  /** A deleted id is never handed out again: the sequence has moved past it. */
  lemma DeletedIdNotReissued(db: Db, id: int, h: Hasher, salt: Salt, u: NewUser)
    requires ValidDb(db) && DeleteStep(db, id).result.Ok?
    requires AddStep(DeleteStep(db, id).db, h, salt, u).result.Ok?
    ensures AddStep(DeleteStep(db, id).db, h, salt, u).result.value.id != id
  {
  }

  // ---------------------------------------------------------------- update

  /** The row with the patched columns replaced, and the password when a new hash is given. */
  function Patched(row: UserRow, p: Patch, newHash: Option<string>): (r: UserRow)
    ensures r.isAdmin == row.isAdmin
    ensures !SetsSomeColumn(p, newHash) ==> r == row
    ensures p.email.Some? ==> r.email == p.email.value
    ensures newHash.Some? ==> r.passwordHash == newHash.value
  {
    UserRow(p.email.GetOr(row.email), newHash.GetOr(row.passwordHash),
            p.firstName.GetOr(row.firstName), p.lastName.GetOr(row.lastName),
            row.isAdmin, p.state.GetOr(row.state))
  }

  /**
   * Whether the UPDATE has a column to set: a present email, firstName, lastName or state
   * key, or a new password hash.
   */
  predicate SetsSomeColumn(p: Patch, newHash: Option<string>) {
    p.email.Some? || p.firstName.Some? || p.lastName.Some? || p.state.Some? || newHash.Some?
  }

  /** Patching twice with the same patch and hash is patching once. */
  lemma PatchedIdempotent(row: UserRow, p: Patch, newHash: Option<string>)
    ensures Patched(Patched(row, p, newHash), p, newHash) == Patched(row, p, newHash)
  {
  }

  /**
   * User.update. Both checks of the source collapse to one: the user must exist, and the
   * current password must be present and match, whether or not a new password is given.
   * The password is replaced only when both passwords are given and non-empty. An update
   * that passes the checks but sets no column fails with NothingToSet.
   */
  function UpdateStep(db: Db, h: Hasher, salt: Salt, id: int, p: Patch): (s: Step<PublicUser>)
    ensures s.result.Err? ==> s.db == db
    ensures s.db.nextId == db.nextId
  {
    if id !in db.rows then Step(db, Err(NoSuchUser(id)))
    else if p.currentPassword.None? then Step(db, Err(HashArgumentError))
    else if !h.compare(p.currentPassword.value, db.rows[id].passwordHash) then Step(db, Err(IncorrectPassword))
    else
      var newHash := if Truthy(p.currentPassword) && Truthy(p.newPassword)
                     then Some(h.hash(salt, p.newPassword.value)) else None;
      if !SetsSomeColumn(p, newHash) then Step(db, Err(NothingToSet))
      else
        var row := Patched(db.rows[id], p, newHash);
        Step(Db(db.rows[id := row], db.nextId), Ok(Public(id, row)))
  }

  /** The ways update fails, in the order it checks them; each leaves the table unchanged. */
  lemma UpdateFailures(db: Db, h: Hasher, salt: Salt, id: int, p: Patch)
    ensures var s := UpdateStep(db, h, salt, id, p);
      var passwordOk := id in db.rows && p.currentPassword.Some?
                        && h.compare(p.currentPassword.value, db.rows[id].passwordHash);
      var setsColumn := p.email.Some? || p.firstName.Some? || p.lastName.Some? || p.state.Some?
                        || (Truthy(p.currentPassword) && Truthy(p.newPassword));
      && (id !in db.rows ==> s == Step(db, Err(NoSuchUser(id))))
      && (id in db.rows && p.currentPassword.None? ==> s == Step(db, Err(HashArgumentError)))
      && ((id in db.rows && p.currentPassword.Some? && !h.compare(p.currentPassword.value, db.rows[id].passwordHash))
            ==> s == Step(db, Err(IncorrectPassword)))
      && (passwordOk && !setsColumn ==> s == Step(db, Err(NothingToSet)))
      && (s.result.Ok? <==> passwordOk && setsColumn)
  {
  }

  /**
   * A successful update changes only the columns present in the patch, and the password
   * only to the hash of newPassword when both passwords are given; id, isAdmin and every
   * other row keep their values, and the result is the updated row without its password.
   */
  lemma UpdateChangesOnlyPatchedColumns(db: Db, h: Hasher, salt: Salt, id: int, p: Patch)
    requires UpdateStep(db, h, salt, id, p).result.Ok?
    ensures var s := UpdateStep(db, h, salt, id, p);
      var old_ := db.rows[id];
      var new_ := s.db.rows[id];
      && s.db.rows.Keys == db.rows.Keys
      && (forall k :: k in db.rows && k != id ==> s.db.rows[k] == db.rows[k])
      && new_.email == (if p.email.Some? then p.email.value else old_.email)
      && new_.firstName == (if p.firstName.Some? then p.firstName.value else old_.firstName)
      && new_.lastName == (if p.lastName.Some? then p.lastName.value else old_.lastName)
      && new_.state == (if p.state.Some? then p.state.value else old_.state)
      && new_.isAdmin == old_.isAdmin
      && new_.passwordHash == (if Truthy(p.currentPassword) && Truthy(p.newPassword)
                               then h.hash(salt, p.newPassword.value) else old_.passwordHash)
      && s.result.value == Public(id, new_)
  {
  }

  /**
   * Follows the code: even a patch without newPassword needs the current password; with
   * none, bcrypt is handed `undefined` and the update fails.
   */
  lemma UpdateWithoutCurrentPasswordFails(db: Db, h: Hasher, salt: Salt, id: int, p: Patch)
    requires id in db.rows && p.currentPassword.None?
    ensures UpdateStep(db, h, salt, id, p) == Step(db, Err(HashArgumentError))
  {
  }

  /** update does not guard email uniqueness: two distinct users can end up sharing an email. */
  lemma UpdateCanDuplicateEmail()
    ensures var h := Hasher((salt: Salt, pw: string) => pw, (pw: string, hashed: string) => pw == hashed);
      var db := Db(map[1 := UserRow("a@x", "pw", "A", "A", false, "pending"),
                       2 := UserRow("b@x", "pw", "B", "B", false, "pending")], 3);
      var p := Patch(Some("b@x"), None, None, None, Some("pw"), None);
      && UniqueEmails(db.rows)
      && UpdateStep(db, h, 0, 1, p).result.Ok?
      && !UniqueEmails(UpdateStep(db, h, 0, 1, p).db.rows)
  {
    var h := Hasher((salt: Salt, pw: string) => pw, (pw: string, hashed: string) => pw == hashed);
    var db := Db(map[1 := UserRow("a@x", "pw", "A", "A", false, "pending"),
                     2 := UserRow("b@x", "pw", "B", "B", false, "pending")], 3);
    var p := Patch(Some("b@x"), None, None, None, Some("pw"), None);
    assert "a@x"[0..2] != "b@x"[0..2] by {
      assert "a@x"[0] == 'a' && "b@x"[0] == 'b';
    }
    var rows' := UpdateStep(db, h, 0, 1, p).db.rows;
    assert rows'[1].email == rows'[2].email;
  }

  /**
   * After a successful password change that keeps the email, logging in with the new
   * password succeeds and returns the updated user.
   */
  lemma PasswordChangeThenAuthenticate(db: Db, h: Hasher, salt: Salt, id: int, p: Patch,
                                       r: Result<PublicUser, UserError>)
    requires Sound(h) && UniqueEmails(db.rows)
    requires p.email.None? && Truthy(p.currentPassword) && Truthy(p.newPassword)
    requires UpdateStep(db, h, salt, id, p).result.Ok?
    requires AuthenticateOutcome(UpdateStep(db, h, salt, id, p).db.rows, h, db.rows[id].email,
                                 p.newPassword.value, r)
    ensures r == UpdateStep(db, h, salt, id, p).result
  {
    var s := UpdateStep(db, h, salt, id, p);
    var rows' := s.db.rows;
    assert forall k :: k in rows' ==> rows'[k].email == db.rows[k].email;
    assert UniqueEmails(rows');
    assert h.compare(p.newPassword.value, h.hash(salt, p.newPassword.value));
    AuthenticateUnique(rows', h, db.rows[id].email, p.newPassword.value, r, id);
  }

  // ---------------------------------------------------------------- activate

  /** User.activate: NotFound, BadRequest when already "active", else sets the state to "active". */
  function ActivateStep(db: Db, id: int): (s: Step<PublicUser>)
    ensures s.result.Ok? <==> id in db.rows && db.rows[id].state != "active"
    ensures s.result.Err? ==> s.db == db
    ensures s.result.Ok? ==> s.result.value.id == id && s.result.value.state == "active"
                             && s.db.rows.Keys == db.rows.Keys && s.db.rows[id].state == "active"
    ensures s.db.nextId == db.nextId
  {
    if id !in db.rows then Step(db, Err(NoSuchUser(id)))
    else if db.rows[id].state == "active" then Step(db, Err(AlreadyActive(id)))
    else
      var row := db.rows[id].(state := "active");
      Step(Db(db.rows[id := row], db.nextId), Ok(Public(id, row)))
  }

  /**
   * activate fails with NotFound for a missing id and with BadRequest for an active user,
   * changing nothing; otherwise it sets that user's state to "active" and changes nothing
   * else, returning the user without its password.
   */
  lemma ActivateOnlyChangesState(db: Db, id: int)
    ensures var s := ActivateStep(db, id);
      && (id !in db.rows ==> s == Step(db, Err(NoSuchUser(id))))
      && (id in db.rows && db.rows[id].state == "active" ==> s == Step(db, Err(AlreadyActive(id))))
      && (s.result.Ok? <==> id in db.rows && db.rows[id].state != "active")
      && (s.result.Ok? ==>
            && s.db.rows == db.rows[id := db.rows[id].(state := "active")]
            && s.db.nextId == db.nextId
            && s.result.value == Public(id, s.db.rows[id])
            && s.result.value.state == "active")
  {
  }

  /** Activation is one-way and not repeatable: a second activate on the same id fails. */
  lemma ActivateTwiceFails(db: Db, id: int)
    requires ActivateStep(db, id).result.Ok?
    ensures var s := ActivateStep(db, id);
      ActivateStep(s.db, id) == Step(s.db, Err(AlreadyActive(id)))
  {
  }

  /** add, delete and activate keep the ids valid and the emails unique. */
  lemma StepsKeepInvariants(db: Db, h: Hasher, salt: Salt, u: NewUser, id: int, p: Patch)
    requires ValidDb(db) && UniqueEmails(db.rows)
    ensures ValidDb(AddStep(db, h, salt, u).db) && UniqueEmails(AddStep(db, h, salt, u).db.rows)
    ensures ValidDb(DeleteStep(db, id).db) && UniqueEmails(DeleteStep(db, id).db.rows)
    ensures ValidDb(ActivateStep(db, id).db) && UniqueEmails(ActivateStep(db, id).db.rows)
    ensures ValidDb(UpdateStep(db, h, salt, id, p).db)
  {
    if ActivateStep(db, id).result.Ok? {
      var rows' := ActivateStep(db, id).db.rows;
      assert forall k :: k in rows' ==> rows'[k].email == db.rows[k].email;
    }
  }

  // ---------------------------------------------------------------- the table

  /** The users table that the static methods of `User` query and update. */
  class UserStore {
    const hasher: Hasher
    var rows: map<int, UserRow>
    var nextId: int

    ghost predicate Valid()
      reads this
    {
      ValidDb(Db(rows, nextId))
    }

    function State(): Db
      reads this
    {
      Db(rows, nextId)
    }

    /** An empty table whose id sequence starts at 1. */
    constructor (hasher: Hasher)
      ensures Valid() && this.hasher == hasher
      ensures rows == map[] && nextId == 1
    {
      this.hasher := hasher;
      rows := map[];
      nextId := 1;
    }

    method Authenticate(email: string, password: string) returns (r: Result<PublicUser, UserError>)
      ensures AuthenticateOutcome(rows, hasher, email, password, r)
      ensures r.Err? ==> r.error == InvalidCredentials
      ensures r.Ok? ==> r.value.id in rows && rows[r.value.id].email == email
                        && hasher.compare(password, rows[r.value.id].passwordHash)
                        && r.value == Public(r.value.id, rows[r.value.id])
    {
      if !EmailTaken(rows, email) {
        return Err(InvalidCredentials);
      }
      var id :| id in rows && rows[id].email == email;
      var user := rows[id];
      var isValid := hasher.compare(password, user.passwordHash);
      if !isValid {
        return Err(InvalidCredentials);
      }
      r := Ok(Public(id, user));
    }

    method Add(u: NewUser, salt: Salt) returns (r: Result<PublicUser, UserError>)
      requires Valid()
      modifies this
      ensures Valid()
      ensures Step(State(), r) == AddStep(old(State()), hasher, salt, u)
    {
      var duplicate := EmailTaken(rows, u.email);
      if duplicate {
        return Err(DuplicateEmail(u.email));
      }
      var hashedPassword := hasher.hash(salt, u.password);
      var id := nextId;
      nextId := nextId + 1;
      var row := UserRow(u.email, hashedPassword, u.firstName, u.lastName, u.isAdmin, u.state);
      rows := rows[id := row];
      r := Ok(Public(id, row));
    }

    method GetAllUsers() returns (users: set<PublicUser>)
      ensures users == AllPublic(rows) && |users| == |rows|
    {
      users := AllPublic(rows);
      AllPublicSize(rows);
    }

    method GetUser(id: int) returns (r: Result<PublicUser, UserError>)
      ensures r == FindUser(rows, id)
    {
      if id !in rows {
        return Err(NoSuchUser(id));
      }
      r := Ok(Public(id, rows[id]));
    }

    method Delete(id: int) returns (r: Result<(), UserError>)
      requires Valid()
      modifies this
      ensures Valid()
      ensures Step(State(), r) == DeleteStep(old(State()), id)
    {
      if id !in rows {
        return Err(NoSuchUser(id));
      }
      rows := rows - {id};
      r := Ok(());
    }

    /** The two password checks of the source, in its order. */
    method Update(id: int, patch: Patch, salt: Salt) returns (r: Result<PublicUser, UserError>)
      requires Valid()
      modifies this
      ensures Valid()
      ensures Step(State(), r) == UpdateStep(old(State()), hasher, salt, id, patch)
    {
      var newHash: Option<string> := None;
      if Truthy(patch.currentPassword) && Truthy(patch.newPassword) {
        if id !in rows {
          return Err(NoSuchUser(id));
        }
        var isMatch := hasher.compare(patch.currentPassword.value, rows[id].passwordHash);
        if !isMatch {
          return Err(IncorrectPassword);
        }
        newHash := Some(hasher.hash(salt, patch.newPassword.value));
      }
      if id !in rows {
        return Err(NoSuchUser(id));
      }
      if patch.currentPassword.None? {
        return Err(HashArgumentError);
      }
      var isMatch := hasher.compare(patch.currentPassword.value, rows[id].passwordHash);
      if !isMatch {
        return Err(IncorrectPassword);
      }
      var hasColumn := SetsSomeColumn(patch, newHash);
      if !hasColumn {
        return Err(NothingToSet);
      }
      var row := Patched(rows[id], patch, newHash);
      rows := rows[id := row];
      r := Ok(Public(id, row));
    }

    method Activate(id: int) returns (r: Result<PublicUser, UserError>)
      requires Valid()
      modifies this
      ensures Valid()
      ensures Step(State(), r) == ActivateStep(old(State()), id)
    {
      if id !in rows {
        return Err(NoSuchUser(id));
      }
      if rows[id].state == "active" {
        return Err(AlreadyActive(id));
      }
      var row := rows[id].(state := "active");
      rows := rows[id := row];
      r := Ok(Public(id, row));
    }
  }
}
