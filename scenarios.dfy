/**
 * Properties that cross the components: a registered user logging in and reaching
 * their own record through the middleware, and the three-user fixture the tests seed.
 */
module Scenarios {
  import opened Wrappers
  import opened JsText
  import opened Tokens
  import opened AuthMiddleware
  import opened UserModel

  /**
   * Register (add with isAdmin false and state "pending"), log in with the same email
   * and password, present the issued token as `Bearer <token>`: the request carries the
   * new user's identity, may read `/users/<id>` for its own id but not the admin-only
   * listing, and the record it reads has no password.
   */
  lemma RegisterLoginFetchOwnRecord(db: Db, h: Hasher, salt: Salt, email: string, password: string,
                                    firstName: string, lastName: string, codec: Codec, secret: Secret,
                                    now: int, login: Result<PublicUser, UserError>)
    requires ValidDb(db) && Sound(h) && Faithful(codec)
    requires !EmailTaken(db.rows, email)
    requires var s := AddStep(db, h, salt, NewUser(email, password, firstName, lastName, false, "pending"));
      AuthenticateOutcome(s.db.rows, h, email, password, login)
    ensures var s := AddStep(db, h, salt, NewUser(email, password, firstName, lastName, false, "pending"));
      var id := db.nextId;
      && s.result == Ok(PublicUser(id, email, firstName, lastName, false, "pending"))
      && login == s.result
      && var token := CreateToken(codec, secret, TokenSubject(login.value.id, Some(login.value.isAdmin)), now);
         var user := AttachedUser(None, Some(map["authorization" := "Bearer " + token]), codec, secret);
         && user == Some(Claims(Some(id), false, Some(now)))
         && EnsureCorrectUserOrAdmin(user, map["id" := NatToString(id)]) == Continue
         && EnsureAdmin(user) == Reject(Forbidden)
         && FindUser(s.db.rows, id) == s.result
  {
    var u := NewUser(email, password, firstName, lastName, false, "pending");
    var s := AddStep(db, h, salt, u);
    var id := db.nextId;
    AddInsertsOneRow(db, h, salt, u);
    AddThenAuthenticate(db, h, salt, u, login);
    var claims := SubjectClaims(TokenSubject(id, Some(false)), now);
    IssuedTokenAttached(codec, secret, claims, None);
    OwnerPassesOwnPath(claims, id);
  }

  /** The store after the fixture's three adds, from an empty table. */
  function Seeded(h: Hasher, salt: Salt): Db {
    var db0 := Db(map[], 1);
    var db1 := AddStep(db0, h, salt, NewUser("user1@user.com", "password1", "User1", "Last1", false, "pending")).db;
    var db2 := AddStep(db1, h, salt, NewUser("user2@user.com", "password2", "User2", "Last2", false, "pending")).db;
    AddStep(db2, h, salt, NewUser("admin@user.com", "password3", "Admin", "User", true, "active")).db
  }

  /** The users table the fixture is meant to leave: ids 1, 2 and 3, with hashed passwords. */
  function Fixture(h: Hasher, salt: Salt): Db {
    Db(map[
      1 := UserRow("user1@user.com", h.hash(salt, "password1"), "User1", "Last1", false, "pending"),
      2 := UserRow("user2@user.com", h.hash(salt, "password2"), "User2", "Last2", false, "pending"),
      3 := UserRow("admin@user.com", h.hash(salt, "password3"), "Admin", "User", true, "active")], 4)
  }

  /** The fixture's three adds produce ids 1, 2 and 3, in order, with the hashed passwords. */
  lemma SeededRows(h: Hasher, salt: Salt)
    ensures Seeded(h, salt) == Fixture(h, salt)
  {
    var db0 := Db(map[], 1);
    var u1 := NewUser("user1@user.com", "password1", "User1", "Last1", false, "pending");
    var u2 := NewUser("user2@user.com", "password2", "User2", "Last2", false, "pending");
    var u3 := NewUser("admin@user.com", "password3", "Admin", "User", true, "active");
    var db1 := AddStep(db0, h, salt, u1).db;
    assert "user2@user.com" != "user1@user.com" by {
      assert "user2@user.com"[4] == '2' && "user1@user.com"[4] == '1';
    }
    var db2 := AddStep(db1, h, salt, u2).db;
    assert "admin@user.com" != "user1@user.com" && "admin@user.com" != "user2@user.com" by {
      assert "admin@user.com"[0] == 'a' && "user1@user.com"[0] == 'u' && "user2@user.com"[0] == 'u';
    }
  }

  /**
   * On the seeded table the next add gets id 4 and adding user1's email again is refused.
   */
  lemma SeededAdds(h: Hasher, salt: Salt)
    ensures var db := Seeded(h, salt);
      && AddStep(db, h, salt, NewUser("newuser@test.com", "password", "New", "User", false, "active")).result
         == Ok(PublicUser(4, "newuser@test.com", "New", "User", false, "active"))
      && AddStep(db, h, salt, NewUser("user1@user.com", "password", "Dup", "User", false, "pending")).result
         == Err(BadRequest("Duplicate email: user1@user.com"))
  {
    SeededRows(h, salt);
    var db := Fixture(h, salt);
    assert "newuser@test.com" != "user1@user.com" && "newuser@test.com" != "user2@user.com"
      && "newuser@test.com" != "admin@user.com" by {
      assert "newuser@test.com"[0] == 'n';
    }
    assert !EmailTaken(db.rows, "newuser@test.com");
    assert EmailTaken(db.rows, "user1@user.com") by {
      assert db.rows[1].email == "user1@user.com";
    }
    assert DuplicateEmail("user1@user.com") == BadRequest("Duplicate email: user1@user.com");
  }

  /**
   * On the seeded table user 1 is found and can be activated, the active admin cannot be,
   * and id 9999 is not found.
   */
  lemma SeededLookups(h: Hasher, salt: Salt)
    ensures var db := Seeded(h, salt);
      && FindUser(db.rows, 1) == Ok(PublicUser(1, "user1@user.com", "User1", "Last1", false, "pending"))
      && ActivateStep(db, 1).result == Ok(PublicUser(1, "user1@user.com", "User1", "Last1", false, "active"))
      && ActivateStep(db, 3).result == Err(AlreadyActive(3))
      && FindUser(db.rows, 9999).Err?
  {
    SeededRows(h, salt);
    assert "pending" != "active" by {
      assert "pending"[0] == 'p';
    }
  }
}
