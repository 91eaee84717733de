/** The account handlers of internal/service/users.go: Login and Register over
    the users table, the claims GenerateJWT signs, and the email check. */
module UserHandlers {
  import opened Wrappers
  import opened Foreign
  import opened Service
  import opened Sql
  import opened Sets
  import opened Users

  /** 24 * time.Hour, in nanoseconds. */
  const TokenLifetime: int := 24 * 3600 * 1_000_000_000

  /** jwt.NewNumericDate: the instant cut down to whole seconds since the epoch. */
  function NumericDate(t: Instant): (seconds: int)
    ensures seconds * 1_000_000_000 <= t < seconds * 1_000_000_000 + 1_000_000_000
  {
    t / 1_000_000_000
  }

  /** The claims GenerateJWT signs for `username`. The clock is read twice: the
      first reading plus 24 hours is the expiry, the second is the issue time. */
  function GenerateClaims(username: string, expiryRead: Instant, issueRead: Instant): (c: Claims)
    ensures c.username == username && c.subject == username
    ensures c.expiresAt == NumericDate(expiryRead) + 24 * 3600
    ensures c.issuedAt == NumericDate(issueRead)
  {
    Claims(username, username, NumericDate(expiryRead + TokenLifetime), NumericDate(issueRead))
  }

  /** GenerateJWT with the key from the configuration file. Reading that file
      cannot fail here: an unreadable or malformed file ends the process inside
      config.GetConfig. The token is None only when signing reports an error. */
  function GenerateJwt(lib: Library, jwtKey: string, username: string,
                       expiryRead: Instant, issueRead: Instant): (token: Option<string>)
    ensures token == lib.sign(Claims(username, username, NumericDate(expiryRead) + 24 * 3600, NumericDate(issueRead)), jwtKey)
  {
    lib.sign(GenerateClaims(username, expiryRead, issueRead), jwtKey)
  }

  /** What Login writes once the password matches: the token, or nothing when
      GenerateJWT returned an error, which Login hands back to the framework. */
  function TokenReply(token: Option<string>): Reply
  {
    match token
    case None => Aborted
    case Some(t) => Reply(200, TokenJson(t))
  }

  /** IsValidEmail: the address parses. */
  predicate IsValidEmail(lib: Library, email: string)
    ensures IsValidEmail(lib, email) <==> lib.parsesAsAddress(email)
  {
    lib.parsesAsAddress(email)
  }

  /** POST /login. `account` is the row the email lookup returned, if any.
      An unknown email, a failed lookup and a wrong password give the same reply. */
  method Login(users: UsersTable, lib: Library, jwtKey: string, email: string, password: string,
               expiryRead: Instant, issueRead: Instant)
    returns (reply: Reply, ghost account: Option<User>)
    requires users.Valid()
    ensures account.Some? <==> users.online && users.WithEmail(email) != {}
    ensures account.Some? ==>
      account.value.email == email && account.value.id in users.rows && users.rows[account.value.id] == account.value
    ensures account.None? ==> reply == ErrorReply(InvalidCredentials)
    ensures (forall id :: id in users.WithEmail(email) ==> !lib.matches(users.rows[id].hashedPassword, password)) ==>
      reply == ErrorReply(InvalidCredentials)
    ensures users.online && users.WithEmail(email) != {} &&
            (forall id :: id in users.WithEmail(email) ==> lib.matches(users.rows[id].hashedPassword, password)) ==>
      reply == TokenReply(GenerateJwt(lib, jwtKey, email, expiryRead, issueRead))
    ensures account.Some? && !lib.matches(account.value.hashedPassword, password) ==> reply == ErrorReply(InvalidCredentials)
    ensures account.Some? && lib.matches(account.value.hashedPassword, password) ==>
      reply == TokenReply(GenerateJwt(lib, jwtKey, email, expiryRead, issueRead))
  {
    var user := users.GetUserByEmail(email);
    if user.Err? {
      account := None;
      return ErrorReply(InvalidCredentials), account;
    }
    account := Some(user.value);
    if !lib.matches(user.value.hashedPassword, password) {
      return ErrorReply(InvalidCredentials), account;
    }
    var token := GenerateJwt(lib, jwtKey, email, expiryRead, issueRead);
    if token.None? {
      return Aborted, account;
    }
    reply := Reply(200, TokenJson(token.value));
  }

  /** POST /register. The lookup comes first, and only a row it returns stops
      the registration: a failed lookup counts as "no such user", like NoRows.
      `lookupFails` is a driver error on the lookup alone (a timeout, say) while
      the table stays reachable. The table changes only on a 200 reply, and then
      by one row holding the hash of the password. */
  method Register(users: UsersTable, lib: Library, email: string, password: string, salt: string,
                  lookupFails: bool, now: string)
    returns (reply: Reply)
    requires users.Valid()
    modifies users
    ensures users.Valid() && users.online == old(users.online)
    ensures !lookupFails && old(users.online) && old(users.WithEmail(email)) != {} ==>
      reply == ErrorReply(UserAlreadyExists)
    ensures (lookupFails || !old(users.online) || old(users.WithEmail(email)) == {}) && !IsValidEmail(lib, email) ==>
      reply == ErrorReply(InvalidParams)
    ensures !old(users.online) && IsValidEmail(lib, email) ==> reply == ErrorReply(InternalServerError)
    ensures reply == Reply(200, JsonString(OK)) <==>
      old(users.online) && (lookupFails || old(users.WithEmail(email)) == {}) && IsValidEmail(lib, email)
    ensures reply != Reply(200, JsonString(OK)) ==>
      users.rows == old(users.rows) && users.nextId == old(users.nextId)
    ensures reply == Reply(200, JsonString(OK)) ==>
      users.rows == old(users.rows)[old(users.nextId) := User(old(users.nextId), email, lib.hash(password, salt), now)]
      && users.nextId == old(users.nextId) + 1
    ensures old(users.UniqueEmails()) && (!lookupFails || old(users.WithEmail(email)) == {}) ==> users.UniqueEmails()
    ensures reply == Reply(200, JsonString(OK)) && old(users.WithEmail(email)) != {} ==> !users.UniqueEmails()
  {
    var user: Result<User, StoreError>;
    if lookupFails {
      user := Err(ConnectionFailed);
    } else {
      user := users.GetUserByEmail(email);
    }
    if user.Ok? {
      return ErrorReply(UserAlreadyExists);
    }
    if !IsValidEmail(lib, email) {
      return ErrorReply(InvalidParams);
    }
    var hashedPassword := lib.hash(password, salt);
    var created := users.CreateUser(email, hashedPassword, now);
    if created.Err? {
      return ErrorReply(InternalServerError);
    }
    if old(users.WithEmail(email)) == {} {
      assert forall k :: k in old(users.rows) ==> k !in old(users.WithEmail(email));
    } else {
      HasElement(old(users.WithEmail(email)));
      ghost var earlier :| earlier in old(users.WithEmail(email));
      assert users.rows[earlier].email == email && users.rows[old(users.nextId)].email == email;
    }
    reply := Reply(200, JsonString(OK));
  }

  /** Registering a new email and then logging in with the same credentials
      yields a token for that email, given that bcrypt accepts its own hashes. */
  method RegisterThenLogin(users: UsersTable, lib: Library, jwtKey: string, email: string,
                           password: string, salt: string, lookupFails: bool, now: string,
                           expiryRead: Instant, issueRead: Instant)
    returns (registered: Reply, loggedIn: Reply)
    requires users.Valid() && HashesMatch(lib)
    modifies users
    ensures registered == Reply(200, JsonString(OK)) <==>
      old(users.online) && (lookupFails || old(users.WithEmail(email)) == {}) && IsValidEmail(lib, email)
    ensures registered == Reply(200, JsonString(OK)) && old(users.WithEmail(email)) == {} ==>
      loggedIn == TokenReply(GenerateJwt(lib, jwtKey, email, expiryRead, issueRead))
  {
    ghost var newId := users.nextId;
    ghost var wasNew := users.WithEmail(email) == {};
    registered := Register(users, lib, email, password, salt, lookupFails, now);
    if registered == Reply(200, JsonString(OK)) && wasNew {
      assert users.WithEmail(email) == {newId};
    }
    ghost var account;
    loggedIn, account := Login(users, lib, jwtKey, email, password, expiryRead, issueRead);
    if registered == Reply(200, JsonString(OK)) && wasNew {
      assert account.value.id in users.WithEmail(email);
      assert lib.matches(lib.hash(password, salt), password);
    }
  }

  /** Registering one email twice. When the first registration added a new
      email and the second lookup works, the second attempt is refused and the
      table keeps exactly one row for that email. When the second lookup fails,
      the second attempt inserts a duplicate. */
  method RegisterTwice(users: UsersTable, lib: Library, email: string, password: string, salt: string,
                       firstLookupFails: bool, secondPassword: string, secondSalt: string,
                       secondLookupFails: bool, now: string)
    returns (first: Reply, second: Reply)
    requires users.Valid()
    modifies users
    ensures first == Reply(200, JsonString(OK)) <==>
      old(users.online) && (firstLookupFails || old(users.WithEmail(email)) == {}) && IsValidEmail(lib, email)
    ensures first == Reply(200, JsonString(OK)) && old(users.WithEmail(email)) == {} && !secondLookupFails ==>
      second == ErrorReply(UserAlreadyExists) && users.WithEmail(email) == {old(users.nextId)}
    ensures first == Reply(200, JsonString(OK)) && secondLookupFails ==>
      second == Reply(200, JsonString(OK)) && !users.UniqueEmails()
  {
    ghost var wasNew := users.WithEmail(email) == {};
    first := Register(users, lib, email, password, salt, firstLookupFails, now);
    if first == Reply(200, JsonString(OK)) {
      assert old(users.nextId) in users.WithEmail(email);
      if wasNew {
        assert users.WithEmail(email) == {old(users.nextId)};
      }
    }
    second := Register(users, lib, email, secondPassword, secondSalt, secondLookupFails, now);
  }
}
