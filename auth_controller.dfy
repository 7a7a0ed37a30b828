/** AuthController: the older controller that registers and logs in directly against Users
    and issues a signed token on login. */
module AuthControllers {
  import opened Common
  import opened CharClasses
  import opened Seqs
  import opened UserTables
  import AuthServices

  /** An identity token; the signature is not modelled, only what it asserts. */
  datatype Token = Token(subject: int, expiresAt: int)

  /** The HTTP results the controller returns. */
  datatype ActionResult = Ok(message: string) | OkToken(token: Token) | BadRequest(message: string) | Unauthorized

  const WeakPasswordMessage := "Password is not strong enough!"
  const UsernameTakenMessage := "Username already taken!"
  const RegisteredMessage := "Registration complete!"

  /** Seconds in the one day a token is valid for. */
  const TokenLifetime := 24 * 60 * 60

  /** A token whose subject is the user id, expiring one day after `now` (seconds). */
  function GenerateJwt(userId: int, now: int): (t: Token)
    ensures t.subject == userId
    ensures t.expiresAt > now
    ensures t.expiresAt == now + TokenLifetime
  {
    Token(userId, now + TokenLifetime)
  }

  /** The controller's own copy of the password policy. */
  function ValidatePassword(p: string): (ok: bool)
    ensures ok <==> AuthServices.ValidatePassword(p)
  {
    && |p| >= 10
    && Any(p, IsLower)
    && Any(p, IsUpper)
    && Any(p, IsDigit)
    && Any(p, ch => !IsLetterOrDigit(ch))
  }

  class AuthController {
    const db: UserTable
    const hasher: Hasher

    constructor (db: UserTable, hasher: Hasher)
      ensures this.db == db && this.hasher == hasher
    {
      this.db := db;
      this.hasher := hasher;
    }

    /** Rejects a weak password, then a taken username, otherwise inserts one user. */
    method Register(dto: LoginDto, salt: nat) returns (r: ActionResult)
      modifies db
      ensures !ValidatePassword(dto.password) ==>
        r == BadRequest(WeakPasswordMessage) && db.rows == old(db.rows) && db.nextId == old(db.nextId)
      ensures ValidatePassword(dto.password) && UsernameTaken(old(db.rows), dto.username) ==>
        r == BadRequest(UsernameTakenMessage) && db.rows == old(db.rows) && db.nextId == old(db.nextId)
      ensures ValidatePassword(dto.password) && !UsernameTaken(old(db.rows), dto.username) ==>
        && r == Ok(RegisteredMessage)
        && db.rows == old(db.rows) + [UserRow(old(db.nextId), dto.username, hasher.hash(dto.password, salt))]
        && db.nextId == old(db.nextId) + 1
      ensures old(UsersInvariant(db.rows, db.nextId)) ==> UsersInvariant(db.rows, db.nextId)
    {
      if !ValidatePassword(dto.password) {
        return BadRequest(WeakPasswordMessage);
      }
      if UsernameTaken(db.rows, dto.username) {
        return BadRequest(UsernameTakenMessage);
      }
      if UsersInvariant(db.rows, db.nextId) {
        InsertKeepsUsersInvariant(db.rows, db.nextId, dto.username, hasher.hash(dto.password, salt));
      }
      db.rows := db.rows + [UserRow(db.nextId, dto.username, hasher.hash(dto.password, salt))];
      db.nextId := db.nextId + 1;
      return Ok(RegisteredMessage);
    }

    /** Looks the username up and verifies the password; either failure is Unauthorized.
        On success the token's subject is the id of the row found. */
    method Login(dto: LoginDto, now: int) returns (r: ActionResult)
      ensures r == Unauthorized || r.OkToken?
      ensures !UsernameTaken(db.rows, dto.username) ==> r == Unauthorized
      ensures DistinctBy(db.rows, Username) ==>
                forall u :: u in db.rows && u.username == dto.username ==>
                  r == (if hasher.verify(dto.password, u.passwordHash) then OkToken(GenerateJwt(u.id, now)) else Unauthorized)
      ensures r.OkToken? ==> exists u :: u in db.rows && u.username == dto.username && u.id == r.token.subject
                               && hasher.verify(dto.password, u.passwordHash)
      ensures r.OkToken? <==> Lookup(db.rows, dto.username).Some?
                              && hasher.verify(dto.password, Lookup(db.rows, dto.username).value.passwordHash)
      ensures r.OkToken? ==> r.token == GenerateJwt(Lookup(db.rows, dto.username).value.id, now)
    {
      var found := Lookup(db.rows, dto.username);
      if DistinctBy(db.rows, Username) {
        forall u | u in db.rows && u.username == dto.username ensures found == Some(u) {
          LookupFindsTheRow(db.rows, u);
        }
      }
      if found.None? {
        return Unauthorized;
      }
      var row := found.value;
      if !hasher.verify(dto.password, row.passwordHash) {
        return Unauthorized;
      }
      var token := GenerateJwt(row.id, now);
      return OkToken(token);
    }
  }

  /** Registering through the controller and then logging in yields a token for the new user. */
  method RegisterThenLogin(controller: AuthController, dto: LoginDto, salt: nat, now: int)
      returns (registered: ActionResult, login: ActionResult)
    requires controller.hasher.Sound()
    requires ValidatePassword(dto.password) && !UsernameTaken(controller.db.rows, dto.username)
    modifies controller.db
    ensures registered == Ok(RegisteredMessage)
    ensures login == OkToken(Token(old(controller.db.nextId), now + TokenLifetime))
  {
    registered := controller.Register(dto, salt);
    InsertThenLookup(old(controller.db.rows), old(controller.db.nextId), dto, controller.hasher, salt);
    login := controller.Login(dto, now);
  }
}
