/** AuthService: the password policy, registration and login over the Users table. */
module AuthServices {
  import opened Common
  import opened CharClasses
  import opened Seqs
  import opened UserTables

  datatype AuthError = WeakPassword | UsernameInUse | InvalidCredentials

  /** The text of the exception the service throws for each error; none is empty. */
  function Message(e: AuthError): (text: string)
    ensures |text| > 0
  {
    match e
    case WeakPassword => "Wachtwoord moet minimaal 10 tekens, 1 hoofdletters, 1 cijfers en 1 speciaal teken!"
    case UsernameInUse => "Gebruikersnaam is al in gebruik"
    case InvalidCredentials => "Ongeldige gebruikersnaam of wachtwoord"
  }

  /** Different errors are thrown with different texts, so a caller can tell them apart by text. */
  lemma MessagesDistinct(e1: AuthError, e2: AuthError)
    requires Message(e1) == Message(e2)
    ensures e1 == e2
  {
  }

  const RegisteredMessage := "Registratie succesvol"

  const MinPasswordLength := 10

  /** At least ten characters, with a lower-case letter, an upper-case letter, a digit
      and a character that is neither letter nor digit. */
  function ValidatePassword(password: string): (ok: bool)
    ensures ok <==>
      && |password| >= MinPasswordLength
      && (exists i :: 0 <= i < |password| && IsLower(password[i]))
      && (exists i :: 0 <= i < |password| && IsUpper(password[i]))
      && (exists i :: 0 <= i < |password| && IsDigit(password[i]))
      && (exists i :: 0 <= i < |password| && !IsLetterOrDigit(password[i]))
  {
    && |password| >= MinPasswordLength
    && Any(password, IsLower)
    && Any(password, IsUpper)
    && Any(password, IsDigit)
    && Any(password, c => !IsLetterOrDigit(c))
  }

  /** The service, connected to the Users table and the hashing library. */
  class AuthService {
    const db: UserTable
    const hasher: Hasher

    constructor (db: UserTable, hasher: Hasher)
      ensures this.db == db && this.hasher == hasher
    {
      this.db := db;
      this.hasher := hasher;
    }

    /** Checks the password, then that the username is unused, then inserts one user whose
        hash is made with the given salt. */
    method RegisterUser(dto: LoginDto, salt: nat) returns (r: Result<string, AuthError>)
      modifies db
      ensures !ValidatePassword(dto.password) ==>
        r == Failure(WeakPassword) && db.rows == old(db.rows) && db.nextId == old(db.nextId)
      ensures ValidatePassword(dto.password) && UsernameTaken(old(db.rows), dto.username) ==>
        r == Failure(UsernameInUse) && db.rows == old(db.rows) && db.nextId == old(db.nextId)
      ensures ValidatePassword(dto.password) && !UsernameTaken(old(db.rows), dto.username) ==>
        && r == Success(RegisteredMessage)
        && db.rows == old(db.rows) + [UserRow(old(db.nextId), dto.username, hasher.hash(dto.password, salt))]
        && db.nextId == old(db.nextId) + 1
      ensures old(UsersInvariant(db.rows, db.nextId)) ==> UsersInvariant(db.rows, db.nextId)
    {
      if !ValidatePassword(dto.password) {
        return Failure(WeakPassword);
      }
      if UsernameTaken(db.rows, dto.username) {
        return Failure(UsernameInUse);
      }
      if UsersInvariant(db.rows, db.nextId) {
        InsertKeepsUsersInvariant(db.rows, db.nextId, dto.username, hasher.hash(dto.password, salt));
      }
      db.rows := db.rows + [UserRow(db.nextId, dto.username, hasher.hash(dto.password, salt))];
      db.nextId := db.nextId + 1;
      return Success(RegisteredMessage);
    }

    /** Looks the username up and verifies the password; both failures give the same error.
        Returns the user's id. */
    method LoginUser(dto: LoginDto) returns (r: Result<int, AuthError>)
      ensures r.Failure? ==> r.error == InvalidCredentials
      ensures !UsernameTaken(db.rows, dto.username) ==> r.Failure?
      ensures DistinctBy(db.rows, Username) ==>
                forall u :: u in db.rows && u.username == dto.username ==>
                  r == (if hasher.verify(dto.password, u.passwordHash) then Success(u.id) else Failure(InvalidCredentials))
      ensures r.Success? ==> exists u :: u in db.rows && u.username == dto.username && u.id == r.value
                               && hasher.verify(dto.password, u.passwordHash)
      ensures r.Success? <==> Lookup(db.rows, dto.username).Some?
                              && hasher.verify(dto.password, Lookup(db.rows, dto.username).value.passwordHash)
      ensures r.Success? ==> r.value == Lookup(db.rows, dto.username).value.id
    {
      var found := Lookup(db.rows, dto.username);
      if DistinctBy(db.rows, Username) {
        forall u | u in db.rows && u.username == dto.username ensures found == Some(u) {
          LookupFindsTheRow(db.rows, u);
        }
      }
      if found.None? {
        return Failure(InvalidCredentials);
      }
      var row := found.value;
      if !hasher.verify(dto.password, row.passwordHash) {
        return Failure(InvalidCredentials);
      }
      return Success(row.id);
    }
  }

  /** Registering and then logging in with the same credentials returns the new user's id. */
  method RegisterThenLogin(service: AuthService, dto: LoginDto, salt: nat)
      returns (registered: Result<string, AuthError>, login: Result<int, AuthError>)
    requires service.hasher.Sound()
    requires ValidatePassword(dto.password) && !UsernameTaken(service.db.rows, dto.username)
    modifies service.db
    ensures registered == Success(RegisteredMessage)
    ensures login == Success(old(service.db.nextId))
  {
    registered := service.RegisterUser(dto, salt);
    InsertThenLookup(old(service.db.rows), old(service.db.nextId), dto, service.hasher, salt);
    login := service.LoginUser(dto);
  }

  /** The passwords the source's tests use: "ValidPass1!" is accepted, "shortpass" is not. */
  lemma PasswordExamples()
    ensures ValidatePassword("ValidPass1!")
    ensures !ValidatePassword("shortpass")
  {
    var p := "ValidPass1!";
    assert IsLower(p[1]) && IsUpper(p[0]) && IsDigit(p[9]) && !IsLetterOrDigit(p[10]);
  }
}
