/** The Users table (Id, Username, PasswordHash) and the queries both auth front ends run on it. */
module UserTables {
  import opened Common
  import opened Seqs

  /** One row of dbo.Users; `id` is assigned by the store. */
  datatype UserRow = UserRow(id: int, username: string, passwordHash: string)

  /** The request body of register and login. */
  datatype LoginDto = LoginDto(username: string, password: string)

  /** The password-hashing library, taken as given: `hash` of a password under a random salt,
      and `verify` of a password against a stored hash. */
  datatype Hasher = Hasher(hash: (string, nat) -> string, verify: (string, string) -> bool) {
    /** The one property relied upon: a password verifies against any hash made of it. */
    ghost predicate Sound() {
      forall p, salt :: verify(p, hash(p, salt))
    }
  }

  /** The Users table as the store holds it: its rows and the next value of the identity column. */
  class UserTable {
    var rows: seq<UserRow>
    var nextId: int

    constructor ()
      ensures rows == [] && nextId == 1
    {
      rows := [];
      nextId := 1;
    }
  }

  function Username(u: UserRow): string { u.username }

  function UsernameIs(username: string): UserRow -> bool {
    (u: UserRow) => u.username == username
  }

  /** Some row carries the username: exactly when SELECT COUNT(*) FROM dbo.Users WHERE Username = @u
      is positive. */
  function UsernameTaken(rows: seq<UserRow>, username: string): (r: bool)
    ensures r <==> |Filter(rows, UsernameIs(username))| > 0
  {
    FilterEmptyIff(rows, UsernameIs(username));
    exists i :: 0 <= i < |rows| && rows[i].username == username
  }

  /** SELECT Id, PasswordHash FROM dbo.Users WHERE Username = @u, first row read. */
  function Lookup(rows: seq<UserRow>, username: string): (r: Option<UserRow>)
    ensures r.None? <==> !UsernameTaken(rows, username)
    ensures r.Some? ==> r.value in rows && r.value.username == username
  {
    if |rows| == 0 then None
    else if rows[0].username == username then Some(rows[0])
    else
      var rest := Lookup(rows[1..], username);
      assert UsernameTaken(rows[1..], username) ==> UsernameTaken(rows, username) by {
        if UsernameTaken(rows[1..], username) {
          var i :| 0 <= i < |rows[1..]| && rows[1..][i].username == username;
          assert rows[i + 1].username == username;
        }
      }
      assert UsernameTaken(rows, username) ==> UsernameTaken(rows[1..], username) by {
        if UsernameTaken(rows, username) {
          var i :| 0 <= i < |rows| && rows[i].username == username;
          assert i > 0 && rows[1..][i - 1].username == username;
        }
      }
      rest
  }

  /** What the code keeps true of Users: usernames are unique and every id is below the identity counter. */
  ghost predicate UsersInvariant(rows: seq<UserRow>, nextId: int) {
    && DistinctBy(rows, Username)
    && forall u :: u in rows ==> u.id < nextId
  }

  /** Inserting a row for an unused username at the identity counter keeps the invariant. */
  lemma InsertKeepsUsersInvariant(rows: seq<UserRow>, nextId: int, username: string, hash: string)
    requires UsersInvariant(rows, nextId)
    requires !UsernameTaken(rows, username)
    ensures UsersInvariant(rows + [UserRow(nextId, username, hash)], nextId + 1)
    ensures UsernameTaken(rows + [UserRow(nextId, username, hash)], username)
  {
    var row := UserRow(nextId, username, hash);
    forall y | y in rows ensures Username(y) != Username(row) {
      var k :| 0 <= k < |rows| && rows[k] == y;
    }
    DistinctAppend(rows, row, Username);
    assert (rows + [row])[|rows|] == row;
  }

  /** With unique usernames, the row found is the only row with that username. */
  lemma LookupFindsTheRow(rows: seq<UserRow>, row: UserRow)
    requires DistinctBy(rows, Username)
    requires row in rows
    ensures Lookup(rows, row.username) == Some(row)
  {
  }

  /** A user inserted under an unused username is the one a later lookup of that username finds,
      and the password it was registered with verifies against the stored hash. */
  lemma InsertThenLookup(rows: seq<UserRow>, nextId: int, dto: LoginDto, hasher: Hasher, salt: nat)
    requires !UsernameTaken(rows, dto.username)
    requires hasher.Sound()
    ensures var after := rows + [UserRow(nextId, dto.username, hasher.hash(dto.password, salt))];
            && Lookup(after, dto.username) == Some(UserRow(nextId, dto.username, hasher.hash(dto.password, salt)))
            && hasher.verify(dto.password, Lookup(after, dto.username).value.passwordHash)
  {
    var row := UserRow(nextId, dto.username, hasher.hash(dto.password, salt));
    var after := rows + [row];
    LookupAfterAbsent(rows, row);
  }

  /** Looking up a username that only the appended row carries finds that row. */
  lemma {:induction false} LookupAfterAbsent(rows: seq<UserRow>, row: UserRow)
    requires !UsernameTaken(rows, row.username)
    ensures Lookup(rows + [row], row.username) == Some(row)
  {
    if |rows| == 0 {
      assert rows + [row] == [row];
    } else {
      assert rows[0].username != row.username;
      assert (rows + [row])[1..] == rows[1..] + [row];
      LookupAfterAbsent(rows[1..], row);
    }
  }
}
