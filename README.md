# World builder backend: accounts, worlds and world objects

A model of the backend of a multi-user "world builder". Each account owns up to five named,
bounded 2-D worlds, and objects are placed in those worlds at coordinates. The model covers
three parts of the C# code:

- `WorldService`: the per-owner Worlds store and the object store.
- `AuthService`: the password policy, registration and login over the Users table.
- `AuthController`: the older controller that does the same against the same table and then
  issues a token.

The three SQL tables become in-memory state:

- `UserTables.UserTable` holds the Users rows and the Users identity counter.
- `WorldServices.WorldDb` holds the Worlds rows, the WorldObjects rows and the WorldObjects
  identity counter.

The service classes hold their table object as a `const db`, in place of the connection
string. Each SQL statement is a function on the rows: a `WHERE` clause is a `Seqs.Filter`,
`COUNT(*)` is a length, `MAX(Id)` is an `Option` (SQL `NULL` is `None`), and a reader that keeps
the first row is a first-match lookup. Each service method is a Dafny method. It runs those
queries in the order the source does, returns a tagged `Result` (or `ActionResult`) where the
source throws, and writes the tables as the source's `INSERT`/`DELETE` do. Both loops that read
query results (`while (await r.ReadAsync())`) are `ReadRows`, a loop with invariants.

What the code keeps true of its tables is stated as value-level predicates, and lemmas prove
that each mutation preserves them:

- `WorldTables.WorldsInvariant`: keys `(UserId, Id)` are unique, names are unique per owner,
  and no owner has more than 5 worlds.
- `UserTables.UsersInvariant`: usernames are unique, and every id is below the identity counter.

Each mutating method also promises `old(Invariant) ==> Invariant`.

One point about world ids: they are numbered per owner as `MAX(Id)+1` over that owner's
worlds, so a world's key is `(UserId, Id)`. The code has no global world ids, no cascading
delete and no `0 <= x` check. The model follows the code, and two consequences are listed
under Findings.

`CreateWorldAsync` runs inside one transaction and rolls back on any failure. Every failing path
in the model returns before anything is written, so a rejected call leaves both tables as they
were. That is stated in the method's postconditions.

Password hashing is the `UserTables.Hasher` datatype: two functions, `hash(password, salt)` and
`verify(password, hash)`. The random salt is a method parameter. The only property assumed
about them is `Hasher.Sound()`: `verify(p, hash(p, s))` holds. It is a precondition of the
register-then-login results and nothing else. Tokens are `AuthControllers.Token(subject,
expiresAt)`, and the clock reading `now` (seconds) is a parameter.

## Model

| member | source | states |
|---|---|---|
| `CharClasses.Any` | ICTLU2_Backend_WebAPI/Services/AuthService.cs:66-69 | true exactly when some character of the string satisfies the predicate (LINQ `Any`) |
| `CharClasses.IsLower` | ICTLU2_Backend_WebAPI/Services/AuthService.cs:66 | true exactly for the 26 ASCII lower-case letters |
| `CharClasses.IsUpper` | ICTLU2_Backend_WebAPI/Services/AuthService.cs:67 | true exactly for the 26 ASCII upper-case letters |
| `CharClasses.IsDigit` | ICTLU2_Backend_WebAPI/Services/AuthService.cs:68 | true exactly for the ten decimal digits |
| `CharClasses.IsLetterOrDigit` | ICTLU2_Backend_WebAPI/Services/AuthService.cs:69 | true exactly for the 62 ASCII letters and digits; every other character counts as special |
| `AuthServices.Message` | ICTLU2_Backend_WebAPI/Services/AuthService.cs:15-58 | maps each error tag to the non-empty text the source throws for it (lines 15, 24, 52 and 58) |
| `AuthServices.MessagesDistinct` | ICTLU2_Backend_WebAPI/Services/AuthService.cs:15-58 | two errors with the same text are the same error, so the text identifies the error |
| `AuthServices.ValidatePassword` | ICTLU2_Backend_WebAPI/Services/AuthService.cs:64-69 | holds iff length >= 10 and there is a lower-case letter, an upper-case letter, a digit, and a character that is neither letter nor digit |
| `AuthServices.PasswordExamples` | ICTLU2_Backend_WebAPI/Services/AuthService.cs:64-69 | "ValidPass1!" passes the policy and "shortpass" (from the tests) fails it |
| `AuthServices.AuthService.RegisterUser` | ICTLU2_Backend_WebAPI/Services/AuthService.cs:12-36 | weak password: WeakPassword, Users unchanged; then taken username: UsernameInUse, Users unchanged; otherwise exactly one row `(nextId, username, hash(password, salt))` is appended and the success message returned; the Users invariant is preserved |
| `AuthServices.AuthService.LoginUser` | ICTLU2_Backend_WebAPI/Services/AuthService.cs:39-61 | reads only; every failure is the same InvalidCredentials value; unknown username fails; with unique usernames, it succeeds with that row's id iff the password verifies against its hash |
| `AuthServices.RegisterThenLogin` | ICTLU2_Backend_WebAPI/Services/AuthService.cs:27-58 | given a sound hasher, registering a valid unused username and then logging in with the same credentials returns the new row's id |
| `AuthControllers.GenerateJwt` | ICTLU2_Backend_WebAPI/Controllers/AuthController.cs:83-95 | the token's subject is the user id and it expires after the moment it was issued (one day later) |
| `AuthControllers.ValidatePassword` | ICTLU2_Backend_WebAPI/Controllers/AuthController.cs:97-102 | the controller's copy of the policy accepts exactly the passwords the service's copy accepts |
| `AuthControllers.AuthController.Register` | ICTLU2_Backend_WebAPI/Controllers/AuthController.cs:26-54 | weak password: BadRequest, no insert; taken username: BadRequest, no insert; otherwise one row `(nextId, username, hash)` inserted and Ok; the Users invariant is preserved |
| `AuthControllers.AuthController.Login` | ICTLU2_Backend_WebAPI/Controllers/AuthController.cs:57-81 | reads only; unknown user and failed verification both give Unauthorized; on success the token's subject is the id of a row with that username whose hash verifies (with unique usernames: that row, iff it verifies) |
| `AuthControllers.RegisterThenLogin` | ICTLU2_Backend_WebAPI/Controllers/AuthController.cs:26-81 | given a sound hasher, register then login through the controller yields a token whose subject is the new user's id |
| `UserTables.UsernameTaken` | ICTLU2_Backend_WebAPI/Services/AuthService.cs:20-23 | some row has the username exactly when the COUNT(*) of rows with that username is positive (the same check is at AuthController.cs:34-40) |
| `UserTables.Lookup` | ICTLU2_Backend_WebAPI/Services/AuthService.cs:44-55 | None iff no row has the username; otherwise a row of the table with that username |
| `UserTables.InsertKeepsUsersInvariant` | ICTLU2_Backend_WebAPI/Services/AuthService.cs:21-33 | appending a row for an unused username at the identity counter keeps usernames unique and ids below the counter |
| `UserTables.LookupFindsTheRow` | ICTLU2_Backend_WebAPI/Services/AuthService.cs:44-55 | with unique usernames, the lookup returns the one row carrying that username |
| `UserTables.LookupAfterAbsent` | ICTLU2_Backend_WebAPI/Services/AuthService.cs:27-51 | after appending a row for a username no earlier row has, the lookup finds the appended row |
| `UserTables.InsertThenLookup` | ICTLU2_Backend_WebAPI/Services/AuthService.cs:27-58 | after registering, the lookup finds the new row and the registered password verifies against its stored hash |
| `WorldTables.OwnedBy` | ICTLU2_Backend_WebAPI/Services/WorldService.cs:19-23 | exactly the rows whose UserId is the owner |
| `WorldTables.CountOwned` | ICTLU2_Backend_WebAPI/Services/WorldService.cs:53-58 | at most the number of rows, and zero exactly when no row belongs to the owner |
| `WorldTables.HasName` | ICTLU2_Backend_WebAPI/Services/WorldService.cs:62-68 | the owner has a world of that name exactly when the COUNT(*) of rows with that owner and name is positive |
| `WorldTables.MaxOwnedId` | ICTLU2_Backend_WebAPI/Services/WorldService.cs:72-77 | None iff the owner has no world; otherwise an id of one of the owner's worlds that no other id of the owner exceeds |
| `WorldTables.NextWorldId` | ICTLU2_Backend_WebAPI/Services/WorldService.cs:72-77 | greater than every id the owner holds, hence different from each; 1 when the owner has no world |
| `WorldTables.WorldExists` | ICTLU2_Backend_WebAPI/Services/WorldService.cs:109-118 | the world (worldId, owner) exists exactly when the query on Id and UserId matches some row (the same lookup is at lines 170-179) |
| `WorldTables.FindWorld` | ICTLU2_Backend_WebAPI/Services/WorldService.cs:109-118 | None iff no row has key (worldId, owner); otherwise a row of the table with that key |
| `WorldTables.KeyRows` | ICTLU2_Backend_WebAPI/Services/WorldService.cs:152-160 | the rows the scoped DELETE affects: exactly those with the key; none iff the world does not exist for that owner |
| `WorldTables.RemoveKey` | ICTLU2_Backend_WebAPI/Services/WorldService.cs:152-159 | exactly the rows without the key remain; the table is unchanged when no row has the key |
| `WorldTables.ObjectsIn` | ICTLU2_Backend_WebAPI/Services/WorldService.cs:130-134 | exactly the object rows whose WorldId is the world id, whatever their owner |
| `WorldTables.OwnedObjectsIn` | ICTLU2_Backend_WebAPI/Services/WorldService.cs:130-134 | corrected query: exactly the object rows of that owner and that world id |
| `WorldTables.RemoveObjectsOf` | ICTLU2_Backend_WebAPI/Services/WorldService.cs:152-154 | corrected cascade: exactly the object rows not of (owner, world id) remain |
| `WorldTables.OutOfBounds` | ICTLU2_Backend_WebAPI/Services/WorldService.cs:186 | a point of the world's rectangle, edges included, is inside; a point past the width or the height is outside; a point left of or below the rectangle is not rejected |
| `WorldTables.OwnedAfterInsert` | ICTLU2_Backend_WebAPI/Services/WorldService.cs:80-90 | an insert adds the row at the end of its owner's worlds and leaves every other owner's worlds as they were; the owner's count grows by one |
| `WorldTables.CreateKeepsInvariant` | ICTLU2_Backend_WebAPI/Services/WorldService.cs:53-93 | the row CreateWorld inserts keeps keys unique, names unique per owner and every owner within 5 worlds |
| `WorldTables.DeleteKeepsInvariant` | ICTLU2_Backend_WebAPI/Services/WorldService.cs:152-159 | the scoped delete keeps keys unique, names unique per owner and every owner within 5 worlds |
| `WorldTables.FindWorldIsTheRow` | ICTLU2_Backend_WebAPI/Services/WorldService.cs:109-118 | with unique keys, the lookup returns the one row with that key |
| `WorldServices.Message` | ICTLU2_Backend_WebAPI/Services/WorldService.cs:40-187 | maps each error tag to the non-empty text the source throws for it (lines 40, 42, 44, 59, 69, 118, 161, 179 and 187) |
| `WorldServices.MessagesDistinct` | ICTLU2_Backend_WebAPI/Services/WorldService.cs:40-187 | two errors with the same text are the same error, so the text identifies the error |
| `WorldServices.ValidateWorld` | ICTLU2_Backend_WebAPI/Services/WorldService.cs:39-44 | name length outside 1..25 is reported first, then width outside 20..200, then height outside 10..100; no error iff all three hold |
| `WorldServices.ReadRows` | ICTLU2_Backend_WebAPI/Services/WorldService.cs:26-31 | one record per row read, in order (the same loop reads the objects at lines 137-142) |
| `WorldServices.WorldService.GetUserWorlds` | ICTLU2_Backend_WebAPI/Services/WorldService.cs:12-34 | changes nothing; returns exactly the caller's worlds, one per row, and every world of the caller is among them |
| `WorldServices.WorldService.CreateWorld` | ICTLU2_Backend_WebAPI/Services/WorldService.cs:36-100 | input errors in order before any table is read; 5 or more worlds: TooManyWorlds; a same-named world of the same owner: DuplicateName; each failure leaves the tables unchanged; success appends exactly `(userId, newId, name, width, height)` with newId = owner's MAX+1, returns newId, leaves objects and other owners' worlds unchanged, keeps the owner within 5 worlds and preserves the Worlds invariant |
| `WorldServices.WorldService.GetWorld` | ICTLU2_Backend_WebAPI/Services/WorldService.cs:103-145 | changes nothing; NotFound iff the caller owns no world with that id (another owner's world with that id also gives NotFound); on success the world and one record per object row whose WorldId is the id; with unique keys, the world is the one row with that key |
| `WorldServices.WorldService.GetWorldScoped` | ICTLU2_Backend_WebAPI/Services/WorldService.cs:128-142 | corrected GetWorld: same world lookup, and the objects are exactly the caller's objects in that world; with unique keys, the world is the one row with that key |
| `WorldServices.WorldService.DeleteWorld` | ICTLU2_Backend_WebAPI/Services/WorldService.cs:147-162 | removes exactly the Worlds rows keyed (worldId, userId); NotFound iff there were none, then nothing changed; WorldObjects untouched; invariant preserved |
| `WorldServices.WorldService.DeleteWorldCascade` | ICTLU2_Backend_WebAPI/Services/WorldService.cs:147-162 | corrected delete: the Worlds rows and the result as DeleteWorld, and exactly the objects keyed (worldId, userId) are removed, on NotFound too; afterwards none of the world's objects is left |
| `WorldServices.WorldService.AddObjectToWorld` | ICTLU2_Backend_WebAPI/Services/WorldService.cs:164-203 | NotFound for a world the caller does not own; OutsideBounds iff x > width or y > height (the bound itself is inside, negatives are not rejected); otherwise appends one row `(id, userId, worldId, type, x, y)` and returns its id, which is fresh; with unique keys, the bounds are those of the one row with that key |
| `WorldServices.CascadeLeavesNoObjects` | ICTLU2_Backend_WebAPI/Services/WorldService.cs:152-154 | after the corrected cascade no object of that owner's world remains |
| `WorldServices.ObjectsLeakAcrossOwners` | ICTLU2_Backend_WebAPI/Services/WorldService.cs:129-134 | in a state that satisfies the Worlds invariant, owner 2's world 1 query returns owner 1's object; the scoped query returns none |
| `WorldServices.DeletedWorldObjectsReappear` | ICTLU2_Backend_WebAPI/Services/WorldService.cs:147-154 | after deleting an owner's only world, the next world gets the same id, and the object the delete left behind belongs to it |
| `WorldServices.BoundsExamples` | ICTLU2_Backend_WebAPI/Services/WorldService.cs:186-187 | a point on the width/height bound is inside, one past it is outside, negative coordinates are inside |

## Left out

- SQL connections, commands, readers and async/await are replaced by in-memory tables. An
  exception becomes a `Failure` whose error tag `Message` maps to the source's text.
- Concurrency and isolation are not modelled. Each service call is one atomic step, so the races
  between concurrent `CreateWorld` or `Register` calls (check-then-insert) are not modelled.
- The database schema is not part of this model. It might add constraints (unique, foreign key,
  cascade), but only the identity columns of Users and WorldObjects are modelled, as counters.
- BCrypt hashing is treated as unknown functions. Only `verify(p, hash(p, salt))` is assumed,
  and only where stated.
- JWT creation and signing are not modelled. The signing key, the claim's string encoding and the
  signature are left out, and validation by the bearer middleware (Program.cs) is left out too.
- `char.IsLower/IsUpper/IsDigit/IsLetterOrDigit` are ASCII ranges here. Unicode letters outside
  ASCII are treated as symbols.
- String comparison is exact equality. Collation rules of the database (case folding, trailing
  spaces) are not modelled.
- Every string length is the number of Dafny characters, not of UTF-16 code units. This concerns
  `Name.Length` in `WorldServices.ValidateWorld` and `password.Length >= 10` in
  `AuthServices.ValidatePassword` and `AuthControllers.ValidatePassword`: a string with characters
  outside the Basic Multilingual Plane (emoji) is shorter here than in C#, so the model can reject
  a password or accept a name that the source treats otherwise.
- Coordinates are `real`. The `(float)` casts of the object query and all floating-point rounding
  are not modelled.
- Ids are unbounded integers. The 32-bit overflow of `MAX(Id)+1` and of the identity columns is not
  modelled.
- Queries without `ORDER BY` return rows in table order here. A reader that keeps one row takes the first match.
- AuthServices.AuthService.LoginUser: returns the id as an integer. The `id.ToString()` rendering
  is not modelled.
- AuthControllers.Token: the subject is the integer id, not its string form in the claim.
- WorldController.cs (HTTP routing, claim parsing, exception-to-status mapping), Program.cs and
  the two interfaces are not part of this model. The tests and test doubles are used only for
  their messages and check order.
- The DTO and Models folders are not part of this model. Field types are inferred from use:
  `WorldCreateDto(Name, Width, Height)`, `ObjectCreateDto(Type, X, Y)`, and `LoginDto(Username, Password)`.
  DTO string fields are never null here. In C#, a null `Name` (WorldService.cs:39) or a null
  `Password` (AuthService.cs:65, AuthController.cs:97) throws a NullReferenceException before any
  of the modelled errors.

## Findings

| source | as written | input that shows it | evidently intended | confidence | as-written member | corrected member |
|---|---|---|---|---|---|---|
| ICTLU2_Backend_WebAPI/Services/WorldService.cs:130-134 | objects of a world are selected by `WorldId` alone, yet world ids are numbered per owner | owner 1 and owner 2 each have a world with id 1; owner 1 put an object in it; owner 2 calls GetWorld(1) and receives owner 1's object | select by `WorldId` and `UserId`, so an owner sees only its own objects | not executed; high | `WorldServices.ObjectsLeakAcrossOwners` (of `WorldServices.WorldService.GetWorld`) | `WorldServices.WorldService.GetWorldScoped` |
| ICTLU2_Backend_WebAPI/Services/WorldService.cs:152-154 | the delete removes the Worlds row only, and the next id is the owner's MAX+1 | owner 1's only world (id 1) holds an object; delete it, create a new world: it gets id 1 and already holds the old object | deleting a world also deletes its objects | not executed; medium (a cascading foreign key in the schema, which is not part of this model, would prevent it) | `WorldServices.DeletedWorldObjectsReappear` (of `WorldServices.WorldService.DeleteWorld`) | `WorldServices.WorldService.DeleteWorldCascade` |
