/** The Worlds and WorldObjects tables, the queries the world service runs on them,
    and what those queries keep true of the tables. */
module WorldTables {
  import opened Common
  import opened Seqs

  const MaxWorldsPerUser := 5

  /** One row of Worlds. The key is (userId, id): world ids are numbered per owner. */
  datatype WorldRow = WorldRow(userId: int, id: int, name: string, width: int, height: int) {
    predicate HasKey(owner: int, worldId: int) { userId == owner && id == worldId }
    /** The World record the service hands out (the owner column is not part of it). */
    function View(): World { World(id, name, width, height) }
  }

  datatype World = World(id: int, name: string, width: int, height: int)

  /** One row of WorldObjects; `id` is an identity column. Coordinates are reals. */
  datatype ObjectRow = ObjectRow(id: int, userId: int, worldId: int, kind: string, x: real, y: real) {
    function View(): WorldObject { WorldObject(id, kind, x, y) }
  }

  datatype WorldObject = WorldObject(id: int, kind: string, x: real, y: real)

  // ----- queries on Worlds -----

  /** The WHERE clauses, as named filters so that every query uses the same one. */
  function OwnerIs(owner: int): WorldRow -> bool {
    (w: WorldRow) => w.userId == owner
  }

  function KeyIsNot(owner: int, worldId: int): WorldRow -> bool {
    (w: WorldRow) => !w.HasKey(owner, worldId)
  }

  /** SELECT ... FROM Worlds WHERE UserId = @uid */
  function OwnedBy(rows: seq<WorldRow>, owner: int): (r: seq<WorldRow>)
    ensures forall w :: w in r <==> w in rows && w.userId == owner
  {
    Filter(rows, OwnerIs(owner))
  }

  function OwnerAndNameIs(owner: int, name: string): WorldRow -> bool {
    (w: WorldRow) => w.userId == owner && w.name == name
  }

  function KeyIs(owner: int, worldId: int): WorldRow -> bool {
    (w: WorldRow) => w.HasKey(owner, worldId)
  }

  /** SELECT COUNT(*) FROM Worlds WHERE UserId = @uid: at most the table's size, and zero
      exactly when the owner has no world. */
  function CountOwned(rows: seq<WorldRow>, owner: int): (r: nat)
    ensures r <= |rows|
    ensures r == 0 <==> forall i :: 0 <= i < |rows| ==> rows[i].userId != owner
  {
    FilterEmptyIff(rows, OwnerIs(owner));
    |OwnedBy(rows, owner)|
  }

  /** The owner has a world of that name: exactly when
      SELECT COUNT(*) FROM Worlds WHERE UserId = @uid AND Name = @name is positive. */
  function HasName(rows: seq<WorldRow>, owner: int, name: string): (r: bool)
    ensures r <==> |Filter(rows, OwnerAndNameIs(owner, name))| > 0
  {
    FilterEmptyIff(rows, OwnerAndNameIs(owner, name));
    exists i :: 0 <= i < |rows| && rows[i].userId == owner && rows[i].name == name
  }

  /** SELECT MAX(Id) FROM Worlds WHERE UserId = @uid; None is SQL's NULL for an owner without worlds. */
  function MaxOwnedId(rows: seq<WorldRow>, owner: int): (r: Option<int>)
    ensures r.None? <==> forall i :: 0 <= i < |rows| ==> rows[i].userId != owner
    ensures r.Some? ==> forall i :: 0 <= i < |rows| && rows[i].userId == owner ==> rows[i].id <= r.value
    ensures r.Some? ==> exists i :: 0 <= i < |rows| && rows[i].userId == owner && rows[i].id == r.value
  {
    if |rows| == 0 then None
    else
      var rest := MaxOwnedId(rows[1..], owner);
      assert forall i :: 1 <= i < |rows| ==> rows[i] == rows[1..][i - 1];
      if rows[0].userId != owner then
        assert rest.Some? ==> exists i :: 0 <= i < |rows| && rows[i].userId == owner && rows[i].id == rest.value by {
          if rest.Some? {
            var k :| 0 <= k < |rows[1..]| && rows[1..][k].userId == owner && rows[1..][k].id == rest.value;
            assert rows[k + 1] == rows[1..][k];
          }
        }
        rest
      else if rest.Some? && rest.value > rows[0].id then
        assert exists i :: 0 <= i < |rows| && rows[i].userId == owner && rows[i].id == rest.value by {
          var k :| 0 <= k < |rows[1..]| && rows[1..][k].userId == owner && rows[1..][k].id == rest.value;
          assert rows[k + 1] == rows[1..][k];
        }
        rest
      else
        Some(rows[0].id)
  }

  /** SELECT ISNULL(MAX(Id), 0) + 1 FROM Worlds WHERE UserId = @uid: the id a new world gets. */
  function NextWorldId(rows: seq<WorldRow>, owner: int): (r: int)
    ensures forall i :: 0 <= i < |rows| && rows[i].userId == owner ==> rows[i].id < r
    ensures (forall i :: 0 <= i < |rows| ==> rows[i].userId != owner) ==> r == 1
  {
    match MaxOwnedId(rows, owner)
    case None => 0 + 1
    case Some(m) => m + 1
  }

  /** A world (worldId, owner) is in the table: exactly when a query
      WHERE Id = @id AND UserId = @uid matches some row. */
  function WorldExists(rows: seq<WorldRow>, owner: int, worldId: int): (r: bool)
    ensures r <==> |Filter(rows, KeyIs(owner, worldId))| > 0
  {
    FilterEmptyIff(rows, KeyIs(owner, worldId));
    exists i :: 0 <= i < |rows| && rows[i].HasKey(owner, worldId)
  }

  /** SELECT ... FROM Worlds WHERE Id = @id AND UserId = @uid, first row read. */
  function FindWorld(rows: seq<WorldRow>, owner: int, worldId: int): (r: Option<WorldRow>)
    ensures r.None? <==> !WorldExists(rows, owner, worldId)
    ensures r.Some? ==> r.value in rows && r.value.HasKey(owner, worldId)
  {
    if |rows| == 0 then None
    else if rows[0].HasKey(owner, worldId) then Some(rows[0])
    else
      var rest := FindWorld(rows[1..], owner, worldId);
      assert WorldExists(rows, owner, worldId) ==> WorldExists(rows[1..], owner, worldId) by {
        if WorldExists(rows, owner, worldId) {
          var i :| 0 <= i < |rows| && rows[i].HasKey(owner, worldId);
          assert rows[1..][i - 1] == rows[i];
        }
      }
      assert WorldExists(rows[1..], owner, worldId) ==> WorldExists(rows, owner, worldId) by {
        if WorldExists(rows[1..], owner, worldId) {
          var i :| 0 <= i < |rows[1..]| && rows[1..][i].HasKey(owner, worldId);
          assert rows[i + 1] == rows[1..][i];
        }
      }
      rest
  }

  /** The rows DELETE FROM Worlds WHERE Id = @id AND UserId = @uid removes. */
  function KeyRows(rows: seq<WorldRow>, owner: int, worldId: int): (r: seq<WorldRow>)
    ensures forall w :: w in r <==> w in rows && w.HasKey(owner, worldId)
    ensures |r| == 0 <==> !WorldExists(rows, owner, worldId)
  {
    Filter(rows, KeyIs(owner, worldId))
  }

  /** The table after DELETE FROM Worlds WHERE Id = @id AND UserId = @uid. */
  function RemoveKey(rows: seq<WorldRow>, owner: int, worldId: int): (r: seq<WorldRow>)
    ensures forall w :: w in r <==> w in rows && !w.HasKey(owner, worldId)
    ensures !WorldExists(rows, owner, worldId) ==> r == rows
  {
    var r := Filter(rows, KeyIsNot(owner, worldId));
    if !WorldExists(rows, owner, worldId) then
      FilterAll(rows, KeyIsNot(owner, worldId));
      r
    else r
  }

  // ----- queries on WorldObjects -----

  function InWorld(worldId: int): ObjectRow -> bool {
    (o: ObjectRow) => o.worldId == worldId
  }

  function InOwnedWorld(owner: int, worldId: int): ObjectRow -> bool {
    (o: ObjectRow) => o.userId == owner && o.worldId == worldId
  }

  /** SELECT ... FROM WorldObjects WHERE WorldId = @worldId (the owner column is not consulted). */
  function ObjectsIn(objects: seq<ObjectRow>, worldId: int): (r: seq<ObjectRow>)
    ensures forall o :: o in r <==> o in objects && o.worldId == worldId
  {
    Filter(objects, InWorld(worldId))
  }

  /** The objects of world (worldId, owner): selected by both key columns. */
  function OwnedObjectsIn(objects: seq<ObjectRow>, owner: int, worldId: int): (r: seq<ObjectRow>)
    ensures forall o :: o in r <==> o in objects && o.userId == owner && o.worldId == worldId
  {
    Filter(objects, InOwnedWorld(owner, worldId))
  }

  /** WorldObjects after deleting the objects of world (worldId, owner). */
  function RemoveObjectsOf(objects: seq<ObjectRow>, owner: int, worldId: int): (r: seq<ObjectRow>)
    ensures forall o :: o in r <==> o in objects && !(o.userId == owner && o.worldId == worldId)
  {
    Filter(objects, (o: ObjectRow) => !(o.userId == owner && o.worldId == worldId))
  }

  /** An object at (x, y) lies outside a world of this size. Every point of the world's
      rectangle, its edges included, is inside; anything past the right or the top edge is
      outside; and, as only the upper bounds are checked, a point left of or below the
      rectangle is not rejected. */
  function OutOfBounds(x: real, y: real, width: int, height: int): (r: bool)
    ensures 0.0 <= x <= width as real && 0.0 <= y <= height as real ==> !r
    ensures x > width as real || y > height as real ==> r
    ensures x < 0.0 <= width as real && y <= height as real ==> !r
    ensures y < 0.0 <= height as real && x <= width as real ==> !r
  {
    x > width as real || y > height as real
  }

  // ----- what the code keeps true of Worlds -----

  function WorldKey(w: WorldRow): (int, int) { (w.userId, w.id) }

  function OwnerAndName(w: WorldRow): (int, string) { (w.userId, w.name) }

  ghost predicate WithinQuota(rows: seq<WorldRow>) {
    forall owner :: CountOwned(rows, owner) <= MaxWorldsPerUser
  }

  /** Keys unique, names unique per owner, at most five worlds per owner. */
  ghost predicate WorldsInvariant(rows: seq<WorldRow>) {
    && DistinctBy(rows, WorldKey)
    && DistinctBy(rows, OwnerAndName)
    && WithinQuota(rows)
  }

  /** Inserting a world changes the owned worlds of its owner only, by one at the end. */
  lemma OwnedAfterInsert(rows: seq<WorldRow>, row: WorldRow, owner: int)
    ensures OwnedBy(rows + [row], owner) == OwnedBy(rows, owner) + (if row.userId == owner then [row] else [])
    ensures CountOwned(rows + [row], owner) == CountOwned(rows, owner) + (if row.userId == owner then 1 else 0)
  {
    FilterAppend(rows, row, OwnerIs(owner));
  }

  /** The world CreateWorld inserts keeps the invariant: a fresh key, an unused name, room in the quota. */
  lemma CreateKeepsInvariant(rows: seq<WorldRow>, row: WorldRow)
    requires WorldsInvariant(rows)
    requires CountOwned(rows, row.userId) < MaxWorldsPerUser
    requires !HasName(rows, row.userId, row.name)
    requires row.id == NextWorldId(rows, row.userId)
    ensures WorldsInvariant(rows + [row])
  {
    forall y | y in rows ensures WorldKey(y) != WorldKey(row) && OwnerAndName(y) != OwnerAndName(row) {
      var k :| 0 <= k < |rows| && rows[k] == y;
    }
    DistinctAppend(rows, row, WorldKey);
    DistinctAppend(rows, row, OwnerAndName);
    forall owner ensures CountOwned(rows + [row], owner) <= MaxWorldsPerUser {
      OwnedAfterInsert(rows, row, owner);
    }
  }

  /** Deleting a world keeps the invariant. */
  lemma DeleteKeepsInvariant(rows: seq<WorldRow>, owner: int, worldId: int)
    requires WorldsInvariant(rows)
    ensures WorldsInvariant(RemoveKey(rows, owner, worldId))
  {
    var keep := KeyIsNot(owner, worldId);
    FilterKeepsDistinct(rows, WorldKey, keep);
    FilterKeepsDistinct(rows, OwnerAndName, keep);
    forall v ensures CountOwned(RemoveKey(rows, owner, worldId), v) <= MaxWorldsPerUser {
      FilterFilterLength(rows, keep, OwnerIs(v));
      assert CountOwned(rows, v) <= MaxWorldsPerUser;
    }
  }

  /** With unique keys, the world found is the only row with that key. */
  lemma FindWorldIsTheRow(rows: seq<WorldRow>, row: WorldRow)
    requires DistinctBy(rows, WorldKey)
    requires row in rows
    ensures FindWorld(rows, row.userId, row.id) == Some(row)
  {
  }
}
