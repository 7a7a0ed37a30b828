/** WorldService: list, create, get and delete an owner's worlds and add objects to them. */
module WorldServices {
  import opened Common
  import opened Seqs
  import opened WorldTables

  datatype WorldCreateDto = WorldCreateDto(name: string, width: int, height: int)

  datatype ObjectCreateDto = ObjectCreateDto(kind: string, x: real, y: real)

  datatype WorldError =
    | InvalidName | InvalidWidth | InvalidHeight
    | TooManyWorlds | DuplicateName
    | WorldNotFound | OutsideBounds

  /** The text of the exception the service throws for each error; none is empty. */
  function Message(e: WorldError): (text: string)
    ensures |text| > 0
  {
    match e
    case InvalidName => "Naam moet tussen 1-25 tekens zijn"
    case InvalidWidth => "Breedte moet tussen 20-200 zijn"
    case InvalidHeight => "Hoogte moet tussen 10-100 zijn"
    case TooManyWorlds => "Maximaal 5 werelden per gebruiker"
    case DuplicateName => "Wereldnaam bestaat al"
    case WorldNotFound => "Wereld niet gevonden"
    case OutsideBounds => "Object valt buiten wereldgrenzen"
  }

  /** Different errors are thrown with different texts, so a caller can tell them apart by text. */
  lemma MessagesDistinct(e1: WorldError, e2: WorldError)
    requires Message(e1) == Message(e2)
    ensures e1 == e2
  {
  }

  predicate NameLengthOk(name: string) { 1 <= |name| <= 25 }
  predicate WidthOk(width: int) { 20 <= width <= 200 }
  predicate HeightOk(height: int) { 10 <= height <= 100 }

  /** The input checks of CreateWorld, in the order the source makes them. */
  function ValidateWorld(dto: WorldCreateDto): (r: Option<WorldError>)
    ensures r.None? <==> NameLengthOk(dto.name) && WidthOk(dto.width) && HeightOk(dto.height)
    ensures r == Some(InvalidName) <==> !NameLengthOk(dto.name)
    ensures r == Some(InvalidWidth) <==> NameLengthOk(dto.name) && !WidthOk(dto.width)
    ensures r == Some(InvalidHeight) <==> NameLengthOk(dto.name) && WidthOk(dto.width) && !HeightOk(dto.height)
  {
    if !NameLengthOk(dto.name) then Some(InvalidName)
    else if !WidthOk(dto.width) then Some(InvalidWidth)
    else if !HeightOk(dto.height) then Some(InvalidHeight)
    else None
  }

  /** Reads the rows of a query one at a time (the `while (ReadAsync)` loops) into the
      records the service returns, one per row, in order. */
  method ReadRows<R, V>(rows: seq<R>, view: R -> V) returns (records: seq<V>)
    ensures |records| == |rows|
    ensures forall k :: 0 <= k < |rows| ==> records[k] == view(rows[k])
  {
    records := [];
    var i := 0;
    while i < |rows|
      invariant 0 <= i <= |rows|
      invariant |records| == i
      invariant forall k :: 0 <= k < i ==> records[k] == view(rows[k])
    {
      records := records + [view(rows[i])];
      i := i + 1;
    }
  }

  /** The two tables as the store holds them, with the identity counter of WorldObjects. */
  class WorldDb {
    var worlds: seq<WorldRow>
    var objects: seq<ObjectRow>
    var nextObjectId: int

    constructor ()
      ensures worlds == [] && objects == [] && nextObjectId == 1
    {
      worlds := [];
      objects := [];
      nextObjectId := 1;
    }
  }

  /** Every object id is below the identity counter. */
  ghost predicate ObjectIdsBelow(objects: seq<ObjectRow>, next: int) {
    forall o :: o in objects ==> o.id < next
  }

  class WorldService {
    const db: WorldDb

    constructor (db: WorldDb)
      ensures this.db == db
    {
      this.db := db;
    }

    /** The worlds whose owner is `userId`, in table order; nothing is changed. */
    method GetUserWorlds(userId: int) returns (worlds: seq<World>)
      ensures |worlds| == CountOwned(db.worlds, userId)
      ensures forall k :: 0 <= k < |worlds| ==> worlds[k] == OwnedBy(db.worlds, userId)[k].View()
      ensures forall w :: w in db.worlds && w.userId == userId ==> w.View() in worlds
    {
      var rows := OwnedBy(db.worlds, userId);
      worlds := ReadRows(rows, (w: WorldRow) => w.View());
      forall w | w in db.worlds && w.userId == userId ensures w.View() in worlds {
        var k :| 0 <= k < |rows| && rows[k] == w;
        assert worlds[k] == w.View();
      }
    }

    /** Validates the input, then, as one transaction: rejects a sixth world, rejects a name the
        owner already uses, and inserts the world under the owner's next id. A rejected call
        changes no table. */
    method CreateWorld(userId: int, dto: WorldCreateDto) returns (r: Result<int, WorldError>)
      modifies db
      ensures db.objects == old(db.objects) && db.nextObjectId == old(db.nextObjectId)
      ensures ValidateWorld(dto).Some? ==>
        r == Failure(ValidateWorld(dto).value) && db.worlds == old(db.worlds)
      ensures ValidateWorld(dto).None? && CountOwned(old(db.worlds), userId) >= MaxWorldsPerUser ==>
        r == Failure(TooManyWorlds) && db.worlds == old(db.worlds)
      ensures ValidateWorld(dto).None? && CountOwned(old(db.worlds), userId) < MaxWorldsPerUser
              && HasName(old(db.worlds), userId, dto.name) ==>
        r == Failure(DuplicateName) && db.worlds == old(db.worlds)
      ensures ValidateWorld(dto).None? && CountOwned(old(db.worlds), userId) < MaxWorldsPerUser
              && !HasName(old(db.worlds), userId, dto.name) ==>
        && r == Success(NextWorldId(old(db.worlds), userId))
        && db.worlds == old(db.worlds) + [WorldRow(userId, r.value, dto.name, dto.width, dto.height)]
      ensures r.Success? ==>
        && CountOwned(db.worlds, userId) <= MaxWorldsPerUser
        && (forall w :: w in old(db.worlds) && w.userId == userId ==> w.id != r.value)
        && (forall v :: v != userId ==> OwnedBy(db.worlds, v) == OwnedBy(old(db.worlds), v))
      ensures old(WorldsInvariant(db.worlds)) ==> WorldsInvariant(db.worlds)
    {
      var invalid := ValidateWorld(dto);
      if invalid.Some? {
        return Failure(invalid.value);
      }
      if CountOwned(db.worlds, userId) >= MaxWorldsPerUser {
        return Failure(TooManyWorlds);
      }
      if HasName(db.worlds, userId, dto.name) {
        return Failure(DuplicateName);
      }
      var newId := NextWorldId(db.worlds, userId);
      var row := WorldRow(userId, newId, dto.name, dto.width, dto.height);
      forall v ensures OwnedBy(db.worlds + [row], v) == OwnedBy(db.worlds, v) + (if v == userId then [row] else []) {
        OwnedAfterInsert(db.worlds, row, v);
      }
      forall w | w in db.worlds && w.userId == userId ensures w.id != newId {
        var k :| 0 <= k < |db.worlds| && db.worlds[k] == w;
      }
      if WorldsInvariant(db.worlds) {
        CreateKeepsInvariant(db.worlds, row);
      }
      db.worlds := db.worlds + [row];
      return Success(newId);
    }

    /** The world (worldId, userId) and every object whose WorldId is worldId; NotFound when the
        caller owns no such world, whoever else does. */
    method GetWorld(userId: int, worldId: int) returns (r: Result<(World, seq<WorldObject>), WorldError>)
      ensures !WorldExists(db.worlds, userId, worldId) ==> r == Failure(WorldNotFound)
      ensures WorldExists(db.worlds, userId, worldId) ==> r.Success?
      ensures r.Success? ==>
        && r.value.0 == FindWorld(db.worlds, userId, worldId).value.View()
        && r.value.0.id == worldId
        && |r.value.1| == |ObjectsIn(db.objects, worldId)|
        && forall k :: 0 <= k < |r.value.1| ==> r.value.1[k] == ObjectsIn(db.objects, worldId)[k].View()
      ensures DistinctBy(db.worlds, WorldKey) ==>
        forall w :: w in db.worlds && w.HasKey(userId, worldId) ==> r.Success? && r.value.0 == w.View()
    {
      var found := FindWorld(db.worlds, userId, worldId);
      if DistinctBy(db.worlds, WorldKey) {
        forall w | w in db.worlds && w.HasKey(userId, worldId) ensures found == Some(w) {
          FindWorldIsTheRow(db.worlds, w);
        }
      }
      if found.None? {
        return Failure(WorldNotFound);
      }
      var world := World(worldId, found.value.name, found.value.width, found.value.height);
      var objects := ReadRows(ObjectsIn(db.objects, worldId), (o: ObjectRow) => o.View());
      return Success((world, objects));
    }

    /** GetWorld with the object query scoped to the owner as well as the world id. */
    method GetWorldScoped(userId: int, worldId: int) returns (r: Result<(World, seq<WorldObject>), WorldError>)
      ensures !WorldExists(db.worlds, userId, worldId) ==> r == Failure(WorldNotFound)
      ensures WorldExists(db.worlds, userId, worldId) ==> r.Success?
      ensures r.Success? ==>
        && r.value.0 == FindWorld(db.worlds, userId, worldId).value.View()
        && |r.value.1| == |OwnedObjectsIn(db.objects, userId, worldId)|
        && forall k :: 0 <= k < |r.value.1| ==>
             && r.value.1[k] == OwnedObjectsIn(db.objects, userId, worldId)[k].View()
             && OwnedObjectsIn(db.objects, userId, worldId)[k].userId == userId
      ensures DistinctBy(db.worlds, WorldKey) ==>
        forall w :: w in db.worlds && w.HasKey(userId, worldId) ==> r.Success? && r.value.0 == w.View()
    {
      var found := FindWorld(db.worlds, userId, worldId);
      if DistinctBy(db.worlds, WorldKey) {
        forall w | w in db.worlds && w.HasKey(userId, worldId) ensures found == Some(w) {
          FindWorldIsTheRow(db.worlds, w);
        }
      }
      if found.None? {
        return Failure(WorldNotFound);
      }
      var world := World(worldId, found.value.name, found.value.width, found.value.height);
      var rows := OwnedObjectsIn(db.objects, userId, worldId);
      var objects := ReadRows(rows, (o: ObjectRow) => o.View());
      assert forall k :: 0 <= k < |rows| ==> rows[k] in rows;
      return Success((world, objects));
    }

    /** Deletes the Worlds rows keyed (worldId, userId); NotFound when there were none.
        WorldObjects is not touched. */
    method DeleteWorld(userId: int, worldId: int) returns (r: Result<(), WorldError>)
      modifies db
      ensures db.worlds == RemoveKey(old(db.worlds), userId, worldId)
      ensures db.objects == old(db.objects) && db.nextObjectId == old(db.nextObjectId)
      ensures r.Failure? <==> !WorldExists(old(db.worlds), userId, worldId)
      ensures r.Failure? ==> r.error == WorldNotFound && db.worlds == old(db.worlds)
      ensures !WorldExists(db.worlds, userId, worldId)
      ensures old(WorldsInvariant(db.worlds)) ==> WorldsInvariant(db.worlds)
    {
      var affected := |KeyRows(db.worlds, userId, worldId)|;
      if WorldsInvariant(db.worlds) {
        DeleteKeepsInvariant(db.worlds, userId, worldId);
      }
      db.worlds := RemoveKey(db.worlds, userId, worldId);
      if affected == 0 {
        return Failure(WorldNotFound);
      }
      return Success(());
    }

    /** DeleteWorld that also deletes the world's objects. The objects keyed (userId, worldId)
        are removed on NotFound too; while every delete cascades, there are none left to remove. */
    method DeleteWorldCascade(userId: int, worldId: int) returns (r: Result<(), WorldError>)
      modifies db
      ensures db.worlds == RemoveKey(old(db.worlds), userId, worldId)
      ensures db.objects == RemoveObjectsOf(old(db.objects), userId, worldId)
      ensures db.nextObjectId == old(db.nextObjectId)
      ensures r.Failure? <==> !WorldExists(old(db.worlds), userId, worldId)
      ensures r.Failure? ==> r.error == WorldNotFound && db.worlds == old(db.worlds)
      ensures OwnedObjectsIn(db.objects, userId, worldId) == []
      ensures old(WorldsInvariant(db.worlds)) ==> WorldsInvariant(db.worlds)
    {
      r := DeleteWorld(userId, worldId);
      db.objects := RemoveObjectsOf(db.objects, userId, worldId);
      CascadeLeavesNoObjects(old(db.objects), userId, worldId);
    }

    /** Looks the world up by (userId, worldId), rejects a point beyond its width or height
        (a point on the bound is inside; nothing is checked below zero), and inserts the object. */
    method AddObjectToWorld(userId: int, worldId: int, dto: ObjectCreateDto) returns (r: Result<int, WorldError>)
      modifies db
      ensures db.worlds == old(db.worlds)
      ensures !WorldExists(db.worlds, userId, worldId) ==>
        r == Failure(WorldNotFound) && db.objects == old(db.objects) && db.nextObjectId == old(db.nextObjectId)
      ensures WorldExists(db.worlds, userId, worldId) ==>
        var world := FindWorld(db.worlds, userId, worldId).value;
        if OutOfBounds(dto.x, dto.y, world.width, world.height) then
          r == Failure(OutsideBounds) && db.objects == old(db.objects) && db.nextObjectId == old(db.nextObjectId)
        else
          && r == Success(old(db.nextObjectId))
          && db.objects == old(db.objects) + [ObjectRow(r.value, userId, worldId, dto.kind, dto.x, dto.y)]
          && db.nextObjectId == old(db.nextObjectId) + 1
      ensures DistinctBy(db.worlds, WorldKey) ==>
        forall w :: w in db.worlds && w.HasKey(userId, worldId) ==>
          (r == Failure(OutsideBounds) <==> OutOfBounds(dto.x, dto.y, w.width, w.height))
      ensures r.Success? && old(ObjectIdsBelow(db.objects, db.nextObjectId)) ==>
        && (forall o :: o in old(db.objects) ==> o.id != r.value)
        && ObjectIdsBelow(db.objects, db.nextObjectId)
    {
      var found := FindWorld(db.worlds, userId, worldId);
      if DistinctBy(db.worlds, WorldKey) {
        forall w | w in db.worlds && w.HasKey(userId, worldId) ensures found == Some(w) {
          FindWorldIsTheRow(db.worlds, w);
        }
      }
      if found.None? {
        return Failure(WorldNotFound);
      }
      var width := found.value.width;
      var height := found.value.height;
      if dto.x > width as real || dto.y > height as real {
        return Failure(OutsideBounds);
      }
      var id := db.nextObjectId;
      db.objects := db.objects + [ObjectRow(id, userId, worldId, dto.kind, dto.x, dto.y)];
      db.nextObjectId := db.nextObjectId + 1;
      return Success(id);
    }
  }

  /** After the cascade no object of the deleted world is left. */
  lemma CascadeLeavesNoObjects(objects: seq<ObjectRow>, owner: int, worldId: int)
    ensures OwnedObjectsIn(RemoveObjectsOf(objects, owner, worldId), owner, worldId) == []
  {
    FilterNone(RemoveObjectsOf(objects, owner, worldId), InOwnedWorld(owner, worldId));
  }

  /** Two owners each hold a world numbered 1, and the first has an object in it: the second
      owner's GetWorld(1) is entitled to succeed, and the object query by WorldId alone returns
      the first owner's object. */
  lemma ObjectsLeakAcrossOwners()
    ensures var worlds := [WorldRow(1, 1, "Forest", 50, 50), WorldRow(2, 1, "Desert", 50, 50)];
            var objects := [ObjectRow(1, 1, 1, "tree", 3.0, 4.0)];
            && WorldsInvariant(worlds)
            && WorldExists(worlds, 2, 1)
            && ObjectsIn(objects, 1) == objects
            && objects[0].userId != 2
            && OwnedObjectsIn(objects, 2, 1) == []
  {
    var worlds := [WorldRow(1, 1, "Forest", 50, 50), WorldRow(2, 1, "Desert", 50, 50)];
    var objects := [ObjectRow(1, 1, 1, "tree", 3.0, 4.0)];
    assert WorldKey(worlds[0]) != WorldKey(worlds[1]);
    assert worlds[1].HasKey(2, 1);
    assert ObjectsIn(objects, 1) == objects by {
      FilterAll(objects, InWorld(1));
    }
  }

  /** An owner with one world (id 1) holding an object deletes it and creates a new world: the
      new world gets id 1 again, and the object, which the delete left behind, is in it. */
  lemma DeletedWorldObjectsReappear()
    ensures var worlds := [WorldRow(1, 1, "Forest", 50, 50)];
            var objects := [ObjectRow(1, 1, 1, "tree", 3.0, 4.0)];
            var afterDelete := RemoveKey(worlds, 1, 1);
            && afterDelete == []
            && NextWorldId(afterDelete, 1) == 1
            && OwnedObjectsIn(objects, 1, 1) == objects
  {
  }

  /** The bounds check is inclusive above and absent below. */
  lemma BoundsExamples()
    ensures !OutOfBounds(50.0, 30.0, 50, 30)
    ensures OutOfBounds(51.0, 30.0, 50, 30)
    ensures OutOfBounds(50.0, 31.0, 50, 30)
    ensures !OutOfBounds(-1.0, -1.0, 50, 30)
  {
  }
}
