/** The nine handlers of the calculator. Each takes the current array and
    returns the next one, built by appending, mapping or filtering by id;
    an id that matches nothing leaves the array as it was. The random UUID a
    new record gets is passed in as `freshId`, an id not yet in use. */
module Handlers {
  import opened PaintModel
  import opened Keyed

  predicate HasPaint(paints: seq<Paint>, id: string) { HasKey(paints, PaintId, id) }
  predicate HasRoom(rooms: seq<Room>, id: string) { HasKey(rooms, RoomId, id) }
  predicate HasWall(walls: seq<Wall>, id: string) { HasKey(walls, WallId, id) }

  /** Some room already has a wall with this id. */
  predicate WallIdInUse(rooms: seq<Room>, id: string) {
    exists i :: 0 <= i < |rooms| && HasWall(rooms[i].walls, id)
  }

  predicate UniquePaintIds(paints: seq<Paint>) { UniqueKeys(paints, PaintId) }

  /** Room ids are unique, and so are the wall ids within each room. */
  predicate ValidRooms(rooms: seq<Room>) {
    && UniqueKeys(rooms, RoomId)
    && forall i :: 0 <= i < |rooms| ==> UniqueKeys(rooms[i].walls, WallId)
  }

  const NewRoomName := "New Room"
  const NewWallName := "New Wall"

  // ---------------------------------------------------------------- paints

  /** `addPaint`: one blank paint, with no coverage and no price, at the end. */
  function AddPaint(paints: seq<Paint>, freshId: string): (r: seq<Paint>)
    requires !HasPaint(paints, freshId)
    ensures |r| == |paints| + 1 && r[..|paints|] == paints
    ensures r[|paints|].id == freshId && r[|paints|].name == "" && r[|paints|].code == ""
    ensures r[|paints|].coverage.None? && r[|paints|].price.None?
    ensures UniquePaintIds(paints) ==> UniquePaintIds(r)
  {
    var p := Paint(freshId, "", "", None, None);
    AppendFreshUnique(paints, p, PaintId);
    paints + [p]
  }

  /** `updatePaint`: the paints with id `id` get the edited field, every
      other paint and every id stays as it was. */
  function UpdatePaint(paints: seq<Paint>, id: string, f: PaintField): (r: seq<Paint>)
    ensures |r| == |paints|
    ensures forall i :: 0 <= i < |paints| ==> r[i].id == paints[i].id
    ensures forall i :: 0 <= i < |paints| && paints[i].id != id ==> r[i] == paints[i]
    ensures forall i :: 0 <= i < |paints| && paints[i].id == id ==> r[i] == SetPaintField(paints[i], f)
    ensures !HasPaint(paints, id) ==> r == paints
    ensures UniquePaintIds(paints) ==> UniquePaintIds(r)
  {
    var edit := (p: Paint) => SetPaintField(p, f);
    UpdateKeyKeepsKeys(paints, PaintId, id, edit);
    UpdateKey(paints, PaintId, id, edit)
  }

  /** `deletePaint`: drops the paints with id `id`. Walls that used the paint
      keep their now dangling `paintId`. */
  function DeletePaint(paints: seq<Paint>, id: string): (r: seq<Paint>)
    ensures !HasPaint(r, id)
    ensures HasPaint(paints, id) <==> |r| < |paints|
    ensures !HasPaint(paints, id) ==> r == paints
    ensures UniquePaintIds(paints) ==> UniquePaintIds(r)
  {
    RemoveKeyUnique(paints, PaintId, id);
    RemoveKey(paints, PaintId, id)
  }

  /** A paint is kept exactly when it was there and has another id. */
  lemma DeletePaintKeeps(paints: seq<Paint>, id: string, p: Paint)
    ensures p in DeletePaint(paints, id) <==> p in paints && p.id != id
  {
    RemoveKeyMember(paints, PaintId, id, p);
  }

  /** The paints that are kept keep their order. */
  lemma DeletePaintKeepsOrder(a: seq<Paint>, b: seq<Paint>, id: string)
    ensures DeletePaint(a + b, id) == DeletePaint(a, id) + DeletePaint(b, id)
  {
    RemoveKeyAppend(a, b, PaintId, id);
  }

  /** With unique ids, deleting the id of the paint at `k` removes that one
      paint and nothing else. */
  lemma DeletePaintAt(paints: seq<Paint>, k: nat)
    requires UniquePaintIds(paints) && k < |paints|
    ensures DeletePaint(paints, paints[k].id) == paints[..k] + paints[k + 1..]
  {
    RemoveKeyAt(paints, PaintId, k);
  }

  /** Deleting a paint just added gives back the paints as they were. */
  lemma AddThenDeletePaint(paints: seq<Paint>, freshId: string)
    requires !HasPaint(paints, freshId)
    ensures DeletePaint(AddPaint(paints, freshId), freshId) == paints
  {
    RemoveKeyAppended(paints, Paint(freshId, "", "", None, None), PaintId);
  }

  // ----------------------------------------------------------------- rooms

  /** `addRoom`: one room named "New Room", without walls, at the end. */
  function AddRoom(rooms: seq<Room>, freshId: string): (r: seq<Room>)
    requires !HasRoom(rooms, freshId)
    ensures |r| == |rooms| + 1 && r[..|rooms|] == rooms
    ensures r[|rooms|].id == freshId && r[|rooms|].name == NewRoomName && r[|rooms|].walls == []
    ensures AllWalls(r) == AllWalls(rooms)
  {
    var room := Room(freshId, NewRoomName, []);
    assert (rooms + [room])[..|rooms|] == rooms;
    rooms + [room]
  }

  /** `updateRoom`: renames the rooms with id `id`; ids and walls are kept. */
  function UpdateRoom(rooms: seq<Room>, id: string, f: RoomField): (r: seq<Room>)
    ensures |r| == |rooms|
    ensures forall i :: 0 <= i < |rooms| ==> r[i].id == rooms[i].id && r[i].walls == rooms[i].walls
    ensures forall i :: 0 <= i < |rooms| && rooms[i].id != id ==> r[i] == rooms[i]
    ensures forall i :: 0 <= i < |rooms| && rooms[i].id == id ==> r[i].name == f.name
    ensures !HasRoom(rooms, id) ==> r == rooms
  {
    UpdateKey(rooms, RoomId, id, (room: Room) => SetRoomField(room, f))
  }

  /** `deleteRoom`: drops the rooms with id `id`, and with them their walls. */
  function DeleteRoom(rooms: seq<Room>, id: string): (r: seq<Room>)
    ensures !HasRoom(r, id)
    ensures HasRoom(rooms, id) <==> |r| < |rooms|
    ensures !HasRoom(rooms, id) ==> r == rooms
  {
    RemoveKey(rooms, RoomId, id)
  }

  /** A room is kept exactly when it was there and has another id. */
  lemma DeleteRoomKeeps(rooms: seq<Room>, id: string, room: Room)
    ensures room in DeleteRoom(rooms, id) <==> room in rooms && room.id != id
  {
    RemoveKeyMember(rooms, RoomId, id, room);
  }

  /** With unique room ids, deleting the room at `k` removes exactly its
      walls: the walls of the other rooms remain, in order, and the wall
      count falls by that room's wall count. */
  lemma DeleteRoomDropsItsWalls(rooms: seq<Room>, k: nat)
    requires UniqueKeys(rooms, RoomId) && k < |rooms|
    ensures AllWalls(DeleteRoom(rooms, rooms[k].id)) == AllWalls(rooms[..k]) + AllWalls(rooms[k + 1..])
    ensures |AllWalls(DeleteRoom(rooms, rooms[k].id))| == |AllWalls(rooms)| - |rooms[k].walls|
  {
    RemoveKeyAt(rooms, RoomId, k);
    var before, after := rooms[..k], rooms[k + 1..];
    AllWallsAppend(before, after);
    assert rooms == (before + [rooms[k]]) + after;
    AllWallsAppend(before + [rooms[k]], after);
    AllWallsAppend(before, [rooms[k]]);
    AllWallsOne(rooms[k]);
  }

  /** Deleting a room just added gives back the rooms as they were. */
  lemma AddThenDeleteRoom(rooms: seq<Room>, freshId: string)
    requires !HasRoom(rooms, freshId)
    ensures DeleteRoom(AddRoom(rooms, freshId), freshId) == rooms
  {
    RemoveKeyAppended(rooms, Room(freshId, NewRoomName, []), RoomId);
  }

  /** Room handlers keep room ids unique and wall ids unique within each room. */
  lemma AddRoomKeepsValid(rooms: seq<Room>, freshId: string)
    requires ValidRooms(rooms) && !HasRoom(rooms, freshId)
    ensures ValidRooms(AddRoom(rooms, freshId))
  {
    AppendFreshUnique(rooms, Room(freshId, NewRoomName, []), RoomId);
  }

  lemma UpdateRoomKeepsValid(rooms: seq<Room>, id: string, f: RoomField)
    requires ValidRooms(rooms)
    ensures ValidRooms(UpdateRoom(rooms, id, f))
  {
    UpdateKeyKeepsKeys(rooms, RoomId, id, (room: Room) => SetRoomField(room, f));
  }

  lemma DeleteRoomKeepsValid(rooms: seq<Room>, id: string)
    requires ValidRooms(rooms)
    ensures ValidRooms(DeleteRoom(rooms, id))
  {
    var r := DeleteRoom(rooms, id);
    RemoveKeyUnique(rooms, RoomId, id);
    forall i | 0 <= i < |r| ensures UniqueKeys(r[i].walls, WallId) {
      RemoveKeyMember(rooms, RoomId, id, r[i]);
      var j :| 0 <= j < |rooms| && rooms[j] == r[i];
    }
  }

  // ----------------------------------------------------------------- walls

  /** The wall `addWall` creates: named "New Wall", no size, no paint. */
  function NewWall(freshId: string): (w: Wall)
    ensures w.id == freshId && w.name == NewWallName && w.paintId == ""
    ensures w.length.None? && w.height.None?
  {
    Wall(freshId, NewWallName, None, None, "")
  }

  /** `addWall`: a new wall at the end of the walls of the rooms with id
      `roomId`; every other room stays as it was. */
  function AddWall(rooms: seq<Room>, roomId: string, freshId: string): (r: seq<Room>)
    requires !WallIdInUse(rooms, freshId)
    ensures |r| == |rooms|
    ensures forall i :: 0 <= i < |rooms| && rooms[i].id != roomId ==> r[i] == rooms[i]
    ensures forall i :: 0 <= i < |rooms| && rooms[i].id == roomId ==>
              r[i].id == rooms[i].id && r[i].name == rooms[i].name &&
              r[i].walls == rooms[i].walls + [NewWall(freshId)]
    ensures !HasRoom(rooms, roomId) ==> r == rooms
  {
    UpdateKey(rooms, RoomId, roomId, (room: Room) => room.(walls := room.walls + [NewWall(freshId)]))
  }

  /** `updateWall`: in the rooms with id `roomId`, the walls with id `wallId`
      get the edited field; nothing else changes. */
  function UpdateWall(rooms: seq<Room>, roomId: string, wallId: string, f: WallField): (r: seq<Room>)
    ensures |r| == |rooms|
    ensures forall i :: 0 <= i < |rooms| && rooms[i].id != roomId ==> r[i] == rooms[i]
    ensures forall i :: 0 <= i < |rooms| && rooms[i].id == roomId ==>
              r[i].id == rooms[i].id && r[i].name == rooms[i].name &&
              |r[i].walls| == |rooms[i].walls| &&
              forall j :: 0 <= j < |rooms[i].walls| ==>
                r[i].walls[j].id == rooms[i].walls[j].id &&
                r[i].walls[j] == if rooms[i].walls[j].id == wallId then SetWallField(rooms[i].walls[j], f)
                                 else rooms[i].walls[j]
    ensures !HasRoom(rooms, roomId) ==> r == rooms
    ensures (forall i :: 0 <= i < |rooms| && rooms[i].id == roomId ==> !HasWall(rooms[i].walls, wallId)) ==> r == rooms
  {
    var edit := (w: Wall) => SetWallField(w, f);
    UpdateKey(rooms, RoomId, roomId, (room: Room) => room.(walls := UpdateKey(room.walls, WallId, wallId, edit)))
  }

  /** `deleteWall`: drops the walls with id `wallId` from the rooms with id
      `roomId`; nothing else changes. */
  function DeleteWall(rooms: seq<Room>, roomId: string, wallId: string): (r: seq<Room>)
    ensures |r| == |rooms|
    ensures forall i :: 0 <= i < |rooms| && rooms[i].id != roomId ==> r[i] == rooms[i]
    ensures forall i :: 0 <= i < |rooms| && rooms[i].id == roomId ==>
              r[i].id == rooms[i].id && r[i].name == rooms[i].name &&
              !HasWall(r[i].walls, wallId) &&
              r[i].walls == RemoveKey(rooms[i].walls, WallId, wallId)
    ensures !HasRoom(rooms, roomId) ==> r == rooms
    ensures (forall i :: 0 <= i < |rooms| && rooms[i].id == roomId ==> !HasWall(rooms[i].walls, wallId)) ==> r == rooms
  {
    UpdateKey(rooms, RoomId, roomId, (room: Room) => room.(walls := RemoveKey(room.walls, WallId, wallId)))
  }

  /** With unique room ids, deleting a wall just added gives back the rooms
      as they were. */
  lemma AddThenDeleteWall(rooms: seq<Room>, roomId: string, freshId: string)
    requires UniqueKeys(rooms, RoomId) && !WallIdInUse(rooms, freshId)
    ensures DeleteWall(AddWall(rooms, roomId, freshId), roomId, freshId) == rooms
  {
    var added := AddWall(rooms, roomId, freshId);
    var r := DeleteWall(added, roomId, freshId);
    forall i | 0 <= i < |rooms| ensures r[i] == rooms[i] {
      if rooms[i].id == roomId {
        assert !HasWall(rooms[i].walls, freshId);
        RemoveKeyAppended(rooms[i].walls, NewWall(freshId), WallId);
      }
    }
  }

  /** Wall handlers keep room ids unique and wall ids unique within each room. */
  lemma AddWallKeepsValid(rooms: seq<Room>, roomId: string, freshId: string)
    requires ValidRooms(rooms) && !WallIdInUse(rooms, freshId)
    ensures ValidRooms(AddWall(rooms, roomId, freshId))
  {
    var r := AddWall(rooms, roomId, freshId);
    UpdateKeyKeepsKeys(rooms, RoomId, roomId, (room: Room) => room.(walls := room.walls + [NewWall(freshId)]));
    forall i | 0 <= i < |r| ensures UniqueKeys(r[i].walls, WallId) {
      if rooms[i].id == roomId {
        assert !HasWall(rooms[i].walls, freshId);
        AppendFreshUnique(rooms[i].walls, NewWall(freshId), WallId);
      }
    }
  }

  lemma UpdateWallKeepsValid(rooms: seq<Room>, roomId: string, wallId: string, f: WallField)
    requires ValidRooms(rooms)
    ensures ValidRooms(UpdateWall(rooms, roomId, wallId, f))
  {
    var r := UpdateWall(rooms, roomId, wallId, f);
    var edit := (w: Wall) => SetWallField(w, f);
    UpdateKeyKeepsKeys(rooms, RoomId, roomId, (room: Room) => room.(walls := UpdateKey(room.walls, WallId, wallId, edit)));
    forall i | 0 <= i < |r| ensures UniqueKeys(r[i].walls, WallId) {
      UpdateKeyKeepsKeys(rooms[i].walls, WallId, wallId, edit);
    }
  }

  lemma DeleteWallKeepsValid(rooms: seq<Room>, roomId: string, wallId: string)
    requires ValidRooms(rooms)
    ensures ValidRooms(DeleteWall(rooms, roomId, wallId))
  {
    var r := DeleteWall(rooms, roomId, wallId);
    UpdateKeyKeepsKeys(rooms, RoomId, roomId, (room: Room) => room.(walls := RemoveKey(room.walls, WallId, wallId)));
    forall i | 0 <= i < |r| ensures UniqueKeys(r[i].walls, WallId) {
      RemoveKeyUnique(rooms[i].walls, WallId, wallId);
    }
  }
}
