/** The records of the paint calculator (paints, rooms and their walls) and
    the single-field edits that the forms apply to them. */
module PaintModel {

  datatype Option<T> = None | Some(value: T)

  /** A paint product. `coverage` is the area one litre covers (square
      metres per litre), `price` the cost per square metre; both stay unset
      until the user enters them. */
  datatype Paint = Paint(id: string, name: string, code: string, coverage: Option<real>, price: Option<real>)

  /** A wall in metres, painted with the paint whose id is `paintId`
      ("" while no paint is selected). */
  datatype Wall = Wall(id: string, name: string, length: Option<real>, height: Option<real>, paintId: string)

  /** A room owns its walls, in the order they were added. */
  datatype Room = Room(id: string, name: string, walls: seq<Wall>)

  function PaintId(p: Paint): string { p.id }
  function RoomId(r: Room): string { r.id }
  function WallId(w: Wall): string { w.id }

  /** The edits `updatePaint` is called with. A numeric value is `None` when
      the text typed was not a number: it then leaves the field unset. */
  datatype PaintField =
    | PaintName(name: string)
    | PaintCode(code: string)
    | PaintCoverage(coverage: Option<real>)
    | PaintPrice(price: Option<real>)

  /** The edits `updateRoom` is called with. */
  datatype RoomField = RoomName(name: string)

  /** The edits `updateWall` is called with. The form always passes a number
      for a length or height (an entry that is not one becomes 0), so an
      edit with `None` models no input the form can produce; an unset size
      only comes from a wall that was never sized. */
  datatype WallField =
    | WallName(name: string)
    | WallLength(length: Option<real>)
    | WallHeight(height: Option<real>)
    | WallPaint(paintId: string)

  /** `{ ...p, [field]: value }`: the named field takes the new value, the
      id and every other field are kept. */
  function SetPaintField(p: Paint, f: PaintField): (r: Paint)
    ensures r.id == p.id
    ensures r.name == if f.PaintName? then f.name else p.name
    ensures r.code == if f.PaintCode? then f.code else p.code
    ensures r.coverage == if f.PaintCoverage? then f.coverage else p.coverage
    ensures r.price == if f.PaintPrice? then f.price else p.price
  {
    match f
    case PaintName(n) => p.(name := n)
    case PaintCode(c) => p.(code := c)
    case PaintCoverage(v) => p.(coverage := v)
    case PaintPrice(v) => p.(price := v)
  }

  /** `{ ...r, [field]: value }` for a room: only the name is ever edited;
      the id and the walls are kept. */
  function SetRoomField(r: Room, f: RoomField): (r': Room)
    ensures r'.id == r.id && r'.walls == r.walls
    ensures r'.name == f.name
  {
    match f
    case RoomName(n) => r.(name := n)
  }

  /** `{ ...w, [field]: value }` for a wall. */
  function SetWallField(w: Wall, f: WallField): (r: Wall)
    ensures r.id == w.id
    ensures r.name == if f.WallName? then f.name else w.name
    ensures r.length == if f.WallLength? then f.length else w.length
    ensures r.height == if f.WallHeight? then f.height else w.height
    ensures r.paintId == if f.WallPaint? then f.paintId else w.paintId
  {
    match f
    case WallName(n) => w.(name := n)
    case WallLength(v) => w.(length := v)
    case WallHeight(v) => w.(height := v)
    case WallPaint(id) => w.(paintId := id)
  }

  /** Every wall of every room, rooms in order and each room's walls in
      order: the order in which the totals are accumulated. */
  function AllWalls(rooms: seq<Room>): (r: seq<Wall>)
    ensures forall i, j :: 0 <= i < |rooms| && 0 <= j < |rooms[i].walls| ==> rooms[i].walls[j] in r
    decreases |rooms|
  {
    if rooms == [] then []
    else AllWalls(rooms[..|rooms| - 1]) + rooms[|rooms| - 1].walls
  }

  lemma {:induction false} AllWallsAppend(a: seq<Room>, b: seq<Room>)
    ensures AllWalls(a + b) == AllWalls(a) + AllWalls(b)
    decreases |b|
  {
    if b == [] {
      assert a + b == a;
    } else {
      var b' := b[..|b| - 1];
      assert (a + b)[..|a + b| - 1] == a + b';
      AllWallsAppend(a, b');
      assert AllWalls(b) == AllWalls(b') + b[|b| - 1].walls;
    }
  }

  /** One room visits exactly its own walls, in their order. */
  lemma AllWallsOne(x: Room)
    ensures AllWalls([x]) == x.walls
  {
    assert [x][..0] == [];
  }

  /** Nothing but the rooms' walls is visited: every wall in `AllWalls`
      belongs to one of the rooms. */
  lemma {:induction false} AllWallsFromRooms(rooms: seq<Room>, w: Wall)
    requires w in AllWalls(rooms)
    ensures exists i :: 0 <= i < |rooms| && w in rooms[i].walls
    decreases |rooms|
  {
    var n := |rooms| - 1;
    if w in rooms[n].walls {
    } else {
      AllWallsFromRooms(rooms[..n], w);
      var i :| 0 <= i < n && w in rooms[..n][i].walls;
      assert rooms[i] == rooms[..n][i];
    }
  }
}
