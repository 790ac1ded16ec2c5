/**
 * The standalone game program: the rectangular room `Rect` with its
 * walkability test and character buffer, the `GameTime` clock, the save
 * header check, and `create_map`, which turns a 20 x 20 room into tile
 * entities in the store.
 */
module GameMain {
  import opened Common
  import K = Kinds
  import opened Components
  import opened Entities
  import opened MapTiles

  /** A rectangular room: its top-left corner and its sides. */
  datatype Rect = Rect(x: int, y: int, width: int, height: int)

  /** The number of times a `for` over `0..n` runs. */
  function Side(n: int): nat {
    if n > 0 then n else 0
  }

  // ---------------------------------------------------------------------
  // Walkability

  /** `is_walkable` as written: the lower y bound is the literal 0, not the room's top. */
  predicate IsWalkableAsWritten(r: Rect, x: int, y: int) {
    x > r.x && x < r.x + r.width - 1 && y > 0 && y < r.y + r.height - 1
  }

  /** Walkability measured against the room's own top row. */
  predicate IsWalkable(r: Rect, x: int, y: int) {
    x > r.x && x < r.x + r.width - 1 && y > r.y && y < r.y + r.height - 1
  }

  /** (x, y) lies in the room, walls included. */
  predicate InRect(r: Rect, x: int, y: int) {
    r.x <= x < r.x + r.width && r.y <= y < r.y + r.height
  }

  /** The glyph `get_buffer` writes for the cell (x, y): walls on the top and bottom rows, then on the side columns, floor inside. */
  function BufferChar(r: Rect, x: int, y: int): char {
    if y == r.y || y == r.y + r.height - 1 then '-'
    else if x == r.x || x == r.x + r.width - 1 then '|'
    else '.'
  }

  /** A cell is walkable exactly when it is in the room and its glyph is floor. */
  lemma WalkableIsFloor(r: Rect, x: int, y: int)
    ensures IsWalkable(r, x, y) <==> InRect(r, x, y) && BufferChar(r, x, y) == '.'
  {
  }

  /** For a room whose top row is 0, the test as written is the intended one. */
  lemma AsWrittenAgreesAtTopZero(r: Rect, x: int, y: int)
    requires r.y == 0
    ensures IsWalkableAsWritten(r, x, y) <==> IsWalkable(r, x, y)
  {
  }

  /**
   * Away from row 0 the test as written is wrong both ways: a room whose
   * top is at y = 5 reports (1, 1), above it, as walkable, and a room whose
   * top is at y = -5 reports its floor cell (1, -3) as not walkable.
   */
  lemma AsWrittenWalkableOutsideRoom()
    ensures IsWalkableAsWritten(Rect(0, 5, 10, 10), 1, 1) && !InRect(Rect(0, 5, 10, 10), 1, 1)
    ensures !IsWalkableAsWritten(Rect(0, -5, 10, 10), 1, -3)
    ensures InRect(Rect(0, -5, 10, 10), 1, -3) && BufferChar(Rect(0, -5, 10, 10), 1, -3) == '.'
  {
  }

  /** In a 20 x 20 room at the origin the border is blocked and cells 1..18 are walkable. */
  lemma RoomCollision()
    ensures forall i | 0 <= i < 20 ::
      !IsWalkableAsWritten(Rect(0, 0, 20, 20), i, 0) && !IsWalkableAsWritten(Rect(0, 0, 20, 20), i, 20) &&
      !IsWalkableAsWritten(Rect(0, 0, 20, 20), 0, i) && !IsWalkableAsWritten(Rect(0, 0, 20, 20), 20, i)
    ensures forall x, y | 1 <= x < 19 && 1 <= y < 19 :: IsWalkableAsWritten(Rect(0, 0, 20, 20), x, y)
  {
  }

  // ---------------------------------------------------------------------
  // The character buffer

  /** Row j of the room's buffer, counted from its top. */
  function BufferRow(r: Rect, j: int): (row: seq<char>)
    ensures |row| == Side(r.width)
  {
    seq(Side(r.width), i => BufferChar(r, r.x + i, r.y + j))
  }

  /** The room's buffer, row by row. */
  function RoomRows(r: Rect): (rows: seq<seq<char>>)
    ensures |rows| == Side(r.height) && Rectangular(rows, Side(r.width))
  {
    seq(Side(r.height), j => BufferRow(r, j))
  }

  /** The body of `get_buffer`'s inner loop: the glyph of cell (x, y) pushed onto the buffer. */
  method PushCell(r: Rect, x: int, y: int, buffer: string) returns (pushed: string)
    ensures pushed == buffer + [BufferChar(r, x, y)]
  {
    if y == r.y || y == r.y + r.height - 1 {
      pushed := buffer + ['-'];
    } else if x == r.x || x == r.x + r.width - 1 {
      pushed := buffer + ['|'];
    } else {
      pushed := buffer + ['.'];
    }
  }

  /** `get_buffer`'s inner loop: the cells of row y, left to right, pushed onto the buffer. */
  method PushRow(r: Rect, y: int, buffer: string) returns (pushed: string)
    ensures pushed == buffer + BufferRow(r, y - r.y)
  {
    ghost var row := BufferRow(r, y - r.y);
    pushed := buffer;
    var x := r.x;
    while x < r.x + r.width
      invariant r.x <= x && x - r.x <= Side(r.width)
      invariant pushed == buffer + row[..x - r.x]
    {
      assert row[..x - r.x + 1] == row[..x - r.x] + [BufferChar(r, x, y)];
      pushed := PushCell(r, x, y, pushed);
      x := x + 1;
    }
    assert row[..x - r.x] == row;
  }

  /** The room's buffer from row j down. */
  function RowsFrom(r: Rect, j: nat): string
    decreases Side(r.height) - j
  {
    if j < Side(r.height) then BufferRow(r, j) + RowsFrom(r, j + 1) else []
  }

  /** Reading from row j on is reading the rows from j on, one after the other. */
  lemma {:induction false} RowsFromIsFlatten(r: Rect, j: nat)
    requires j <= Side(r.height)
    ensures RowsFrom(r, j) == Flatten(RoomRows(r)[j..])
    decreases Side(r.height) - j
  {
    var rows := RoomRows(r);
    if j < Side(r.height) {
      RowsFromIsFlatten(r, j + 1);
      assert rows[j..][1..] == rows[j + 1..];
    } else {
      assert rows[j..] == [];
    }
  }

  /**
   * `get_buffer`: one character per cell, row after row. `ok` is false when
   * the length check on the result fails (the program then panics).
   */
  method GetBuffer(r: Rect) returns (buffer: string, ok: bool)
    ensures buffer == Flatten(RoomRows(r))
    ensures ok <==> |buffer| == r.width * r.height
  {
    buffer := "";
    var y := r.y;
    while y < r.y + r.height
      invariant r.y <= y && y - r.y <= Side(r.height)
      invariant buffer + RowsFrom(r, y - r.y) == RowsFrom(r, 0)
    {
      ghost var before := buffer;
      buffer := PushRow(r, y, buffer);
      assert before + RowsFrom(r, y - r.y) == buffer + RowsFrom(r, y + 1 - r.y) by {
        assert RowsFrom(r, y - r.y) == BufferRow(r, y - r.y) + RowsFrom(r, y + 1 - r.y);
      }
      y := y + 1;
    }
    assert buffer == RowsFrom(r, 0) by {
      assert RowsFrom(r, y - r.y) == [];
    }
    assert RowsFrom(r, 0) == Flatten(RoomRows(r)) by {
      RowsFromIsFlatten(r, 0);
      assert RoomRows(r)[0..] == RoomRows(r);
    }
    ok := |buffer| == r.width * r.height;
  }

  /** The buffer holds one character per cell of the room. */
  lemma BufferLength(r: Rect)
    ensures |Flatten(RoomRows(r))| == Side(r.width) * Side(r.height)
  {
    FlattenLength(RoomRows(r), Side(r.width));
  }

  /** The length check passes exactly when neither side is negative, or one side is zero. */
  lemma BufferCheckPasses(r: Rect)
    ensures |Flatten(RoomRows(r))| == r.width * r.height <==>
      (r.width >= 0 && r.height >= 0) || r.width == 0 || r.height == 0
  {
    BufferLength(r);
    if r.width < 0 && r.height < 0 {
      assert r.width * r.height > 0 by {
        assert r.width * r.height == (-r.width) * (-r.height);
      }
    } else if r.width < 0 && r.height > 0 {
      assert r.width * r.height < 0 by {
        assert r.width * r.height == -((-r.width) * r.height);
      }
    } else if r.width > 0 && r.height < 0 {
      assert r.width * r.height < 0 by {
        assert r.width * r.height == -(r.width * (-r.height));
      }
    }
  }

  /**
   * The layout of the buffer: the top and bottom rows are '-', every other
   * row has '|' in its first and last columns and '.' between them.
   */
  lemma BufferLayout(r: Rect, j: nat, i: nat)
    requires j < Side(r.height) && i < Side(r.width)
    ensures j * Side(r.width) + i < |Flatten(RoomRows(r))|
    ensures Flatten(RoomRows(r))[j * Side(r.width) + i] ==
      if j == 0 || j == r.height - 1 then '-'
      else if i == 0 || i == r.width - 1 then '|'
      else '.'
  {
    var rows := RoomRows(r);
    FlattenAt(rows, Side(r.width), j, i);
    assert rows[j] == BufferRow(r, j);
    assert rows[j][i] == BufferChar(r, r.x + i, r.y + j);
  }

  // ---------------------------------------------------------------------
  // The game clock

  /** A point in game time. */
  datatype GameTime = Time(sec: int, min: int, hour: int, day: int, year: int)

  /** `GameTime::new`: the start of time. */
  function NewGameTime(): (t: GameTime)
    ensures Valid(t)
  {
    Time(0, 0, 0, 0, 0)
  }

  /** Every field below the year is within its range. */
  predicate Valid(t: GameTime) {
    0 <= t.sec < 60 && 0 <= t.min < 60 && 0 <= t.hour < 24 && 0 <= t.day < 365
  }

  /** The remainder of `i32`'s `%`, which takes the sign of the dividend. */
  function Rem(a: int, m: int): int
    requires m > 0
  {
    if a >= 0 then a % m else -((-a) % m)
  }

  /**
   * `GameTime::tick`, as written: the second advances; the minute advances
   * only on the tick where the second reaches 60; the hour, day and year
   * advance only when the minute already stands at 60, the hour at 24 or
   * the day at 365, none of which a valid time holds; then each field below
   * the year is reduced to its range. For a valid time the minute wraps to
   * 0 without carrying into the hour, and hour, day and year never change.
   */
  function Tick(t: GameTime): (r: GameTime)
    ensures Valid(t) ==> Valid(r)
    ensures Valid(t) ==> r.sec == (t.sec + 1) % 60
    ensures Valid(t) ==> r.min == if t.sec == 59 then (t.min + 1) % 60 else t.min
    ensures Valid(t) ==> r.hour == t.hour && r.day == t.day && r.year == t.year
  {
    var sec := t.sec + 1;
    var min := if sec == 60 then t.min + 1 else t.min;
    var hour := if sec != 60 && min == 60 then t.hour + 1 else t.hour;
    var day := if sec != 60 && min != 60 && t.hour == 24 then t.day + 1 else t.day;
    var year := if sec != 60 && min != 60 && t.hour != 24 && t.day == 365 then t.year + 1 else t.year;
    Time(Rem(sec, 60), Rem(min, 60), Rem(hour, 24), Rem(day, 365), year)
  }

  /** A tick of the start of time moves one second on, and differs from it. */
  lemma TickOfNew()
    ensures Tick(NewGameTime()) == Time(1, 0, 0, 0, 0)
    ensures Tick(NewGameTime()) != NewGameTime()
  {
  }

  /** A tick never leaves a valid time where it was. */
  lemma TickMoves(t: GameTime)
    requires Valid(t)
    ensures Tick(t) != t
  {
  }

  /** The seconds elapsed since the start of time. */
  function Seconds(t: GameTime): int {
    t.sec + 60 * (t.min + 60 * (t.hour + 24 * (t.day + 365 * t.year)))
  }

  /** At 59:59 a tick as written goes back to the start of the hour: 3599 seconds are lost. */
  lemma TickLosesAnHour()
    ensures Tick(Time(59, 59, 0, 0, 0)) == Time(0, 0, 0, 0, 0)
    ensures Seconds(Time(59, 59, 0, 0, 0)) == 3599
    ensures Seconds(Tick(Time(59, 59, 0, 0, 0))) == 0
  {
  }

  /** A tick that carries each full unit into the next: one second later, always. */
  function TickCarried(t: GameTime): (r: GameTime)
    ensures Valid(t) ==> Valid(r) && Seconds(r) == Seconds(t) + 1
  {
    if t.sec + 1 < 60 then t.(sec := t.sec + 1)
    else if t.min + 1 < 60 then t.(sec := 0, min := t.min + 1)
    else if t.hour + 1 < 24 then t.(sec := 0, min := 0, hour := t.hour + 1)
    else if t.day + 1 < 365 then t.(sec := 0, min := 0, hour := 0, day := t.day + 1)
    else Time(0, 0, 0, 0, t.year + 1)
  }

  /** The carrying tick agrees with the one as written except when the minute rolls over. */
  lemma TickCarriedAgrees(t: GameTime)
    requires Valid(t) && !(t.sec == 59 && t.min == 59)
    ensures TickCarried(t) == Tick(t)
  {
  }

  // ---------------------------------------------------------------------
  // Save files

  /**
   * `validate_save`: whether the first line is "Rogue"; None stands for the
   * panic on a buffer with no line at all.
   */
  function ValidateSave(buffer: string): (r: Option<bool>)
    ensures r.None? <==> buffer == []
  {
    if buffer == [] then None
    else
      LinesOfNonEmpty(buffer);
      Some(Lines(buffer)[0] == "Rogue")
  }

  /** A first line `p` reading "Rogue" once a carriage return is dropped passes, alone or before a newline. */
  lemma HeaderPasses(p: string, rest: string)
    requires '\n' !in p && StripCarriageReturn(p) == "Rogue"
    ensures ValidateSave(p) == Some(true)
    ensures ValidateSave(p + "\n" + rest) == Some(true)
  {
    LinesOfNonEmpty(p);
    PiecesOfLine(p);
    LinesOfNonEmpty(p + "\n" + rest);
    PiecesAfterLine(p, rest);
  }

  /** A save whose first line is "Rogue" is accepted, whatever follows it. */
  lemma ValidateSaveAcceptsHeader(rest: string)
    ensures ValidateSave("Rogue") == Some(true) && ValidateSave("Rogue\r") == Some(true)
    ensures ValidateSave("Rogue\n" + rest) == Some(true)
    ensures ValidateSave("Rogue\r\n" + rest) == Some(true)
  {
    HeaderPasses("Rogue", rest);
    assert "Rogue\n" + rest == "Rogue" + "\n" + rest;
    HeaderPasses("Rogue\r", rest);
    assert "Rogue\r\n" + rest == "Rogue\r" + "\n" + rest;
  }

  /**
   * Only such a save is accepted: "Rogue", possibly followed by a carriage
   * return, then the end of the text or a newline.
   */
  lemma ValidateSaveOnlyHeader(buffer: string)
    requires ValidateSave(buffer) == Some(true)
    ensures buffer == "Rogue" || buffer == "Rogue\r" ||
      (|buffer| >= 6 && buffer[..6] == "Rogue\n") || (|buffer| >= 7 && buffer[..7] == "Rogue\r\n")
  {
    LinesOfNonEmpty(buffer);
    FirstPiece(buffer);
    var p := Pieces(buffer)[0];
    assert StripCarriageReturn(p) == "Rogue";
    if p == "Rogue" {
      assert buffer[..5] == "Rogue";
      if |buffer| == 5 {
        assert buffer == "Rogue";
      } else {
        assert buffer[..6] == "Rogue\n";
      }
    } else {
      assert p == "Rogue\r";
      assert buffer[..6] == "Rogue\r";
      if |buffer| == 6 {
        assert buffer == "Rogue\r";
      } else {
        assert buffer[..7] == "Rogue\r\n";
      }
    }
  }

  // ---------------------------------------------------------------------
  // Map entities

  /** The room `create_map` lays out. */
  const MapRoom := Rect(0, 0, 20, 20)

  /** The glyphs that make a map tile Collidable in `create_map`. */
  const MapSolid: set<char> := {'-', '|'}

  /** The cells of `MapRoom` as spots, row by row. */
  function MapSpots(): (spots: seq<Spot>)
    ensures |spots| == 400
  {
    GridSpotsLength(RoomRows(MapRoom), 20);
    Flatten(SpotGrid(RoomRows(MapRoom)))
  }

  /** The spot of row j, column c of `MapRoom` is at (c, j) with the buffer's glyph there. */
  lemma MapSpotAt(j: nat, c: nat)
    requires j < 20 && c < 20
    ensures j * 20 + c < |Flatten(RoomRows(MapRoom))|
    ensures MapSpots()[j * 20 + c] == Spot(c, j, Flatten(RoomRows(MapRoom))[j * 20 + c])
  {
    GridSpotAt(RoomRows(MapRoom), 20, j, c);
    FlattenAt(RoomRows(MapRoom), 20, j, c);
  }

  /**
   * The body of `create_map`'s loops for cell (x, y): a new entity, the
   * glyph read at position `next` of the buffer, and the tile components.
   */
  method PlaceMapTile(em: EntityManager, buffer: string, x: int, y: int, next: nat, ghost e0: seq<Entity>, ghost t0: Tables)
    requires 0 <= x < 20 && 0 <= y < 20 && next == y * 20 + x
    requires buffer == Flatten(RoomRows(MapRoom))
    requires em.Valid() && em.entities == e0 + Ids(|e0|, next)
    requires TilesPlaced(t0, em.tables, |e0|, MapSpots(), next, MapSolid)
    modifies em
    ensures em.Valid() && em.names == old(em.names)
    ensures em.entities == e0 + Ids(|e0|, next + 1)
    ensures TilesPlaced(t0, em.tables, |e0|, MapSpots(), next + 1, MapSolid)
  {
    MapSpotAt(y, x);
    var glyph := buffer[next];
    ghost var before := em.tables;
    var tile := PlaceTile(em, Spot(x, y, glyph), MapSolid);
    TileLookups(before, tile, Spot(x, y, glyph), MapSolid);
    TilePlaced(t0, before, |e0|, MapSpots(), next, MapSolid, em.tables);
    IdsSnoc(e0, next);
  }

  /**
   * `create_map`: one new entity per cell of a 20 x 20 room, row by row,
   * given the cell's glyph on the map layer, its position, and Collidable
   * for a wall. `tiles.next()` reads the buffer through a position counter.
   */
  method CreateMap(em: EntityManager)
    requires em.Valid()
    modifies em
    ensures em.Valid()
    ensures em.entities == old(em.entities) + Ids(|old(em.entities)|, 400)
    ensures TilesPlaced(old(em.tables), em.tables, |old(em.entities)|, MapSpots(), 400, MapSolid)
    ensures em.names == old(em.names)
  {
    var room := MapRoom;
    var buffer, ok := GetBuffer(room);
    ghost var e0 := em.entities;
    ghost var t0 := em.tables;
    ghost var spots := MapSpots();
    BufferLength(room);
    NoTilesPlaced(t0, |e0|, spots, MapSolid);
    var next := 0;
    var y := 0;
    while y < room.height
      invariant 0 <= y <= 20 && next == y * 20
      invariant em.Valid() && em.names == old(em.names)
      invariant em.entities == e0 + Ids(|e0|, next)
      invariant TilesPlaced(t0, em.tables, |e0|, spots, next, MapSolid)
    {
      var x := 0;
      while x < room.width
        invariant 0 <= x <= 20 && next == y * 20 + x
        invariant em.Valid() && em.names == old(em.names)
        invariant em.entities == e0 + Ids(|e0|, next)
        invariant TilesPlaced(t0, em.tables, |e0|, spots, next, MapSolid)
      {
        PlaceMapTile(em, buffer, x, y, next, e0, t0);
        next := next + 1;
        x := x + 1;
      }
      y := y + 1;
    }
  }

  /** The glyph of `MapRoom`'s buffer at row j, column c. */
  function RoomGlyph(j: nat, c: nat): char {
    if j == 0 || j == 19 then '-' else if c == 0 || c == 19 then '|' else '.'
  }

  /** After `create_map`, the entity of cell (c, j) holds that cell's tile under kind `k`. */
  lemma MapTileKind(t0: Tables, t: Tables, first: Entity, j: nat, c: nat, k: K.Kind)
    requires j < 20 && c < 20
    requires TilesPlaced(t0, t, first, MapSpots(), 400, MapSolid)
    ensures GetComponentMut(t, first + j * 20 + c, k) ==
      TileComponent(Spot(c, j, RoomGlyph(j, c)), MapSolid, k, GetComponentMut(t0, first + j * 20 + c, k))
  {
    var rows := RoomRows(MapRoom);
    GridSpotsLength(rows, 20);
    assert rows[j][c] == RoomGlyph(j, c) by {
      BufferLayout(MapRoom, j, c);
      FlattenAt(rows, 20, j, c);
    }
    GridTileLookup(t0, t, first, rows, 20, MapSolid, j, c, k);
  }

  /**
   * After `create_map`, the tile in row j, column c of the room is at
   * (c, j), shows the room's glyph there on the map layer, and is
   * Collidable exactly on the border.
   */
  lemma MapTileAt(t0: Tables, t: Tables, first: Entity, j: nat, c: nat)
    requires j < 20 && c < 20
    requires TilesPlaced(t0, t, first, MapSpots(), 400, MapSolid)
    ensures GetComponentMut(t, first + j * 20 + c, K.Position) == Some(Position(c, j))
    ensures GetComponentMut(t, first + j * 20 + c, K.Render) ==
      Some(Render(if j == 0 || j == 19 then '-' else if c == 0 || c == 19 then '|' else '.', MapLayer))
    ensures j == 0 || j == 19 || c == 0 || c == 19 ==>
      GetComponentMut(t, first + j * 20 + c, K.Collidable) == Some(Collidable)
    ensures 0 < j < 19 && 0 < c < 19 ==>
      GetComponentMut(t, first + j * 20 + c, K.Collidable) == GetComponentMut(t0, first + j * 20 + c, K.Collidable)
  {
    var g := RoomGlyph(j, c);
    assert g in MapSolid <==> j == 0 || j == 19 || c == 0 || c == 19;
    MapTileKind(t0, t, first, j, c, K.Position);
    MapTileKind(t0, t, first, j, c, K.Render);
    MapTileKind(t0, t, first, j, c, K.Collidable);
  }
}
