/**
 * The dungeon generator: a grid of tiles `width` wide, stored row-major at
 * index `x + y * width`, into which rectangular rooms are placed with a
 * one-tile wall ring around them. Coordinates are `usize`; the random room
 * size is a parameter.
 */
module Dungeon {
  import Maps

  datatype Tile = Unused | Floor | Corridor | Wall | ClosedDoor | OpenDoor | UpStairs | DownStairs

  /** `Tile::value`: the character a tile is drawn with. */
  function Value(t: Tile): (c: char)
    ensures c == ' ' <==> t == Unused
  {
    match t
    case Unused => ' '
    case Floor => '.'
    case Corridor => ','
    case Wall => '#'
    case ClosedDoor => '+'
    case OpenDoor => '-'
    case UpStairs => '<'
    case DownStairs => '>'
  }

  /** Every tile is drawn with its own character. */
  lemma ValueIsInjective(a: Tile, b: Tile)
    ensures Value(a) == Value(b) <==> a == b
  {
  }

  datatype Direction = North | South | West | East

  datatype GenerationError = InvalidRectsize | TileOccupied

  datatype Result<E> = Ok | Err(error: E)

  datatype Rect = Rect(x: nat, y: nat, width: nat, height: nat)

  /** `set_tile`'s and `get_tile`'s index of (x, y). */
  function TileIndex(width: nat, x: nat, y: nat): nat {
    x + y * width
  }

  /** Within a row, the index determines the coordinates. */
  lemma TileIndexInverse(width: nat, x: nat, y: nat)
    requires x < width
    ensures TileIndex(width, x, y) % width == x && TileIndex(width, x, y) / width == y
  {
    Maps.CellIndexInverse(width, x, y);
  }

  /** Every cell of a `width` by `height` grid has an index below `width * height`. */
  lemma TileIndexInGrid(width: nat, height: nat, x: nat, y: nat)
    requires x < width && y < height
    ensures TileIndex(width, x, y) < width * height
  {
    Maps.MulAtLeast(height - y, width);
    assert width * height == (height - y) * width + y * width;
  }

  /** The cell (x, y) lies inside the rectangle. */
  predicate Inside(r: Rect, x: int, y: int) {
    r.x <= x < r.x + r.width && r.y <= y < r.y + r.height
  }

  /** The cell (x, y) lies inside the rectangle grown by one cell on every side. */
  predicate Around(r: Rect, x: int, y: int) {
    r.x - 1 <= x <= r.x + r.width && r.y - 1 <= y <= r.y + r.height
  }

  /** The tile at (x, y) once `tile` is placed in `r`: `tile` inside, Wall on the ring, `previous` elsewhere. */
  function PlacedTile(previous: Tile, r: Rect, x: int, y: int, tile: Tile): Tile {
    if Inside(r, x, y) then tile else if Around(r, x, y) then Wall else previous
  }

  /** The tiles once `tile` is placed in `r`, read cell by cell from the row-major vector. */
  function Placed(tiles: seq<Tile>, width: nat, r: Rect, tile: Tile): (p: seq<Tile>)
    requires width > 0
    ensures |p| == |tiles|
  {
    seq(|tiles|, i requires 0 <= i < |tiles| => PlacedTile(tiles[i], r, i % width, i / width, tile))
  }

  /** Every cell inside `r` is still Unused. */
  predicate Free(tiles: seq<Tile>, width: nat, r: Rect)
    requires width > 0
  {
    forall i | 0 <= i < |tiles| && Inside(r, i % width, i / width) :: tiles[i] == Unused
  }

  /**
   * The bound check of `place_rect` can be evaluated: it stops at a zero x
   * or y, and otherwise `width - 1` (and, when reached, `height - 1`) must
   * not wrap below zero.
   */
  predicate GuardDefined(r: Rect, width: nat, height: nat) {
    r.x < 1 || r.y < 1 || (width >= 1 && (r.x + r.width > width - 1 || height >= 1))
  }

  /** The rectangle stays clear of the outer border of the grid. */
  predicate Fits(r: Rect, width: nat, height: nat) {
    r.x >= 1 && r.y >= 1 && width >= 1 && height >= 1 &&
    r.x + r.width <= width - 1 && r.y + r.height <= height - 1
  }

  /** Read through coordinates: placing sets the interior to `tile`, the ring to Wall, and keeps the rest. */
  lemma PlacedAt(tiles: seq<Tile>, width: nat, r: Rect, tile: Tile, x: nat, y: nat)
    requires x < width && TileIndex(width, x, y) < |tiles|
    ensures Placed(tiles, width, r, tile)[TileIndex(width, x, y)] ==
      if Inside(r, x, y) then tile
      else if Around(r, x, y) then Wall
      else tiles[TileIndex(width, x, y)]
  {
    TileIndexInverse(width, x, y);
  }

  /** A fitting rectangle and its wall ring lie within the grid, so the ring is never cut off. */
  lemma FitsKeepsRingInGrid(r: Rect, width: nat, height: nat, x: int, y: int)
    requires Fits(r, width, height) && Around(r, x, y)
    ensures 0 <= x < width && 0 <= y < height
  {
  }

  /** The room `make_room` places for an anchor and a direction: heading North it sits above the anchor, centred on it. */
  function RoomFor(x: nat, y: nat, direction: Direction, roomWidth: nat, roomHeight: nat): (r: Rect)
    requires direction == North ==> roomWidth / 2 <= x && roomHeight <= y
    ensures r.width == roomWidth && r.height == roomHeight
    ensures direction == North ==> r.x + roomWidth / 2 == x && r.y + roomHeight == y
    ensures direction != North ==> r.x == 0 && r.y == 0
  {
    if direction == North then Rect(x - roomWidth / 2, y - roomHeight, roomWidth, roomHeight)
    else Rect(0, 0, roomWidth, roomHeight)
  }

  /** Heading anywhere but North, the room stays at the corner and can never be placed. */
  lemma OnlyNorthFits(x: nat, y: nat, direction: Direction, roomWidth: nat, roomHeight: nat, width: nat, height: nat)
    requires direction != North
    ensures !Fits(RoomFor(x, y, direction, roomWidth, roomHeight), width, height)
  {
  }

  /** Cell (cx, cy) comes before (x, y) in row-major order. */
  predicate Before(cx: int, cy: int, x: int, y: int) {
    cy < y || (cy == y && cx < x)
  }

  /** The cells of the grown rectangle before (x, y) hold their placed tile; every other cell is as in `t0`. */
  predicate FilledBefore(t0: seq<Tile>, tiles: seq<Tile>, width: nat, r: Rect, tile: Tile, y: int, x: int)
    requires width > 0 && |tiles| == |t0|
  {
    forall i | 0 <= i < |t0| ::
      tiles[i] == if Around(r, i % width, i / width) && Before(i % width, i / width, x, y)
        then PlacedTile(t0[i], r, i % width, i / width, tile) else t0[i]
  }

  /** Writing the placed tile of (x, y) extends the filled part by that cell. */
  lemma FillStep(t0: seq<Tile>, tiles: seq<Tile>, width: nat, r: Rect, tile: Tile, x: nat, y: nat)
    requires width > 0 && |tiles| == |t0| && FilledBefore(t0, tiles, width, r, tile, y, x)
    requires x < width && TileIndex(width, x, y) < |t0| && Around(r, x, y)
    ensures var index := TileIndex(width, x, y);
      FilledBefore(t0, tiles[index := PlacedTile(t0[index], r, x, y, tile)], width, r, tile, y, x + 1)
  {
    var index := TileIndex(width, x, y);
    TileIndexInverse(width, x, y);
    var tiles' := tiles[index := PlacedTile(t0[index], r, x, y, tile)];
    forall i | 0 <= i < |t0|
      ensures tiles'[i] == if Around(r, i % width, i / width) && Before(i % width, i / width, x + 1, y)
        then PlacedTile(t0[i], r, i % width, i / width, tile) else t0[i]
    {
      if i / width == y && i % width == x {
        assert i == index;
      }
    }
  }

  /** Past the right end of the grown rectangle, row y is done: the filled part is every row above y + 1. */
  lemma RowFilled(t0: seq<Tile>, tiles: seq<Tile>, width: nat, r: Rect, tile: Tile, y: int)
    requires width > 0 && |tiles| == |t0| && r.x >= 1
    requires FilledBefore(t0, tiles, width, r, tile, y, r.x + r.width + 1)
    ensures FilledBefore(t0, tiles, width, r, tile, y + 1, r.x - 1)
  {
  }

  /** Below the grown rectangle, every cell holds its placed tile. */
  lemma AllFilled(t0: seq<Tile>, tiles: seq<Tile>, width: nat, r: Rect, tile: Tile, y: int)
    requires width > 0 && |tiles| == |t0| && r.x >= 1
    requires FilledBefore(t0, tiles, width, r, tile, y, r.x - 1) && y == r.y + r.height + 1
    ensures tiles == Placed(t0, width, r, tile)
  {
    assert forall i | 0 <= i < |t0| :: tiles[i] == PlacedTile(t0[i], r, i % width, i / width, tile);
  }

  class Dungeon {
    var width: nat
    var height: nat
    var tiles: seq<Tile>
    var rooms: seq<Rect>
    var exits: seq<Rect>

    /** `Dungeon::new`: the size is recorded, but the tile vector is left empty. */
    constructor (width: nat, height: nat)
      ensures this.width == width && this.height == height
      ensures tiles == [] && rooms == [] && exits == []
    {
      this.width := width;
      this.height := height;
      tiles := [];
      rooms := [];
      exits := [];
    }

    /**
     * The evidently intended `Dungeon::new`: the tile vector covers the
     * grid, every tile Unused, so `place_rect` can read and write it.
     */
    constructor Blank(width: nat, height: nat)
      ensures this.width == width && this.height == height
      ensures tiles == seq(width * height, _ => Unused) && rooms == [] && exits == []
      ensures Sized()
    {
      this.width := width;
      this.height := height;
      tiles := seq(width * height, _ => Unused);
      rooms := [];
      exits := [];
    }

    /** The tile vector covers the grid. */
    predicate Sized()
      reads this
    {
      |tiles| == width * height
    }

    /** `get_tile`: Unused off the grid, otherwise the stored tile. */
    function GetTile(x: nat, y: nat): (t: Tile)
      reads this
      requires x < width && y < height ==> TileIndex(width, x, y) < |tiles|
      ensures x >= width || y >= height ==> t == Unused
      ensures x < width && y < height ==> t == tiles[TileIndex(width, x, y)]
    {
      if x >= width || y >= height then Unused else tiles[TileIndex(width, x, y)]
    }

    /** `set_tile`: only the tile at `x + y * width` changes. */
    method SetTile(x: nat, y: nat, tile: Tile)
      requires TileIndex(width, x, y) < |tiles|
      modifies this
      ensures width == old(width) && height == old(height) && rooms == old(rooms) && exits == old(exits)
      ensures tiles == old(tiles)[TileIndex(width, x, y) := tile]
    {
      tiles := tiles[TileIndex(width, x, y) := tile];
    }

    /**
     * `place_rect`: a rectangle touching the border is refused with
     * InvalidRectsize, one over a used tile with TileOccupied, both leaving
     * the tiles alone; otherwise the interior becomes `tile` and the ring
     * around it Wall.
     */
    method PlaceRect(rect: Rect, tile: Tile) returns (r: Result<GenerationError>)
      requires GuardDefined(rect, width, height)
      requires Fits(rect, width, height) ==> Sized()
      modifies this
      ensures !Fits(rect, width, height) ==> r == Err(InvalidRectsize)
      ensures Fits(rect, width, height) && !Free(old(tiles), width, rect) ==> r == Err(TileOccupied)
      ensures Fits(rect, width, height) && Free(old(tiles), width, rect) ==>
        r == Ok && tiles == Placed(old(tiles), width, rect, tile)
      ensures r.Err? ==> tiles == old(tiles)
      ensures width == old(width) && height == old(height) && rooms == old(rooms) && exits == old(exits)
    {
      if rect.x < 1 || rect.y < 1 || rect.x + rect.width > width - 1 || rect.y + rect.height > height - 1 {
        return Err(InvalidRectsize);
      }
      var free := CheckFree(rect);
      if !free {
        return Err(TileOccupied);
      }
      FillRect(rect, tile);
      r := Ok;
    }

    /** The first loop of `place_rect`: row by row, every interior tile must be Unused. */
    method CheckFree(rect: Rect) returns (free: bool)
      requires Fits(rect, width, height) && Sized()
      ensures free <==> Free(tiles, width, rect)
    {
      var y := rect.y;
      while y < rect.y + rect.height
        invariant rect.y <= y <= rect.y + rect.height
        invariant forall i | 0 <= i < |tiles| && Inside(rect, i % width, i / width) && i / width < y ::
          tiles[i] == Unused
      {
        var x := rect.x;
        while x < rect.x + rect.width
          invariant rect.x <= x <= rect.x + rect.width
          invariant forall i | 0 <= i < |tiles| && Inside(rect, i % width, i / width) &&
            (i / width < y || (i / width == y && i % width < x)) :: tiles[i] == Unused
        {
          TileIndexInGrid(width, height, x, y);
          if GetTile(x, y) != Unused {
            TileIndexInverse(width, x, y);
            return false;
          }
          var index, x' := TileIndex(width, x, y), x + 1;
          TileIndexInverse(width, x, y);
          forall i | 0 <= i < |tiles| && Inside(rect, i % width, i / width) &&
            (i / width < y || (i / width == y && i % width < x'))
            ensures tiles[i] == Unused
          {
            if i / width == y && i % width == x {
              assert i == index;
            }
          }
          x := x';
        }
        y := y + 1;
      }
      return true;
    }

    /** The second loop of `place_rect`: row by row over the grown rectangle, Wall on the ring, `tile` inside. */
    method FillRect(rect: Rect, tile: Tile)
      requires Fits(rect, width, height) && Sized()
      modifies this
      ensures width == old(width) && height == old(height) && rooms == old(rooms) && exits == old(exits)
      ensures tiles == Placed(old(tiles), width, rect, tile)
    {
      ghost var t0 := tiles;
      var y := rect.y - 1;
      while y < rect.y + rect.height + 1
        invariant rect.y - 1 <= y <= rect.y + rect.height + 1
        invariant width == old(width) && height == old(height) && rooms == old(rooms) && exits == old(exits)
        invariant |tiles| == |t0| && FilledBefore(t0, tiles, width, rect, tile, y, rect.x - 1)
      {
        FillRow(rect, tile, y, t0);
        y := y + 1;
      }
      AllFilled(t0, tiles, width, rect, tile, y);
    }

    /** One row of the second loop of `place_rect`. */
    method FillRow(rect: Rect, tile: Tile, y: nat, ghost t0: seq<Tile>)
      requires Fits(rect, width, height) && Sized() && rect.y - 1 <= y <= rect.y + rect.height
      requires |tiles| == |t0| && FilledBefore(t0, tiles, width, rect, tile, y, rect.x - 1)
      modifies this
      ensures width == old(width) && height == old(height) && rooms == old(rooms) && exits == old(exits)
      ensures |tiles| == |t0| && FilledBefore(t0, tiles, width, rect, tile, y + 1, rect.x - 1)
    {
      var x := rect.x - 1;
      while x < rect.x + rect.width + 1
        invariant rect.x - 1 <= x <= rect.x + rect.width + 1
        invariant width == old(width) && height == old(height) && rooms == old(rooms) && exits == old(exits)
        invariant |tiles| == |t0| && FilledBefore(t0, tiles, width, rect, tile, y, x)
      {
        TileIndexInGrid(width, height, x, y);
        ghost var before := tiles;
        if x == rect.x - 1 || y == rect.y - 1 || x == rect.x + rect.width || y == rect.y + rect.height {
          SetTile(x, y, Wall);
        } else {
          SetTile(x, y, tile);
        }
        FillStep(t0, before, width, rect, tile, x, y);
        x := x + 1;
      }
      RowFilled(t0, tiles, width, rect, tile, y);
    }

    /**
     * `make_room` with the drawn room size: the room is placed with Floor
     * and recorded only when `place_rect` succeeds; any failure becomes
     * `Err("Error")` and changes nothing.
     */
    method MakeRoom(x: nat, y: nat, direction: Direction, firstRoom: bool, roomWidth: nat, roomHeight: nat)
      returns (r: Result<string>)
      requires 3 <= roomWidth < 6 && 3 <= roomHeight < 6
      requires direction == North ==> roomWidth / 2 <= x && roomHeight <= y
      requires GuardDefined(RoomFor(x, y, direction, roomWidth, roomHeight), width, height)
      requires Fits(RoomFor(x, y, direction, roomWidth, roomHeight), width, height) ==> Sized()
      modifies this
      ensures var room := RoomFor(x, y, direction, roomWidth, roomHeight);
        if Fits(room, width, height) && Free(old(tiles), width, room) then
          r == Ok && tiles == Placed(old(tiles), width, room, Floor) && rooms == old(rooms) + [room]
        else
          r == Err("Error") && tiles == old(tiles) && rooms == old(rooms)
      ensures width == old(width) && height == old(height) && exits == old(exits)
    {
      var room := RoomFor(x, y, direction, roomWidth, roomHeight);
      var placed := PlaceRect(room, Floor);
      match placed
      case Ok =>
        rooms := rooms + [room];
        r := Ok;
      case Err(_) =>
        return Err("Error");
    }

    /**
     * `generate`: one North room anchored at the centre of the grid; a
     * failure is only logged, so the result is always Ok.
     */
    method Generate(maxFeatures: int, roomWidth: nat, roomHeight: nat) returns (r: Result<string>)
      requires 3 <= roomWidth < 6 && 3 <= roomHeight < 6
      requires roomWidth / 2 <= width / 2 && roomHeight <= height / 2
      requires Fits(RoomFor(width / 2, height / 2, North, roomWidth, roomHeight), width, height) ==> Sized()
      modifies this
      ensures r == Ok
      ensures var room := RoomFor(old(width) / 2, old(height) / 2, North, roomWidth, roomHeight);
        if Fits(room, width, height) && Free(old(tiles), width, room) then
          tiles == Placed(old(tiles), width, room, Floor) && rooms == old(rooms) + [room]
        else
          tiles == old(tiles) && rooms == old(rooms)
      ensures width == old(width) && height == old(height) && exits == old(exits)
    {
      var _ := MakeRoom(width / 2, height / 2, North, true, roomWidth, roomHeight);
      r := Ok;
    }
  }

  /**
   * `Dungeon::new` followed by `generate`, as written: the tile vector is
   * still empty, so when the first room fits the bound check, the first
   * `get_tile` of `place_rect` indexes past its end and the program panics.
   * `panics` is exactly that out-of-range read.
   */
  method GenerateOnNew(width: nat, height: nat, roomWidth: nat, roomHeight: nat) returns (panics: bool)
    requires 3 <= roomWidth < 6 && 3 <= roomHeight < 6
    requires roomWidth / 2 <= width / 2 && roomHeight <= height / 2
    ensures panics <==> Fits(RoomFor(width / 2, height / 2, North, roomWidth, roomHeight), width, height)
  {
    var d := new Dungeon(width, height);
    var room := RoomFor(width / 2, height / 2, North, roomWidth, roomHeight);
    panics := Fits(room, d.width, d.height) && TileIndex(d.width, room.x, room.y) >= |d.tiles|;
  }

  /** The smallest room, North of the centre of a 20 x 20 grid, passes the bound check. */
  lemma CentreRoomFits()
    ensures Fits(RoomFor(10, 10, North, 3, 3), 20, 20)
  {
    assert RoomFor(10, 10, North, 3, 3) == Rect(9, 7, 3, 3);
  }

  /**
   * `generate` on the evidently intended blank grid: the first room, North
   * of the centre, is placed with Floor and recorded whenever it fits.
   */
  method GenerateOnBlank(width: nat, height: nat, roomWidth: nat, roomHeight: nat)
    returns (r: Result<string>, rooms: seq<Rect>, tiles: seq<Tile>)
    requires 3 <= roomWidth < 6 && 3 <= roomHeight < 6
    requires roomWidth / 2 <= width / 2 && roomHeight <= height / 2
    ensures r == Ok
    ensures var room := RoomFor(width / 2, height / 2, North, roomWidth, roomHeight);
      var blank := seq(width * height, _ => Unused);
      if Fits(room, width, height) then
        rooms == [room] && tiles == Placed(blank, width, room, Floor)
      else
        rooms == [] && tiles == blank
  {
    var d := new Dungeon.Blank(width, height);
    r := d.Generate(0, roomWidth, roomHeight);
    rooms, tiles := d.rooms, d.tiles;
  }
}
