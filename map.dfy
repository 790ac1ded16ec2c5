/**
 * The tile map: a row-major vector of cells `width` wide, the rooms carved
 * into it, the builder that digs rooms and tunnels, the reading of a map
 * from a text buffer, and the index arena used for space partitioning.
 * Coordinates are cast to `usize` before indexing, so a cell index is
 * `y * width + x` with both coordinates non-negative; an index past the end
 * of the vector panics.
 */
module Maps {
  import opened Common

  datatype Cell = Cell(glyph: char, blocked: bool, blockSight: bool)

  /** The cell a fresh map is filled with: '#' but passable. */
  const FreshCell := Cell('#', false, false)

  /** The `Wall` constant and the cell `init_cells` fills with. */
  const Wall := Cell('#', true, true)

  /** A room by its corners, as the builder reads it. */
  datatype Room = Room(x1: int, y1: int, x2: int, y2: int)

  /** `cell_index` and `index`: the row-major position of (x, y). */
  function CellIndex(width: nat, x: int, y: int): int {
    y * width + x
  }

  /** Within a row, the index determines the coordinates: x is the remainder, y the quotient. */
  lemma CellIndexInverse(width: nat, x: int, y: int)
    requires 0 <= x < width
    ensures CellIndex(width, x, y) % width == x
    ensures CellIndex(width, x, y) / width == y
  {
    assert (y * width + x) / width == y && (y * width + x) % width == x by {
      LemmaFundamentalDivMod(y * width + x, width, y, x);
    }
  }

  /** Euclidean division is unique: a quotient and a remainder in range are the ones. */
  lemma LemmaFundamentalDivMod(n: int, d: int, q: int, r: int)
    requires d > 0 && 0 <= r < d && n == q * d + r
    ensures n / d == q && n % d == r
  {
    var q', r' := n / d, n % d;
    assert n == q' * d + r';
    if q' > q {
      MulAtLeast(q' - q, d);
    } else if q' < q {
      MulAtLeast(q - q', d);
    }
  }

  lemma {:induction false} MulAtLeast(k: int, d: int)
    requires k >= 1 && d > 0
    ensures k * d >= d
    decreases k
  {
    if k > 1 {
      MulAtLeast(k - 1, d);
      assert k * d == (k - 1) * d + d;
    }
  }

  /** Two cells within the row width share an index only when they are the same cell. */
  lemma CellIndexInjective(width: nat, x: int, y: int, x': int, y': int)
    requires 0 <= x < width && 0 <= x' < width
    requires CellIndex(width, x, y) == CellIndex(width, x', y')
    ensures x == x' && y == y'
  {
    CellIndexInverse(width, x, y);
    CellIndexInverse(width, x', y');
  }

  /** Index `i` is the cell (x, y). */
  predicate At(i: int, width: nat, x: int, y: int) {
    i == CellIndex(width, x, y)
  }

  /** Index `i` is a cell of column `x` with ylo <= y < yhi. */
  predicate InColumn(i: int, width: nat, x: int, ylo: int, yhi: int) {
    exists y | ylo <= y < yhi :: At(i, width, x, y)
  }

  /** Index `i` is a cell (x, y) with xlo <= x < xhi and ylo <= y < yhi. */
  predicate InRect(i: int, width: nat, xlo: int, xhi: int, ylo: int, yhi: int) {
    exists x | xlo <= x < xhi :: InColumn(i, width, x, ylo, yhi)
  }

  /** Every cell of the rectangle is in the vector: the rectangle is empty or its last cell fits. */
  predicate RectFits(n: nat, width: nat, xlo: int, xhi: int, ylo: int, yhi: int) {
    xlo >= xhi || ylo >= yhi || (0 <= xlo && 0 <= ylo && CellIndex(width, xhi - 1, yhi - 1) < n)
  }

  /** In a fitting rectangle every cell has an index inside the vector. */
  lemma RectIndexInBounds(n: nat, width: nat, xlo: int, xhi: int, ylo: int, yhi: int, x: int, y: int)
    requires RectFits(n, width, xlo, xhi, ylo, yhi)
    requires xlo <= x < xhi && ylo <= y < yhi
    ensures 0 <= x && 0 <= y && 0 <= CellIndex(width, x, y) < n
  {
    assert (yhi - 1 - y) * width >= 0;
    assert y * width >= 0;
  }

  /** The cells after digging every cell of the rectangle. */
  function Dug(cells: seq<Cell>, width: nat, xlo: int, xhi: int, ylo: int, yhi: int): (r: seq<Cell>)
    ensures |r| == |cells|
  {
    seq(|cells|, i requires 0 <= i < |cells| =>
      if InRect(i, width, xlo, xhi, ylo, yhi) then DigCell(cells[i]) else cells[i])
  }

  /**
   * For a rectangle within the row width, a cell is dug exactly when its
   * coordinates lie inside the rectangle; every other cell is kept.
   */
  lemma DugExactly(cells: seq<Cell>, width: nat, xlo: int, xhi: int, ylo: int, yhi: int, x: int, y: int)
    requires 0 <= xlo && xhi <= width
    requires 0 <= x < width && 0 <= CellIndex(width, x, y) < |cells|
    ensures Dug(cells, width, xlo, xhi, ylo, yhi)[CellIndex(width, x, y)] ==
      if xlo <= x < xhi && ylo <= y < yhi then DigCell(cells[CellIndex(width, x, y)])
      else cells[CellIndex(width, x, y)]
  {
    var i := CellIndex(width, x, y);
    if InRect(i, width, xlo, xhi, ylo, yhi) {
      var x' :| xlo <= x' < xhi && InColumn(i, width, x', ylo, yhi);
      var y' :| ylo <= y' < yhi && At(i, width, x', y');
      CellIndexInjective(width, x, y, x', y');
    } else {
      if xlo <= x < xhi && ylo <= y < yhi {
        assert At(i, width, x, y) && InColumn(i, width, x, ylo, yhi);
      }
    }
  }

  /** Widening a column range by its top row adds exactly that cell. */
  lemma InColumnGrows(i: int, width: nat, x: int, ylo: int, y: int)
    requires ylo <= y
    ensures InColumn(i, width, x, ylo, y + 1) <==> InColumn(i, width, x, ylo, y) || At(i, width, x, y)
  {
    if InColumn(i, width, x, ylo, y + 1) {
      var y' :| ylo <= y' < y + 1 && At(i, width, x, y');
      if y' < y {
        assert InColumn(i, width, x, ylo, y);
      }
    }
  }

  /** Widening a rectangle by its right column adds exactly that column. */
  lemma InRectGrows(i: int, width: nat, xlo: int, x: int, ylo: int, yhi: int)
    requires xlo <= x
    ensures InRect(i, width, xlo, x + 1, ylo, yhi) <==> InRect(i, width, xlo, x, ylo, yhi) || InColumn(i, width, x, ylo, yhi)
  {
    if InRect(i, width, xlo, x + 1, ylo, yhi) {
      var x' :| xlo <= x' < x + 1 && InColumn(i, width, x', ylo, yhi);
      if x' < x {
        assert InRect(i, width, xlo, x, ylo, yhi);
      }
    }
  }

  /** A rectangle one column wide is that column. */
  lemma InRectOneColumn(i: int, width: nat, x: int, ylo: int, yhi: int)
    ensures InRect(i, width, x, x + 1, ylo, yhi) <==> InColumn(i, width, x, ylo, yhi)
  {
    InRectGrows(i, width, x, x, ylo, yhi);
  }

  /** `i32::min` and `i32::max`. */
  function Min(a: int, b: int): int {
    if a <= b then a else b
  }

  function Max(a: int, b: int): int {
    if a >= b then a else b
  }

  /** `dig_cell`: the cell becomes a passable, see-through floor. */
  function DigCell(cell: Cell): (r: Cell)
    ensures r.glyph == '.' && !r.blocked && !r.blockSight
  {
    Cell('.', false, false)
  }

  class Map {
    var cells: seq<Cell>
    var rooms: seq<Room>
    var width: nat
    var height: nat

    /** `Map::new`: width * height fresh cells and no rooms. */
    constructor (width: nat, height: nat)
      ensures this.width == width && this.height == height
      ensures |cells| == width * height && forall i | 0 <= i < |cells| :: cells[i] == FreshCell
      ensures rooms == []
    {
      this.width := width;
      this.height := height;
      cells := seq(width * height, _ => FreshCell);
      rooms := [];
    }

    /** `fill`: a fresh vector of width * height copies of `cell`. */
    method Fill(cell: Cell)
      modifies this
      ensures |cells| == width * height && forall i | 0 <= i < |cells| :: cells[i] == cell
      ensures width == old(width) && height == old(height) && rooms == old(rooms)
    {
      cells := seq(width * height, _ => cell);
    }

    /** `init_cells`: row by row, width * height walls. */
    static method InitCells(width: nat, height: nat) returns (cells: seq<Cell>)
      ensures |cells| == width * height
      ensures forall i | 0 <= i < |cells| :: cells[i] == Wall
    {
      cells := [];
      var y := 0;
      while y < height
        invariant 0 <= y <= height
        invariant |cells| == y * width
        invariant forall i | 0 <= i < |cells| :: cells[i] == Wall
      {
        var x := 0;
        while x < width
          invariant 0 <= x <= width
          invariant |cells| == y * width + x
          invariant forall i | 0 <= i < |cells| :: cells[i] == Wall
        {
          cells := cells + [Wall];
          x := x + 1;
        }
        y := y + 1;
      }
    }

    /** `get_cell_ref`: the cell at (x, y); an index past the end panics. */
    function GetCellRef(x: int, y: int): Cell
      reads this
      requires 0 <= x && 0 <= y && CellIndex(width, x, y) < |cells|
    {
      cells[CellIndex(width, x, y)]
    }

    /** `is_blocked`: whether the cell at (x, y) blocks movement. */
    function IsBlocked(x: int, y: int): (b: bool)
      reads this
      requires 0 <= x && 0 <= y && CellIndex(width, x, y) < |cells|
      ensures b == GetCellRef(x, y).blocked
    {
      cells[CellIndex(width, x, y)].blocked
    }

    /** `set_cell`: only the cell at index y * width + x changes. */
    method SetCell(x: int, y: int, cell: Cell)
      requires 0 <= x && 0 <= y && CellIndex(width, x, y) < |cells|
      modifies this
      ensures width == old(width) && height == old(height) && rooms == old(rooms)
      ensures cells == old(cells)[CellIndex(width, x, y) := cell]
      ensures GetCellRef(x, y) == cell && IsBlocked(x, y) == cell.blocked
    {
      cells := cells[CellIndex(width, x, y) := cell];
    }
  }

  /**
   * After writing the cell (x, y), reading any cell (x', y') of the row
   * width gives the written cell exactly when it is the same cell.
   */
  lemma GetAfterSet(cells: seq<Cell>, width: nat, x: int, y: int, cell: Cell, x': int, y': int)
    requires 0 <= x < width && 0 <= y && CellIndex(width, x, y) < |cells|
    requires 0 <= x' < width && 0 <= y' && CellIndex(width, x', y') < |cells|
    ensures cells[CellIndex(width, x, y) := cell][CellIndex(width, x', y')] ==
      if x' == x && y' == y then cell else cells[CellIndex(width, x', y')]
  {
    if CellIndex(width, x, y) == CellIndex(width, x', y') {
      CellIndexInjective(width, x, y, x', y');
    }
  }

  class MapBuilder {
    var width: nat
    var height: nat
    var tileMap: Map

    /** `MapBuilder::new`: a builder over a fresh map of the same size. */
    constructor (width: nat, height: nat)
      ensures this.width == width && this.height == height
      ensures fresh(tileMap) && tileMap.width == width && tileMap.height == height
      ensures |tileMap.cells| == width * height && forall i | 0 <= i < |tileMap.cells| :: tileMap.cells[i] == FreshCell
      ensures tileMap.rooms == []
    {
      this.width := width;
      this.height := height;
      tileMap := new Map(width, height);
    }

    /** `create_room`: digs the strict interior of the room, column by column, and records the room. */
    method CreateRoom(room: Room)
      requires RectFits(|tileMap.cells|, width, room.x1 + 1, room.x2, room.y1 + 1, room.y2)
      modifies tileMap
      ensures tileMap.cells == Dug(old(tileMap.cells), width, room.x1 + 1, room.x2, room.y1 + 1, room.y2)
      ensures tileMap.rooms == old(tileMap.rooms) + [room]
      ensures tileMap.width == old(tileMap.width) && tileMap.height == old(tileMap.height)
    {
      ghost var c0 := tileMap.cells;
      var xlo, ylo := room.x1 + 1, room.y1 + 1;
      var x := xlo;
      while x < room.x2
        invariant xlo <= x && (x <= room.x2 || x == xlo)
        invariant |tileMap.cells| == |c0|
        invariant forall i | 0 <= i < |c0| ::
          tileMap.cells[i] == if InRect(i, width, xlo, x, ylo, room.y2) then DigCell(c0[i]) else c0[i]
        invariant tileMap.rooms == old(tileMap.rooms) && tileMap.width == old(tileMap.width) && tileMap.height == old(tileMap.height)
      {
        var y := ylo;
        while y < room.y2
          invariant ylo <= y && (y <= room.y2 || y == ylo)
          invariant |tileMap.cells| == |c0|
          invariant forall i | 0 <= i < |c0| ::
            tileMap.cells[i] ==
              if InRect(i, width, xlo, x, ylo, room.y2) || InColumn(i, width, x, ylo, y) then DigCell(c0[i]) else c0[i]
          invariant tileMap.rooms == old(tileMap.rooms) && tileMap.width == old(tileMap.width) && tileMap.height == old(tileMap.height)
        {
          RectIndexInBounds(|c0|, width, xlo, room.x2, ylo, room.y2, x, y);
          var index := CellIndex(width, x, y);
          ghost var before := tileMap.cells;
          tileMap.cells := tileMap.cells[index := DigCell(tileMap.cells[index])];
          var y' := y + 1;
          forall i | 0 <= i < |c0|
            ensures tileMap.cells[i] ==
              if InRect(i, width, xlo, x, ylo, room.y2) || InColumn(i, width, x, ylo, y') then DigCell(c0[i]) else c0[i]
          {
            InColumnGrows(i, width, x, ylo, y);
          }
          y := y';
        }
        var x' := x + 1;
        forall i | 0 <= i < |c0|
          ensures tileMap.cells[i] == if InRect(i, width, xlo, x', ylo, room.y2) then DigCell(c0[i]) else c0[i]
        {
          InRectGrows(i, width, xlo, x, ylo, room.y2);
          if y != room.y2 {
            assert !InColumn(i, width, x, ylo, room.y2) && !InColumn(i, width, x, ylo, y);
          }
        }
        x := x';
      }
      if x != room.x2 {
        forall i | 0 <= i < |c0| ensures !InRect(i, width, xlo, x, ylo, room.y2) && !InRect(i, width, xlo, room.x2, ylo, room.y2) {
        }
      }
      tileMap.rooms := tileMap.rooms + [room];
    }

    /** `create_h_tunnel`: digs row `y` from the smaller to the larger x, both ends included. */
    method CreateHTunnel(x1: int, x2: int, y: int)
      requires RectFits(|tileMap.cells|, width, Min(x1, x2), Max(x1, x2) + 1, y, y + 1)
      modifies tileMap
      ensures tileMap.cells == Dug(old(tileMap.cells), width, Min(x1, x2), Max(x1, x2) + 1, y, y + 1)
      ensures tileMap.rooms == old(tileMap.rooms)
      ensures tileMap.width == old(tileMap.width) && tileMap.height == old(tileMap.height)
    {
      ghost var c0 := tileMap.cells;
      var lo, hi, y' := Min(x1, x2), Max(x1, x2) + 1, y + 1;
      var x := lo;
      while x < hi
        invariant lo <= x <= hi
        invariant |tileMap.cells| == |c0|
        invariant forall i | 0 <= i < |c0| ::
          tileMap.cells[i] == if InRect(i, width, lo, x, y, y') then DigCell(c0[i]) else c0[i]
        invariant tileMap.rooms == old(tileMap.rooms) && tileMap.width == old(tileMap.width) && tileMap.height == old(tileMap.height)
      {
        RectIndexInBounds(|c0|, width, lo, hi, y, y', x, y);
        var index := CellIndex(width, x, y);
        tileMap.cells := tileMap.cells[index := DigCell(tileMap.cells[index])];
        var x' := x + 1;
        forall i | 0 <= i < |c0|
          ensures tileMap.cells[i] == if InRect(i, width, lo, x', y, y') then DigCell(c0[i]) else c0[i]
        {
          InRectGrows(i, width, lo, x, y, y');
          InColumnGrows(i, width, x, y, y);
        }
        x := x';
      }
    }

    /** `create_v_tunnel`: digs column `x` from the smaller to the larger y, both ends included. */
    method CreateVTunnel(y1: int, y2: int, x: int)
      requires RectFits(|tileMap.cells|, width, x, x + 1, Min(y1, y2), Max(y1, y2) + 1)
      modifies tileMap
      ensures tileMap.cells == Dug(old(tileMap.cells), width, x, x + 1, Min(y1, y2), Max(y1, y2) + 1)
      ensures tileMap.rooms == old(tileMap.rooms)
      ensures tileMap.width == old(tileMap.width) && tileMap.height == old(tileMap.height)
    {
      ghost var c0 := tileMap.cells;
      var lo, hi, x' := Min(y1, y2), Max(y1, y2) + 1, x + 1;
      var y := lo;
      while y < hi
        invariant lo <= y <= hi
        invariant |tileMap.cells| == |c0|
        invariant forall i | 0 <= i < |c0| ::
          tileMap.cells[i] == if InColumn(i, width, x, lo, y) then DigCell(c0[i]) else c0[i]
        invariant tileMap.rooms == old(tileMap.rooms) && tileMap.width == old(tileMap.width) && tileMap.height == old(tileMap.height)
      {
        RectIndexInBounds(|c0|, width, x, x', lo, hi, x, y);
        var index := CellIndex(width, x, y);
        tileMap.cells := tileMap.cells[index := DigCell(tileMap.cells[index])];
        var y' := y + 1;
        forall i | 0 <= i < |c0|
          ensures tileMap.cells[i] == if InColumn(i, width, x, lo, y') then DigCell(c0[i]) else c0[i]
        {
          InColumnGrows(i, width, x, lo, y);
        }
        y := y';
      }
      forall i | 0 <= i < |c0|
        ensures tileMap.cells[i] == if InRect(i, width, x, x', lo, hi) then DigCell(c0[i]) else c0[i]
      {
        InRectOneColumn(i, width, x, lo, hi);
      }
    }

    /** `build`: the map the builder has been digging. */
    method Build() returns (m: Map)
      ensures m == tileMap
    {
      m := tileMap;
    }
  }

  /** Rust's ordering of `str`: lexicographic by character. */
  predicate LexLessEq(a: string, b: string)
    decreases |a|
  {
    a == [] || (b != [] && (a[0] < b[0] || (a[0] == b[0] && LexLessEq(a[1..], b[1..]))))
  }

  /** Every string sorts at or before itself. */
  lemma {:induction false} LexLessEqReflexive(a: string)
    ensures LexLessEq(a, a)
    decreases |a|
  {
    if a != [] {
      LexLessEqReflexive(a[1..]);
    }
  }

  /** Any two strings are ordered one way or the other. */
  lemma {:induction false} LexLessEqTotal(a: string, b: string)
    ensures LexLessEq(a, b) || LexLessEq(b, a)
    decreases |a|
  {
    if a != [] && b != [] && a[0] == b[0] {
      LexLessEqTotal(a[1..], b[1..]);
    }
  }

  /** The ordering is transitive. */
  lemma {:induction false} LexLessEqTransitive(a: string, b: string, c: string)
    requires LexLessEq(a, b) && LexLessEq(b, c)
    ensures LexLessEq(a, c)
    decreases |a|
  {
    if a != [] && a[0] == b[0] && b[0] == c[0] {
      LexLessEqTransitive(a[1..], b[1..], c[1..]);
    }
  }

  /** `Iterator::max` on lines: the lexicographically greatest, the last one on a tie. */
  function LexMax(lines: seq<string>): (r: string)
    requires lines != []
    ensures r in lines
    decreases |lines|
  {
    if |lines| == 1 then lines[0]
    else
      var m := LexMax(lines[..|lines| - 1]);
      if LexLessEq(m, lines[|lines| - 1]) then lines[|lines| - 1] else m
  }

  /** `LexMax` is at or after every line: it is the maximum of the ordering. */
  lemma {:induction false} LexMaxIsGreatest(lines: seq<string>)
    requires lines != []
    ensures forall l | l in lines :: LexLessEq(l, LexMax(lines))
    decreases |lines|
  {
    var last := lines[|lines| - 1];
    if |lines| == 1 {
      LexLessEqReflexive(last);
    } else {
      var prefix := lines[..|lines| - 1];
      var m := LexMax(prefix);
      LexMaxIsGreatest(prefix);
      assert lines == prefix + [last];
      if LexLessEq(m, last) {
        LexLessEqReflexive(last);
        forall l | l in prefix ensures LexLessEq(l, last) {
          LexLessEqTransitive(l, m, last);
        }
      } else {
        LexLessEqTotal(m, last);
      }
    }
  }

  /**
   * `get_buffer_dimensions` as written: the width is the length of the
   * lexicographically greatest line, not of the longest; `None` is the
   * panic of `unwrap` on a buffer without lines.
   */
  function GetBufferDimensions(buffer: string): (r: Option<(nat, nat)>)
    ensures r.None? <==> Lines(buffer) == []
    ensures r.Some? ==> r.value.1 == |Lines(buffer)|
    ensures r.Some? ==>
      exists line | line in Lines(buffer) :: r.value.0 == |line| && forall l | l in Lines(buffer) :: LexLessEq(l, line)
  {
    var lines := Lines(buffer);
    if lines == [] then None else LexMaxIsGreatest(lines); Some((|LexMax(lines)|, |lines|))
  }

  /** A two-line buffer whose longer line sorts first: the width comes out as 1, short of the 2-character line. */
  lemma AsWrittenWidthMissesLongestLine()
    ensures Lines("b\naa") == ["b", "aa"]
    ensures GetBufferDimensions("b\naa") == Some((1, 2))
  {
    var s0, s1, s2, s3 := "b\naa", "\naa", "aa", "a";
    assert s0[1..] == s1 && s1[1..] == s2 && s2[1..] == s3 && s3[1..] == "";
    assert ['a'] + "" == s3 && ['a'] + s3 == s2 && ['b'] + "" == "b";
    assert Pieces(s3) == [s3];
    assert Pieces(s2) == [s2];
    assert Pieces(s1) == ["", s2];
    assert Pieces(s0) == ["b", s2];
    assert StripCarriageReturn("b") == "b" && StripCarriageReturn(s2) == s2;
    assert Lines(s0)[0] == "b" && Lines(s0)[1] == s2;
    assert !LexLessEq("b", "aa");
  }

  /** The length of the longest line. */
  function LongestLine(lines: seq<string>): (r: nat)
    ensures forall line | line in lines :: |line| <= r
    ensures lines != [] ==> exists line | line in lines :: |line| == r
    decreases |lines|
  {
    if lines == [] then 0
    else
      var m := LongestLine(lines[..|lines| - 1]);
      assert forall line | line in lines :: line in lines[..|lines| - 1] || line == lines[|lines| - 1];
      Max(m, |lines[|lines| - 1]|)
  }

  /** `get_buffer_dimensions` as evidently intended: (longest line length, line count). */
  function BufferDimensions(buffer: string): (r: Option<(nat, nat)>)
    ensures r.None? <==> Lines(buffer) == []
    ensures r.Some? ==> r.value.1 == |Lines(buffer)|
    ensures r.Some? ==> forall line | line in Lines(buffer) :: |line| <= r.value.0
  {
    var lines := Lines(buffer);
    if lines == [] then None else Some((LongestLine(lines), |lines|))
  }

  /** The cell a buffer character becomes: only '#' blocks, and blocks sight. */
  function CellFor(glyph: char): (c: Cell)
    ensures c.glyph == glyph
    ensures c.blocked <==> glyph == '#'
    ensures c.blockSight <==> glyph == '#'
  {
    if glyph == '#' then Cell(glyph, true, true) else Cell(glyph, false, false)
  }

  /** The j-th character of a line, or the ' ' that `unwrap_or` pads with. */
  function GlyphAt(line: string, j: nat): char {
    if j < |line| then line[j] else ' '
  }

  /** The cells of one line: exactly `width` of them. */
  function RowCells(line: string, width: nat): (r: seq<Cell>)
    ensures |r| == width
  {
    seq(width, j requires 0 <= j < width => CellFor(GlyphAt(line, j)))
  }

  /** The cells of all lines, row after row. */
  function BufferCells(lines: seq<string>, width: nat): seq<Cell>
    decreases |lines|
  {
    if lines == [] then [] else BufferCells(lines[..|lines| - 1], width) + RowCells(lines[|lines| - 1], width)
  }

  /** Every line contributes exactly `width` cells. */
  lemma {:induction false} BufferCellsLength(lines: seq<string>, width: nat)
    ensures |BufferCells(lines, width)| == |lines| * width
    decreases |lines|
  {
    if lines != [] {
      BufferCellsLength(lines[..|lines| - 1], width);
      assert (|lines| - 1) * width + width == |lines| * width;
    }
  }

  /** The cell at row r, column j comes from the j-th character of line r, padded with ' '. */
  lemma {:induction false} BufferCellsAt(lines: seq<string>, width: nat, r: nat, j: nat)
    requires r < |lines| && j < width
    ensures r * width + j < |BufferCells(lines, width)|
    ensures BufferCells(lines, width)[r * width + j] == CellFor(GlyphAt(lines[r], j))
    decreases |lines|
  {
    var prefix := lines[..|lines| - 1];
    BufferCellsLength(prefix, width);
    BufferCellsLength(lines, width);
    if r < |lines| - 1 {
      BufferCellsAt(prefix, width, r, j);
      MulAtLeast(|lines| - 1 - r, width);
      assert (|lines| - 1 - r) * width == (|lines| - 1) * width - r * width;
    } else {
      assert r * width + j == |prefix| * width + j;
    }
  }

  /**
   * With the intended width (the longest line), reading a buffer keeps
   * every character of every line at its row and column.
   */
  lemma IntendedWidthKeepsEveryCharacter(lines: seq<string>, r: nat, j: nat)
    requires r < |lines| && j < |lines[r]|
    ensures r * LongestLine(lines) + j < |BufferCells(lines, LongestLine(lines))|
    ensures BufferCells(lines, LongestLine(lines))[r * LongestLine(lines) + j].glyph == lines[r][j]
  {
    assert lines[r] in lines;
    BufferCellsAt(lines, LongestLine(lines), r, j);
  }

  /** `create_cells_from_buffer`: `width` cells per line, line by line; the height is unused. */
  method CreateCellsFromBuffer(buffer: string, width: nat, height: nat) returns (cells: seq<Cell>)
    ensures cells == BufferCells(Lines(buffer), width)
  {
    var lines := Lines(buffer);
    cells := [];
    var r := 0;
    while r < |lines|
      invariant 0 <= r <= |lines|
      invariant cells == BufferCells(lines[..r], width)
    {
      var line := lines[r];
      ghost var before := cells;
      var j := 0;
      while j < width
        invariant 0 <= j <= width
        invariant cells == before + RowCells(line, width)[..j]
      {
        var glyph := if j < |line| then line[j] else ' ';
        if glyph == '#' {
          cells := cells + [Cell(glyph, true, true)];
        } else {
          cells := cells + [Cell(glyph, false, false)];
        }
        assert RowCells(line, width)[..j + 1] == RowCells(line, width)[..j] + [CellFor(GlyphAt(line, j))];
        j := j + 1;
      }
      assert lines[..r + 1][..r] == lines[..r];
      assert RowCells(line, width)[..width] == RowCells(line, width);
      r := r + 1;
    }
    assert lines[..r] == lines;
  }

  /** An arena node: links to relatives by index, and a payload. */
  datatype Node<T> = Node(
    parent: Option<nat>, previousSibling: Option<nat>, nextSibling: Option<nat>,
    firstChild: Option<nat>, lastChild: Option<nat>, data: T)

  /** The outcome of a leaf search: the leaves, an index panic, or recursion deeper than the fuel. */
  datatype LeafSearch = Leaves(ids: seq<nat>) | IndexPanic | OutOfFuel

  /**
   * `get_all_leaf_nodes`: a node without a first child is its own leaf;
   * otherwise the search descends into the first child. The branch for the
   * last child sits behind `else` of a first child that is present, so it is
   * never taken. `fuel` bounds the recursion depth.
   */
  function LeafNodes<T>(nodes: seq<Node<T>>, id: nat, fuel: nat): (r: LeafSearch)
    ensures r.Leaves? ==> |r.ids| == 1 && r.ids[0] < |nodes| && nodes[r.ids[0]].firstChild.None?
    decreases fuel
  {
    if id >= |nodes| then IndexPanic
    else if nodes[id].firstChild.None? then Leaves([id])
    else if fuel == 0 then OutOfFuel
    else LeafNodes(nodes, nodes[id].firstChild.value, fuel - 1)
  }

  /** The search never reads a last-child link: changing those links changes nothing. */
  lemma {:induction false} LeafNodesIgnoreLastChild<T>(nodes: seq<Node<T>>, other: seq<Node<T>>, id: nat, fuel: nat)
    requires |other| == |nodes|
    requires forall i | 0 <= i < |nodes| :: other[i].firstChild == nodes[i].firstChild
    ensures LeafNodes(other, id, fuel) == LeafNodes(nodes, id, fuel)
    decreases fuel
  {
    if id < |nodes| && nodes[id].firstChild.Some? && fuel > 0 {
      LeafNodesIgnoreLastChild(nodes, other, nodes[id].firstChild.value, fuel - 1);
    }
  }

  /** A node that is its own first child sends the search round forever: no fuel is enough. */
  lemma {:induction false} SelfChildNeverEnds<T>(nodes: seq<Node<T>>, id: nat, fuel: nat)
    requires id < |nodes| && nodes[id].firstChild == Some(id)
    ensures LeafNodes(nodes, id, fuel) == OutOfFuel
    decreases fuel
  {
    if fuel > 0 {
      SelfChildNeverEnds(nodes, id, fuel - 1);
    }
  }

  class Arena<T> {
    var nodes: seq<Node<T>>

    constructor ()
      ensures nodes == []
    {
      nodes := [];
    }

    /** `get`: the node at the index, if the index is in range. */
    function Get(id: nat): (r: Option<Node<T>>)
      reads this
      ensures r.Some? <==> id < |nodes|
      ensures r.Some? ==> r.value == nodes[id]
    {
      if id < |nodes| then Some(nodes[id]) else None
    }

    /** `new_node`: a node with no links, at the next index. */
    method NewNode(data: T) returns (id: nat)
      modifies this
      ensures id == |old(nodes)|
      ensures nodes == old(nodes) + [Node(None, None, None, None, None, data)]
      ensures Get(id) == Some(Node(None, None, None, None, None, data))
    {
      id := |nodes|;
      nodes := nodes + [Node(None, None, None, None, None, data)];
    }
  }
}
