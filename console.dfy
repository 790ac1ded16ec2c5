/**
 * The text console: a row-major buffer of character tiles, each with a
 * foreground and a background colour. A tile (x, y) is stored at index
 * `y * width + x`; nothing checks that x is below the width, so a rectangle
 * running past the right edge continues on the next row.
 */
module Consoles {
  import opened Common
  import Maps

  newtype u8 = n: int | 0 <= n < 256

  datatype Color = Color(red: u8, green: u8, blue: u8) {
    /** The first channel. */
    function X(): u8 {
      red
    }

    /** The second channel. */
    function Y(): u8 {
      green
    }

    /** The third channel. */
    function Z(): u8 {
      blue
    }
  }

  /** The three accessors give back the colour they were read from. */
  lemma ColorChannels(c: Color)
    ensures Color(c.X(), c.Y(), c.Z()) == c
  {
  }

  const DefaultForeground := Color(0xff, 0xff, 0xff)
  const DefaultBackground := Color(0x00, 0x00, 0x00)

  datatype Tile = Tile(ch: char, fg: Color, bg: Color)

  /** The buffer of a new console: `width * height` blank white-on-black tiles. */
  function Blank(width: nat, height: nat): (b: seq<Tile>)
    ensures |b| == width * height
  {
    seq(width * height, _ => Tile(' ', DefaultForeground, DefaultBackground))
  }

  /** `Option::unwrap_or`. */
  function UnwrapOr(o: Option<Color>, default: Color): Color {
    if o.Some? then o.value else default
  }

  /** One tile after `draw_rect`: the NUL character keeps the old character, a missing colour keeps the old colour. */
  function Drawn(t: Tile, ch: char, fg: Option<Color>, bg: Option<Color>): Tile {
    Tile(if ch == '\0' then t.ch else ch, UnwrapOr(fg, t.fg), UnwrapOr(bg, t.bg))
  }

  /** Drawing a tile twice with the same arguments is drawing it once. */
  lemma DrawnIdempotent(t: Tile, ch: char, fg: Option<Color>, bg: Option<Color>)
    ensures Drawn(Drawn(t, ch, fg, bg), ch, fg, bg) == Drawn(t, ch, fg, bg)
  {
  }

  /** Drawing NUL with no colours leaves a tile as it was; any other argument shows in the result. */
  lemma DrawnKeepsExactlyWhatIsMissing(t: Tile, ch: char, fg: Option<Color>, bg: Option<Color>)
    ensures Drawn(t, ch, fg, bg).ch == (if ch == '\0' then t.ch else ch)
    ensures fg.Some? ==> Drawn(t, ch, fg, bg).fg == fg.value
    ensures bg.Some? ==> Drawn(t, ch, fg, bg).bg == bg.value
    ensures ch == '\0' && fg.None? && bg.None? ==> Drawn(t, ch, fg, bg) == t
  {
  }

  /** Index `i` is a tile of row `y` with xlo <= x < xhi. */
  predicate InRow(i: int, width: nat, y: int, xlo: int, xhi: int) {
    exists x | xlo <= x < xhi :: Maps.At(i, width, x, y)
  }

  /** Index `i` is a tile (x, y) with xlo <= x < xhi and ylo <= y < yhi, counted row by row. */
  predicate InRows(i: int, width: nat, xlo: int, xhi: int, ylo: int, yhi: int) {
    exists y | ylo <= y < yhi :: InRow(i, width, y, xlo, xhi)
  }

  /** Widening a row range by its right end adds exactly that tile. */
  lemma InRowGrows(i: int, width: nat, y: int, xlo: int, x: int)
    requires xlo <= x
    ensures InRow(i, width, y, xlo, x + 1) <==> InRow(i, width, y, xlo, x) || Maps.At(i, width, x, y)
  {
    if InRow(i, width, y, xlo, x + 1) {
      var x' :| xlo <= x' < x + 1 && Maps.At(i, width, x', y);
      if x' < x {
        assert InRow(i, width, y, xlo, x);
      }
    }
  }

  /** Widening a rectangle by its bottom row adds exactly that row. */
  lemma InRowsGrows(i: int, width: nat, xlo: int, xhi: int, ylo: int, y: int)
    requires ylo <= y
    ensures InRows(i, width, xlo, xhi, ylo, y + 1) <==> InRows(i, width, xlo, xhi, ylo, y) || InRow(i, width, y, xlo, xhi)
  {
    if InRows(i, width, xlo, xhi, ylo, y + 1) {
      var y' :| ylo <= y' < y + 1 && InRow(i, width, y', xlo, xhi);
      if y' < y {
        assert InRows(i, width, xlo, xhi, ylo, y);
      }
    }
  }

  /** The buffer after `draw_rect` over columns x .. x + w and rows y .. y + h. */
  function DrawnRect(buffer: seq<Tile>, width: nat, x: nat, y: nat, h: nat, w: nat,
                     ch: char, fg: Option<Color>, bg: Option<Color>): (r: seq<Tile>)
    ensures |r| == |buffer|
  {
    seq(|buffer|, i requires 0 <= i < |buffer| =>
      if InRows(i, width, x, x + w, y, y + h) then Drawn(buffer[i], ch, fg, bg) else buffer[i])
  }

  /**
   * For a rectangle within the console width, the tile (cx, cy) is drawn
   * exactly when it lies inside the rectangle; every other tile is kept.
   */
  lemma DrawnRectAt(buffer: seq<Tile>, width: nat, x: nat, y: nat, h: nat, w: nat,
                    ch: char, fg: Option<Color>, bg: Option<Color>, cx: nat, cy: nat)
    requires x + w <= width && cx < width && Maps.CellIndex(width, cx, cy) < |buffer|
    ensures var i := Maps.CellIndex(width, cx, cy);
      DrawnRect(buffer, width, x, y, h, w, ch, fg, bg)[i] ==
        if x <= cx < x + w && y <= cy < y + h then Drawn(buffer[i], ch, fg, bg) else buffer[i]
  {
    var i := Maps.CellIndex(width, cx, cy);
    if InRows(i, width, x, x + w, y, y + h) {
      var y' :| y <= y' < y + h && InRow(i, width, y', x, x + w);
      var x' :| x <= x' < x + w && Maps.At(i, width, x', y');
      Maps.CellIndexInjective(width, cx, cy, x', y');
    } else if x <= cx < x + w && y <= cy < y + h {
      assert Maps.At(i, width, cx, cy) && InRow(i, width, cy, x, x + w);
    }
  }

  /** Drawing NUL with no colours, anywhere, changes nothing. */
  lemma DrawNothingKeepsBuffer(buffer: seq<Tile>, width: nat, x: nat, y: nat, h: nat, w: nat)
    ensures DrawnRect(buffer, width, x, y, h, w, '\0', None, None) == buffer
  {
    forall i | 0 <= i < |buffer| ensures DrawnRect(buffer, width, x, y, h, w, '\0', None, None)[i] == buffer[i] {
      DrawnKeepsExactlyWhatIsMissing(buffer[i], '\0', None, None);
    }
  }

  /**
   * The rows above `row`, and row `row` up to column `col`, are drawn;
   * every other tile is as in `b0`.
   */
  predicate DrawnBefore(b0: seq<Tile>, buffer: seq<Tile>, width: nat, x: nat, y: nat, w: nat,
                        ch: char, fg: Option<Color>, bg: Option<Color>, row: int, col: int)
    requires |buffer| == |b0|
  {
    forall i | 0 <= i < |b0| ::
      buffer[i] == if InRows(i, width, x, x + w, y, row) || InRow(i, width, row, x, col)
        then Drawn(b0[i], ch, fg, bg) else b0[i]
  }

  /** Drawing the tile (col, row) extends the drawn part by that tile, whether or not an earlier tile shared its index. */
  lemma DrawStep(b0: seq<Tile>, buffer: seq<Tile>, width: nat, x: nat, y: nat, w: nat,
                 ch: char, fg: Option<Color>, bg: Option<Color>, row: int, col: int)
    requires |buffer| == |b0| && x <= col && 0 <= Maps.CellIndex(width, col, row) < |b0|
    requires DrawnBefore(b0, buffer, width, x, y, w, ch, fg, bg, row, col)
    ensures var i := Maps.CellIndex(width, col, row);
      DrawnBefore(b0, buffer[i := Drawn(buffer[i], ch, fg, bg)], width, x, y, w, ch, fg, bg, row, col + 1)
  {
    var index := Maps.CellIndex(width, col, row);
    DrawnIdempotent(b0[index], ch, fg, bg);
    var buffer' := buffer[index := Drawn(buffer[index], ch, fg, bg)];
    forall i | 0 <= i < |b0|
      ensures buffer'[i] == if InRows(i, width, x, x + w, y, row) || InRow(i, width, row, x, col + 1)
        then Drawn(b0[i], ch, fg, bg) else b0[i]
    {
      InRowGrows(i, width, row, x, col);
    }
  }

  /** A finished row joins the rows above it. */
  lemma RowDrawn(b0: seq<Tile>, buffer: seq<Tile>, width: nat, x: nat, y: nat, w: nat,
                 ch: char, fg: Option<Color>, bg: Option<Color>, row: int)
    requires |buffer| == |b0| && y <= row
    requires DrawnBefore(b0, buffer, width, x, y, w, ch, fg, bg, row, x + w)
    ensures DrawnBefore(b0, buffer, width, x, y, w, ch, fg, bg, row + 1, x)
  {
    var next, xhi := row + 1, x + w;
    forall i | 0 <= i < |b0|
      ensures InRows(i, width, x, xhi, y, next) || InRow(i, width, next, x, x) <==>
        InRows(i, width, x, xhi, y, row) || InRow(i, width, row, x, xhi)
    {
      InRowsGrows(i, width, x, xhi, y, row);
    }
  }

  class Console {
    var width: nat
    var height: nat
    var buffer: seq<Tile>

    /** `Console::new`: `width * height` tiles holding ' ' in white on black. */
    constructor (width: nat, height: nat)
      ensures this.width == width && this.height == height
      ensures buffer == Blank(width, height)
    {
      this.width := width;
      this.height := height;
      buffer := Blank(width, height);
    }

    /** `clear`: every tile becomes (ch, fg, bg); the buffer keeps its length. */
    method Clear(ch: char, fg: Color, bg: Color)
      modifies this
      ensures width == old(width) && height == old(height)
      ensures |buffer| == |old(buffer)| && forall i | 0 <= i < |buffer| :: buffer[i] == Tile(ch, fg, bg)
    {
      buffer := seq(|buffer|, _ => Tile(ch, fg, bg));
    }

    /**
     * `draw_rect`, whose parameters give the height before the width: the
     * tiles of rows y .. y + h, columns x .. x + w are redrawn row by row.
     * An index past the end of the buffer panics.
     */
    method DrawRect(x: nat, y: nat, h: nat, w: nat, ch: char, fg: Option<Color>, bg: Option<Color>)
      requires Maps.RectFits(|buffer|, width, x, x + w, y, y + h)
      modifies this
      ensures width == old(width) && height == old(height)
      ensures buffer == DrawnRect(old(buffer), width, x, y, h, w, ch, fg, bg)
    {
      ghost var b0 := buffer;
      var row := y;
      while row < y + h
        invariant y <= row && (row <= y + h || row == y)
        invariant width == old(width) && height == old(height)
        invariant |buffer| == |b0| && DrawnBefore(b0, buffer, width, x, y, w, ch, fg, bg, row, x)
      {
        DrawRow(x, y, h, w, ch, fg, bg, row, b0);
        row := row + 1;
      }
      forall i | 0 <= i < |b0| ensures !InRow(i, width, row, x, x) && (row != y + h ==> !InRows(i, width, x, x + w, y, y + h)) {
      }
    }

    /** One row of `draw_rect`. */
    method DrawRow(x: nat, y: nat, h: nat, w: nat, ch: char, fg: Option<Color>, bg: Option<Color>, row: nat, ghost b0: seq<Tile>)
      requires Maps.RectFits(|b0|, width, x, x + w, y, y + h) && y <= row < y + h
      requires |buffer| == |b0| && DrawnBefore(b0, buffer, width, x, y, w, ch, fg, bg, row, x)
      modifies this
      ensures width == old(width) && height == old(height)
      ensures |buffer| == |b0| && DrawnBefore(b0, buffer, width, x, y, w, ch, fg, bg, row + 1, x)
    {
      var col := x;
      while col < x + w
        invariant x <= col <= x + w
        invariant width == old(width) && height == old(height)
        invariant |buffer| == |b0| && DrawnBefore(b0, buffer, width, x, y, w, ch, fg, bg, row, col)
      {
        Maps.RectIndexInBounds(|b0|, width, x, x + w, y, y + h, col, row);
        var index := row * width + col;
        var current := buffer[index];
        var newCh := if ch == '\0' then current.ch else ch;
        var newTile := Tile(newCh, UnwrapOr(fg, current.fg), UnwrapOr(bg, current.bg));
        DrawStep(b0, buffer, width, x, y, w, ch, fg, bg, row, col);
        buffer := buffer[index := newTile];
        col := col + 1;
      }
      RowDrawn(b0, buffer, width, x, y, w, ch, fg, bg, row);
    }

    /** `print` has an empty body: the console is left alone. */
    method Print(x: nat, y: nat, line: string, fg: Option<Color>, bg: Option<Color>)
      ensures unchanged(this)
    {
    }

    /** `put_char`: only the character of the tile at `y * width + x` changes; its colours stay. */
    method PutChar(x: nat, y: nat, ch: char)
      requires Maps.CellIndex(width, x, y) < |buffer|
      modifies this
      ensures width == old(width) && height == old(height)
      ensures var i := Maps.CellIndex(width, x, y);
        buffer == old(buffer)[i := Tile(ch, old(buffer)[i].fg, old(buffer)[i].bg)]
    {
      var index := y * width + x;
      buffer := buffer[index := buffer[index].(ch := ch)];
    }
  }

  /** `init_root`: a new console of the given size. */
  method InitRoot(width: nat, height: nat) returns (c: Console)
    ensures fresh(c) && c.width == width && c.height == height
    ensures c.buffer == Blank(width, height)
  {
    c := new Console(width, height);
  }
}
