/**
 * Map cells turned into tile entities, as `create_map` and
 * `create_map_entities` do it: one new entity per cell, row by row, each
 * with a map-layer Render of the cell's glyph and its Position, and
 * Collidable when the glyph is one of the solid ones.
 */
module MapTiles {
  import opened Common
  import K = Kinds
  import opened Components
  import opened Entities

  /** A cell to become a tile: its coordinates and glyph. */
  datatype Spot = Spot(x: int, y: int, glyph: char)

  /** Row y of a glyph grid as spots, x counting from 0. */
  function SpotRow(y: int, glyphs: seq<char>): (r: seq<Spot>)
    ensures |r| == |glyphs|
  {
    seq(|glyphs|, x requires 0 <= x < |glyphs| => Spot(x, y, glyphs[x]))
  }

  /** A glyph grid as spots, row j holding y coordinate j. */
  function SpotGrid(rows: seq<seq<char>>): (r: seq<seq<Spot>>)
    ensures |r| == |rows|
    ensures forall j | 0 <= j < |rows| :: |r[j]| == |rows[j]|
  {
    seq(|rows|, j requires 0 <= j < |rows| => SpotRow(j, rows[j]))
  }

  /** One tile entity: Render on the map layer, then Position, then Collidable when the glyph is solid. */
  function Tile(t: Tables, id: Entity, s: Spot, solid: set<char>): Tables {
    var t2 := Added(Added(t, id, Render(s.glyph, MapLayer)), id, Position(s.x, s.y));
    if s.glyph in solid then Added(t2, id, Collidable) else t2
  }

  /** What a tile for `s` holds under kind `k`; `before` is the entity's lookup before the tile. */
  function TileComponent(s: Spot, solid: set<char>, k: K.Kind, before: Option<Component>): Option<Component> {
    if k == K.Render then Some(Render(s.glyph, MapLayer))
    else if k == K.Position then Some(Position(s.x, s.y))
    else if k == K.Collidable && s.glyph in solid then Some(Collidable)
    else before
  }

  /** A tile sets its entity's Render and Position, and Collidable only for a solid glyph; nothing else changes. */
  lemma TileLookup(t: Tables, id: Entity, s: Spot, solid: set<char>, e: Entity, k: K.Kind)
    ensures GetComponentMut(Tile(t, id, s, solid), e, k) ==
      if e == id then TileComponent(s, solid, k, GetComponentMut(t, e, k)) else GetComponentMut(t, e, k)
  {
    var t1 := Added(t, id, Render(s.glyph, MapLayer));
    var t2 := Added(t1, id, Position(s.x, s.y));
    AddedLookup(t, id, Render(s.glyph, MapLayer), e, k);
    AddedLookup(t1, id, Position(s.x, s.y), e, k);
    AddedLookup(t2, id, Collidable, e, k);
  }

  /** `TileLookup` at every entity and kind. */
  lemma TileLookups(t: Tables, id: Entity, s: Spot, solid: set<char>)
    ensures forall e, k ::
      GetComponentMut(Tile(t, id, s, solid), e, k) ==
      if e == id then TileComponent(s, solid, k, GetComponentMut(t, e, k)) else GetComponentMut(t, e, k)
  {
    forall e, k
      ensures GetComponentMut(Tile(t, id, s, solid), e, k) ==
        if e == id then TileComponent(s, solid, k, GetComponentMut(t, e, k)) else GetComponentMut(t, e, k)
    {
      TileLookup(t, id, s, solid, e, k);
    }
  }

  /**
   * `t` is `t0` with the tiles for the first n of `spots` placed, the k-th
   * on entity first + k: each such entity holds its spot's Render and
   * Position, and Collidable when the glyph is solid; every other lookup is
   * as in `t0`.
   */
  ghost predicate TilesPlaced(t0: Tables, t: Tables, first: Entity, spots: seq<Spot>, n: nat, solid: set<char>)
    requires n <= |spots|
  {
    forall e, k :: GetComponentMut(t, e, k) ==
      if first <= e < first + n then TileComponent(spots[e - first], solid, k, GetComponentMut(t0, e, k))
      else GetComponentMut(t0, e, k)
  }

  /** `TilesPlaced` read at one entity and kind. */
  lemma TilesPlacedAt(t0: Tables, t: Tables, first: Entity, spots: seq<Spot>, n: nat, solid: set<char>, e: Entity, k: K.Kind)
    requires n <= |spots| && TilesPlaced(t0, t, first, spots, n, solid)
    ensures first <= e < first + n ==> GetComponentMut(t, e, k) == TileComponent(spots[e - first], solid, k, GetComponentMut(t0, e, k))
    ensures !(first <= e < first + n) ==> GetComponentMut(t, e, k) == GetComponentMut(t0, e, k)
  {
  }

  /** No tile placed yet. */
  lemma NoTilesPlaced(t0: Tables, first: Entity, spots: seq<Spot>, solid: set<char>)
    ensures TilesPlaced(t0, t0, first, spots, 0, solid)
  {
  }

  /** Placing the tile for spot n on entity first + n extends the placed run by one. */
  lemma TilePlaced(t0: Tables, t: Tables, first: Entity, spots: seq<Spot>, n: nat, solid: set<char>, t': Tables)
    requires n < |spots| && TilesPlaced(t0, t, first, spots, n, solid)
    requires forall e, k ::
      GetComponentMut(t', e, k) ==
      if e == first + n then TileComponent(spots[n], solid, k, GetComponentMut(t, e, k)) else GetComponentMut(t, e, k)
    ensures TilesPlaced(t0, t', first, spots, n + 1, solid)
  {
    forall e, k
      ensures GetComponentMut(t', e, k) ==
        if first <= e < first + n + 1 then TileComponent(spots[e - first], solid, k, GetComponentMut(t0, e, k))
        else GetComponentMut(t0, e, k)
    {
      TilesPlacedAt(t0, t, first, spots, n, solid, e, k);
      TilePlacedOne(t0, t, first, spots, n, solid, t', e, k);
    }
  }

  /** `TilePlaced` at one entity and kind, from the lookups before and after the tile. */
  lemma TilePlacedOne(t0: Tables, t: Tables, first: Entity, spots: seq<Spot>, n: nat, solid: set<char>, t': Tables, e: Entity, k: K.Kind)
    requires n < |spots|
    requires first <= e < first + n ==> GetComponentMut(t, e, k) == TileComponent(spots[e - first], solid, k, GetComponentMut(t0, e, k))
    requires !(first <= e < first + n) ==> GetComponentMut(t, e, k) == GetComponentMut(t0, e, k)
    requires GetComponentMut(t', e, k) ==
      if e == first + n then TileComponent(spots[n], solid, k, GetComponentMut(t, e, k)) else GetComponentMut(t, e, k)
    ensures GetComponentMut(t', e, k) ==
      if first <= e < first + n + 1 then TileComponent(spots[e - first], solid, k, GetComponentMut(t0, e, k))
      else GetComponentMut(t0, e, k)
  {
    if e == first + n {
      assert spots[e - first] == spots[n];
    }
  }

  /** The body of the tile loops: a new entity, its Render and Position, and Collidable for a solid glyph. */
  method PlaceTile(em: EntityManager, s: Spot, solid: set<char>) returns (tile: Entity)
    requires em.Valid()
    modifies em
    ensures em.Valid()
    ensures tile == |old(em.entities)| && em.entities == old(em.entities) + [tile]
    ensures em.tables == Tile(old(em.tables), tile, s, solid)
    ensures em.names == old(em.names)
  {
    tile := em.CreateEntity();
    em.AddComponent(tile, Render(s.glyph, MapLayer));
    em.AddComponent(tile, Position(s.x, s.y));
    if s.glyph in solid {
      em.AddComponent(tile, Collidable);
    }
  }

  /** A rectangular glyph grid has one spot per cell. */
  lemma GridSpotsLength(rows: seq<seq<char>>, width: nat)
    requires Rectangular(rows, width)
    ensures |Flatten(SpotGrid(rows))| == |rows| * width
  {
    assert Rectangular(SpotGrid(rows), width);
    FlattenLength(SpotGrid(rows), width);
  }

  /** Spot j * width + c of a rectangular grid is the cell at column c of row j. */
  lemma GridSpotAt(rows: seq<seq<char>>, width: nat, j: nat, c: nat)
    requires Rectangular(rows, width) && j < |rows| && c < width
    ensures j * width + c < |Flatten(SpotGrid(rows))|
    ensures Flatten(SpotGrid(rows))[j * width + c] == Spot(c, j, rows[j][c])
  {
    var grid := SpotGrid(rows);
    assert Rectangular(grid, width);
    FlattenAt(grid, width, j, c);
  }

  /**
   * The cell-level meaning of the tiles for a rectangular glyph grid placed
   * row by row: the tile of row j, column c is entity first + j * width + c,
   * at (c, j), showing the glyph there, and Collidable when it is solid.
   */
  lemma GridTileLookup(t0: Tables, t: Tables, first: Entity, rows: seq<seq<char>>, width: nat, solid: set<char>, j: nat, c: nat, k: K.Kind)
    requires Rectangular(rows, width) && j < |rows| && c < width
    requires |rows| * width <= |Flatten(SpotGrid(rows))|
    requires TilesPlaced(t0, t, first, Flatten(SpotGrid(rows)), |rows| * width, solid)
    ensures var e := first + j * width + c;
      GetComponentMut(t, e, k) == TileComponent(Spot(c, j, rows[j][c]), solid, k, GetComponentMut(t0, e, k))
  {
    var spots := Flatten(SpotGrid(rows));
    GridSpotAt(rows, width, j, c);
    GridSpotsLength(rows, width);
    var i := j * width + c;
    assert i < |rows| * width;
    var e := first + j * width + c;
    assert e - first == i;
    TilesPlacedAt(t0, t, first, spots, |rows| * width, solid, e, k);
  }
}
