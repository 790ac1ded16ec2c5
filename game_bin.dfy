/**
 * The game binary: the `Game` object that reads its arguments, registers
 * the systems in their fixed order, loads the map tiles, the player and the
 * monsters into the store, and then runs frames of input and update until
 * a quit key arrives.
 *
 * The map comes from a random generator, and the room centres from
 * `Room::center`; both are parameters here. The key a frame receives from
 * the input thread is a parameter too.
 */
module GameBin {
  import opened Common
  import K = Kinds
  import opened Components
  import opened Entities
  import opened MapTiles
  import Maps
  import opened SystemManagement
  import ChronosSystem
  import InputBroadcast
  import Spawners

  /** The registration order of `register_game_systems`. */
  const GameSystems: seq<SystemId> := [
    Chronos, TurnSystem, RandomWalkAiSystem, WalkSystem, CollisionSystem, AttackSystem,
    DamageSystem, MoveSystem, LootSystem, EventLogSystem, Reaper, Janitor]

  /** The key code that quits the game ('q'). */
  const QuitKey := 113

  /** The glyphs that make a map tile Collidable in `create_map_entities`. */
  const TileSolid: set<char> := {'-', '|', '#'}

  // Arguments

  /** `args.iter().any(|arg| arg == flag)`, scanning from the front. */
  function AnyArg(args: seq<string>, flag: string): bool
    decreases |args|
  {
    if args == [] then false else args[0] == flag || AnyArg(args[1..], flag)
  }

  /** The scan finds the flag exactly when it is one of the arguments. */
  lemma {:induction false} AnyArgIsMember(args: seq<string>, flag: string)
    ensures AnyArg(args, flag) <==> flag in args
    decreases |args|
  {
    if args != [] {
      AnyArgIsMember(args[1..], flag);
      assert args == [args[0]] + args[1..];
    }
  }

  // System order

  /**
   * Every frame calls Loot's `process` before Reaper's, so a dead entity
   * still has its Position when its loot is dropped; Damage runs before
   * both, and Janitor runs last.
   */
  lemma ProcessOrder()
    ensures var calls := HookCalls(ProcessHook, GameSystems);
      |calls| == 12 && calls[6] == (ProcessHook, DamageSystem) &&
      calls[8] == (ProcessHook, LootSystem) && calls[10] == (ProcessHook, Reaper) &&
      calls[11] == (ProcessHook, Janitor)
    ensures forall i | 0 <= i < 12 :: GameSystems[i] == LootSystem <==> i == 8
    ensures forall i | 0 <= i < 12 :: GameSystems[i] == Reaper <==> i == 10
  {
  }

  /**
   * Mounting the game's systems on a manager that had no Chronos is one
   * Chronos mount: exactly one entity, the next id, with a GameTime
   * component and the name "GameTime".
   */
  lemma GameMount(pre: seq<SystemId>, s: Store)
    requires Chronos !in pre
    ensures MountAll(pre + GameSystems, s) == Mounted(Chronos, s)
  {
    MountAllAppend(pre, GameSystems, s);
    MountAllWithoutChronos(pre, s);
    var rest := GameSystems[1..];
    assert GameSystems == [Chronos] + rest;
    assert Chronos !in rest;
    OneChronosMounts(rest, s);
  }

  // Map tiles

  /** The glyph of the cell at (x, y) of a cell vector `width` wide; a space past its end. */
  function GlyphAt(cells: seq<Maps.Cell>, width: nat, x: int, y: int): char {
    var i := Maps.CellIndex(width, x, y);
    if 0 <= i < |cells| then cells[i].glyph else ' '
  }

  /** The glyphs of a width x height cell vector, row by row. */
  function GlyphRows(cells: seq<Maps.Cell>, width: nat, height: nat): (rows: seq<seq<char>>)
    ensures |rows| == height && Rectangular(rows, width)
  {
    seq(height, j => seq(width, i => GlyphAt(cells, width, i, j)))
  }

  /** The cells of a map as spots, row by row: the order `create_map_entities` visits them. */
  function CellSpots(cells: seq<Maps.Cell>, width: nat, height: nat): (spots: seq<Spot>)
    ensures |spots| == width * height
  {
    GridSpotsLength(GlyphRows(cells, width, height), width);
    Flatten(SpotGrid(GlyphRows(cells, width, height)))
  }

  /** Spot number `y * width + x` is the cell at (x, y) with its glyph. */
  lemma CellSpotAt(cells: seq<Maps.Cell>, width: nat, height: nat, x: nat, y: nat)
    requires |cells| == width * height && x < width && y < height
    ensures y * width + x < |CellSpots(cells, width, height)|
    ensures CellSpots(cells, width, height)[y * width + x] == Spot(x, y, cells[Maps.CellIndex(width, x, y)].glyph)
  {
    var rows := GlyphRows(cells, width, height);
    GridSpotAt(rows, width, y, x);
    assert rows[y][x] == GlyphAt(cells, width, x, y);
  }

  /**
   * The body of `create_map_entities`' loops for cell (x, y): a new entity,
   * the glyph read with `get_cell_ref`, and the tile components. `next`
   * counts the cells already visited.
   */
  method PlaceCellTile(m: Maps.Map, em: EntityManager, x: nat, y: nat, ghost next: nat, ghost e0: seq<Entity>, ghost t0: Tables)
    requires |m.cells| == m.width * m.height && x < m.width && y < m.height
    requires next == y * m.width + x && next < m.width * m.height
    requires em.Valid() && em.entities == e0 + Ids(|e0|, next)
    requires TilesPlaced(t0, em.tables, |e0|, CellSpots(m.cells, m.width, m.height), next, TileSolid)
    modifies em
    ensures em.Valid() && em.names == old(em.names)
    ensures em.entities == e0 + Ids(|e0|, next + 1)
    ensures TilesPlaced(t0, em.tables, |e0|, CellSpots(m.cells, m.width, m.height), next + 1, TileSolid)
  {
    var cell := m.GetCellRef(x, y);
    var glyph := cell.glyph;
    ghost var spots := CellSpots(m.cells, m.width, m.height);
    CellSpotAt(m.cells, m.width, m.height, x, y);
    ghost var before := em.tables;
    var tile := PlaceTile(em, Spot(x, y, glyph), TileSolid);
    TileLookups(before, tile, Spot(x, y, glyph), TileSolid);
    TilePlaced(t0, before, |e0|, spots, next, TileSolid, em.tables);
    IdsSnoc(e0, next);
  }

  /**
   * `create_map_entities`: one new entity per map cell, row by row, with a
   * map-layer Render of the cell's glyph, its Position, and Collidable for
   * '-', '|' and '#'. A cell vector shorter than width * height would make
   * `get_cell_ref` panic; every `Map` has exactly that many cells.
   */
  method CreateMapEntities(m: Maps.Map, em: EntityManager)
    requires em.Valid() && |m.cells| == m.width * m.height
    modifies em
    ensures em.Valid() && em.names == old(em.names)
    ensures em.entities == old(em.entities) + Ids(|old(em.entities)|, m.width * m.height)
    ensures TilesPlaced(old(em.tables), em.tables, |old(em.entities)|,
      CellSpots(m.cells, m.width, m.height), m.width * m.height, TileSolid)
  {
    ghost var e0 := em.entities;
    ghost var t0 := em.tables;
    ghost var spots := CellSpots(m.cells, m.width, m.height);
    NoTilesPlaced(t0, |e0|, spots, TileSolid);
    ghost var next := 0;
    var y := 0;
    while y < m.height
      invariant 0 <= y <= m.height && next == y * m.width && next <= m.width * m.height
      invariant em.Valid() && em.names == old(em.names)
      invariant em.entities == e0 + Ids(|e0|, next)
      invariant TilesPlaced(t0, em.tables, |e0|, spots, next, TileSolid)
    {
      var x := 0;
      while x < m.width
        invariant 0 <= x <= m.width && next == y * m.width + x && next <= m.width * m.height
        invariant em.Valid() && em.names == old(em.names)
        invariant em.entities == e0 + Ids(|e0|, next)
        invariant TilesPlaced(t0, em.tables, |e0|, spots, next, TileSolid)
      {
        CellCountBound(m.width, m.height, x + 1, y);
        PlaceCellTile(m, em, x, y, next, e0, t0);
        next := next + 1;
        x := x + 1;
      }
      assert (y + 1) * m.width == y * m.width + m.width;
      if y + 1 < m.height {
        CellCountBound(m.width, m.height, 0, y + 1);
      }
      y := y + 1;
    }
  }

  /** Cell x of row y, counting from 0 row by row, is within the grid. */
  lemma CellCountBound(width: nat, height: nat, x: nat, y: nat)
    requires y < height && x <= width
    ensures y * width + x <= width * height
  {
    assert y * width + x <= (y + 1) * width;
    assert (y + 1) * width <= height * width;
  }

  /**
   * After `create_map_entities`, the tile for column c of row j is entity
   * first + j * width + c: at (c, j), showing that cell's glyph on the map
   * layer, Collidable when the glyph is '-', '|' or '#', and with every
   * other kind as before.
   */
  lemma MapEntityAt(t0: Tables, t: Tables, first: Entity, cells: seq<Maps.Cell>, width: nat, height: nat, j: nat, c: nat, k: K.Kind)
    requires |cells| == width * height && j < height && c < width
    requires TilesPlaced(t0, t, first, CellSpots(cells, width, height), width * height, TileSolid)
    ensures 0 <= Maps.CellIndex(width, c, j) < |cells|
    ensures var e := first + j * width + c;
      var glyph := cells[Maps.CellIndex(width, c, j)].glyph;
      GetComponentMut(t, e, k) ==
        if k == K.Position then Some(Position(c, j))
        else if k == K.Render then Some(Render(glyph, MapLayer))
        else if k == K.Collidable && (glyph == '-' || glyph == '|' || glyph == '#') then Some(Collidable)
        else GetComponentMut(t0, e, k)
  {
    var rows := GlyphRows(cells, width, height);
    GridSpotsLength(rows, width);
    GridSpotAt(rows, width, j, c);
    GridTileLookup(t0, t, first, rows, width, TileSolid, j, c, k);
  }

  // The player

  /** Component i of the eleven `create_player` builds, in the order they are added. */
  function PlayerComponent(i: int, name: string, x: int, y: int): Component {
    if i == 0 then Player
    else if i == 1 then Name(name)
    else if i == 2 then Input(0)
    else if i == 3 then Render('@', PlayerLayer)
    else if i == 4 then Position(x, y)
    else if i == 5 then Collidable
    else if i == 6 then Health(100, 100)
    else if i == 7 then Walk(0, 0)
    else if i == 8 then Log([])
    else if i == 9 then Energy(0)
    else Speed(10)
  }

  /** `create_player`: the player's components, in the order they are added. */
  function PlayerComponents(name: string, x: int, y: int): seq<Component> {
    seq(11, i => PlayerComponent(i, name, x, y))
  }

  /**
   * The player starts with full Health 100/100, no Energy, Speed 10, and
   * at its position: each of these kinds is added once.
   */
  lemma PlayerStarts(name: string, x: int, y: int)
    ensures var cs := PlayerComponents(name, x, y);
      LastOfKind(cs, K.Health) == Some(Health(100, 100)) &&
      LastOfKind(cs, K.Energy) == Some(Energy(0)) &&
      LastOfKind(cs, K.Speed) == Some(Speed(10)) &&
      LastOfKind(cs, K.Position) == Some(Position(x, y))
  {
    var cs := PlayerComponents(name, x, y);
    assert LastOfKind(cs, K.Health) == Some(Health(100, 100)) by { LastOfKindAt(cs, 6, K.Health); }
    assert LastOfKind(cs, K.Energy) == Some(Energy(0)) by { LastOfKindAt(cs, 9, K.Energy); }
    assert LastOfKind(cs, K.Speed) == Some(Speed(10)) by { LastOfKindAt(cs, 10, K.Speed); }
    assert LastOfKind(cs, K.Position) == Some(Position(x, y)) by { LastOfKindAt(cs, 4, K.Position); }
  }

  /**
   * The player is the Player, carries its name, reads input (0 so far) and
   * shows '@' on the player layer; it starts without Turn, Damage or
   * Prototype.
   */
  lemma PlayerIdentity(name: string, x: int, y: int)
    ensures var cs := PlayerComponents(name, x, y);
      LastOfKind(cs, K.Name) == Some(Name(name)) &&
      LastOfKind(cs, K.Render) == Some(Render('@', PlayerLayer)) &&
      LastOfKind(cs, K.Input) == Some(Input(0)) &&
      LastOfKind(cs, K.Player) == Some(Player) &&
      LastOfKind(cs, K.Turn).None? && LastOfKind(cs, K.Damage).None? && LastOfKind(cs, K.Prototype).None?
  {
    var cs := PlayerComponents(name, x, y);
    assert LastOfKind(cs, K.Name) == Some(Name(name)) by { LastOfKindAt(cs, 1, K.Name); }
    assert LastOfKind(cs, K.Render) == Some(Render('@', PlayerLayer)) by { LastOfKindAt(cs, 3, K.Render); }
    assert LastOfKind(cs, K.Input) == Some(Input(0)) by { LastOfKindAt(cs, 2, K.Input); }
    assert LastOfKind(cs, K.Player) == Some(Player) by { LastOfKindAt(cs, 0, K.Player); }
    assert LastOfKind(cs, K.Turn).None? by { LastOfKindNone(cs, K.Turn); }
    assert LastOfKind(cs, K.Damage).None? by { LastOfKindNone(cs, K.Damage); }
    assert LastOfKind(cs, K.Prototype).None? by { LastOfKindNone(cs, K.Prototype); }
  }

  /** The loop of `load_game_entities` that adds each of `cs` to `e`, in order. */
  method AddComponents(em: EntityManager, e: Entity, cs: seq<Component>)
    requires em.Valid()
    modifies em
    ensures em.Valid() && em.names == old(em.names) && em.entities == old(em.entities)
    ensures em.tables == AddAll(old(em.tables), e, cs)
  {
    ghost var t0 := em.tables;
    var i := 0;
    while i < |cs|
      invariant 0 <= i <= |cs|
      invariant em.Valid() && em.names == old(em.names) && em.entities == old(em.entities)
      invariant em.tables == AddAll(t0, e, cs[..i])
    {
      ghost var before := em.tables;
      em.AddComponent(e, cs[i]);
      AddAllPrefixStep(t0, e, cs, i, before, em.tables);
      i := i + 1;
    }
    assert cs[..i] == cs;
  }

  /** Loading the player: a new entity, then each of its components added in turn. */
  method SpawnPlayer(em: EntityManager, name: string, x: int, y: int) returns (player: Entity)
    requires em.Valid()
    modifies em
    ensures em.Valid() && em.names == old(em.names)
    ensures player == |old(em.entities)| && em.entities == old(em.entities) + [player]
    ensures em.tables == AddAll(old(em.tables), player, PlayerComponents(name, x, y))
  {
    var components := PlayerComponents(name, x, y);
    player := em.CreateEntity();
    AddComponents(em, player, components);
  }

  // The monsters

  /**
   * The zombies for `centers[..n]` are placed in `t` over `t0`, with ids
   * from `first` on: entity first + i holds a zombie at centre i, and every
   * other entity is as in `t0`.
   */
  ghost predicate ZombiesPlaced(t0: Tables, t: Tables, first: Entity, centers: seq<(int, int)>, n: nat)
    requires n <= |centers|
  {
    forall e, k :: GetComponentMut(t, e, k) ==
      if first <= e < first + n then
        Spawners.ZombieComponent(centers[e - first].0, centers[e - first].1, k, GetComponentMut(t0, e, k))
      else GetComponentMut(t0, e, k)
  }

  /** `ZombiesPlaced` at one entity and kind. */
  lemma ZombiesPlacedAt(t0: Tables, t: Tables, first: Entity, centers: seq<(int, int)>, n: nat, e: Entity, k: K.Kind)
    requires n <= |centers| && ZombiesPlaced(t0, t, first, centers, n)
    ensures GetComponentMut(t, e, k) ==
      if first <= e < first + n then
        Spawners.ZombieComponent(centers[e - first].0, centers[e - first].1, k, GetComponentMut(t0, e, k))
      else GetComponentMut(t0, e, k)
  {
  }

  /** One more zombie, with the next id, extends the placed zombies by one. */
  lemma ZombiePlaced(t0: Tables, t: Tables, first: Entity, centers: seq<(int, int)>, n: nat, t': Tables)
    requires n < |centers| && ZombiesPlaced(t0, t, first, centers, n)
    requires forall e, k ::
      GetComponentMut(t', e, k) ==
        if e == first + n then Spawners.ZombieComponent(centers[n].0, centers[n].1, k, GetComponentMut(t, e, k))
        else GetComponentMut(t, e, k)
    ensures ZombiesPlaced(t0, t', first, centers, n + 1)
  {
    forall e, k
      ensures GetComponentMut(t', e, k) ==
        if first <= e < first + n + 1 then
          Spawners.ZombieComponent(centers[e - first].0, centers[e - first].1, k, GetComponentMut(t0, e, k))
        else GetComponentMut(t0, e, k)
    {
      ZombiesPlacedAt(t0, t, first, centers, n, e, k);
      if e == first + n {
        assert centers[e - first] == centers[n];
      }
    }
  }

  /** `create_zombie`, seen through the lookups: only the new entity changes. */
  method PlaceZombie(em: EntityManager, x: int, y: int) returns (zombie: Entity)
    requires em.Valid()
    modifies em
    ensures em.Valid() && em.names == old(em.names)
    ensures zombie == |old(em.entities)| && em.entities == old(em.entities) + [zombie]
    ensures forall e, k ::
      GetComponentMut(em.tables, e, k) ==
        if e == zombie then Spawners.ZombieComponent(x, y, k, GetComponentMut(old(em.tables), e, k))
        else GetComponentMut(old(em.tables), e, k)
  {
    ghost var before := em.tables;
    zombie := Spawners.CreateZombie(em, x, y);
    Spawners.ZombieLookups(before, zombie, x, y);
  }

  /** `populate_map`: a zombie at the centre of each room, in room order. */
  method PopulateMap(em: EntityManager, centers: seq<(int, int)>)
    requires em.Valid()
    modifies em
    ensures em.Valid() && em.names == old(em.names)
    ensures em.entities == old(em.entities) + Ids(|old(em.entities)|, |centers|)
    ensures ZombiesPlaced(old(em.tables), em.tables, |old(em.entities)|, centers, |centers|)
  {
    ghost var e0 := em.entities;
    ghost var t0 := em.tables;
    var i := 0;
    while i < |centers|
      invariant 0 <= i <= |centers|
      invariant em.Valid() && em.names == old(em.names)
      invariant em.entities == e0 + Ids(|e0|, i)
      invariant ZombiesPlaced(t0, em.tables, |e0|, centers, i)
    {
      var center := centers[i];
      ghost var before := em.tables;
      var zombie := PlaceZombie(em, center.0, center.1);
      ZombiePlaced(t0, before, |e0|, centers, i, em.tables);
      IdsSnoc(e0, i);
      i := i + 1;
    }
  }

  /** After `populate_map`, zombie i stands at centre i, with 10 hit points and a random walk. */
  lemma ZombieAt(t0: Tables, t: Tables, first: Entity, centers: seq<(int, int)>, i: nat)
    requires i < |centers| && ZombiesPlaced(t0, t, first, centers, |centers|)
    ensures GetComponentMut(t, first + i, K.Position) == Some(Position(centers[i].0, centers[i].1))
    ensures GetComponentMut(t, first + i, K.Health) == Some(Health(10, 10))
    ensures GetComponentMut(t, first + i, K.RandomWalkAi) == Some(RandomWalkAi)
  {
    ZombiesPlacedAt(t0, t, first, centers, |centers|, first + i, K.Position);
    ZombiesPlacedAt(t0, t, first, centers, |centers|, first + i, K.Health);
    ZombiesPlacedAt(t0, t, first, centers, |centers|, first + i, K.RandomWalkAi);
  }

  /**
   * `load_game_entities` on a generated map: the map tiles, then the player
   * "gromash" at the first room's centre, then a zombie per room. The first
   * room is unwrapped, so a map without rooms panics.
   */
  method LoadGameEntities(em: EntityManager, m: Maps.Map, centers: seq<(int, int)>) returns (player: Entity, ghost tiles: Tables)
    requires em.Valid() && |m.cells| == m.width * m.height
    requires |centers| == |m.rooms| && |m.rooms| > 0
    modifies em
    ensures em.Valid() && em.names == old(em.names)
    ensures player == |old(em.entities)| + |m.cells|
    ensures em.entities == old(em.entities) + Ids(|old(em.entities)|, |m.cells| + 1 + |centers|)
    ensures TilesPlaced(old(em.tables), tiles, |old(em.entities)|, CellSpots(m.cells, m.width, m.height), |m.cells|, TileSolid)
    ensures ZombiesPlaced(AddAll(tiles, player, PlayerComponents("gromash", centers[0].0, centers[0].1)), em.tables, player + 1, centers, |centers|)
  {
    ghost var e0 := em.entities;
    var playerPos := centers[0];
    ghost var n := |m.cells|;
    CreateMapEntities(m, em);
    tiles := em.tables;
    ghost var e1 := em.entities;
    player := PopulateWithPlayer(em, playerPos, centers);
    LoadedIds(e0, e1, em.entities, n, |centers|);
  }

  /** The player "gromash" at `playerPos`, then `populate_map`. */
  method PopulateWithPlayer(em: EntityManager, playerPos: (int, int), centers: seq<(int, int)>) returns (player: Entity)
    requires em.Valid()
    modifies em
    ensures em.Valid() && em.names == old(em.names)
    ensures player == |old(em.entities)|
    ensures em.entities == old(em.entities) + [player] + Ids(player + 1, |centers|)
    ensures ZombiesPlaced(AddAll(old(em.tables), player, PlayerComponents("gromash", playerPos.0, playerPos.1)),
      em.tables, player + 1, centers, |centers|)
  {
    player := SpawnPlayer(em, "gromash", playerPos.0, playerPos.1);
    PopulateMap(em, centers);
  }

  /** The ids of the tiles, the player and the zombies follow one another. */
  lemma LoadedIds(e0: seq<Entity>, e1: seq<Entity>, e2: seq<Entity>, tiles: nat, zombies: nat)
    requires e1 == e0 + Ids(|e0|, tiles)
    requires e2 == e1 + [|e1|] + Ids(|e1| + 1, zombies)
    ensures e2 == e0 + Ids(|e0|, tiles + 1 + zombies)
  {
    IdsAppend(|e0|, tiles, 1);
    IdsAppend(|e0|, tiles + 1, zombies);
    assert [|e0| + tiles] == Ids(|e0| + tiles, 1);
  }

  /**
   * After loading, the player holds its starting components whatever the
   * map and the zombies hold: Health 100/100, Energy 0 and Speed 10.
   */
  lemma LoadedPlayer(tiles: Tables, t: Tables, player: Entity, x: int, y: int, centers: seq<(int, int)>)
    requires ZombiesPlaced(AddAll(tiles, player, PlayerComponents("gromash", x, y)), t, player + 1, centers, |centers|)
    ensures GetComponentMut(t, player, K.Health) == Some(Health(100, 100))
    ensures GetComponentMut(t, player, K.Energy) == Some(Energy(0))
    ensures GetComponentMut(t, player, K.Speed) == Some(Speed(10))
    ensures GetComponentMut(t, player, K.Position) == Some(Position(x, y))
  {
    var cs := PlayerComponents("gromash", x, y);
    PlayerStarts("gromash", x, y);
    var withPlayer := AddAll(tiles, player, cs);
    ZombiesPlacedAt(withPlayer, t, player + 1, centers, |centers|, player, K.Health);
    ZombiesPlacedAt(withPlayer, t, player + 1, centers, |centers|, player, K.Energy);
    ZombiesPlacedAt(withPlayer, t, player + 1, centers, |centers|, player, K.Speed);
    ZombiesPlacedAt(withPlayer, t, player + 1, centers, |centers|, player, K.Position);
    AddAllLookup(tiles, player, cs, player, K.Health);
    AddAllLookup(tiles, player, cs, player, K.Energy);
    AddAllLookup(tiles, player, cs, player, K.Speed);
    AddAllLookup(tiles, player, cs, player, K.Position);
  }

  /**
   * Mounting the game's systems on a manager without a Chronos, then
   * loading the map, the player and the zombies: the GameTime entity is the
   * first new id, keeps its name and its component, and the loaded
   * entities follow it.
   */
  lemma LoadAfterMount(pre: seq<SystemId>, s0: Store, ms: Store, t: Tables, e: seq<Entity>, names: map<Entity, string>,
                       m: Maps.Map, centers: seq<(int, int)>, tiles: Tables, player: Entity)
    requires Chronos !in pre && |m.cells| == m.width * m.height && |centers| > 0
    requires ms == MountAll(pre + GameSystems, s0)
    requires e == ms.1 + Ids(|ms.1|, |m.cells| + 1 + |centers|) && names == ms.2 && player == |ms.1| + |m.cells|
    requires TilesPlaced(ms.0, tiles, |ms.1|, CellSpots(m.cells, m.width, m.height), |m.cells|, TileSolid)
    requires ZombiesPlaced(AddAll(tiles, player, PlayerComponents("gromash", centers[0].0, centers[0].1)), t, player + 1, centers, |centers|)
    ensures var n := |s0.1|;
      names == s0.2[n := ChronosSystem.GameTimeName] &&
      e == s0.1 + [n] + Ids(n + 1, |m.cells| + 1 + |centers|) &&
      GetComponentMut(t, n, K.GameTime) == Some(GameTime)
  {
    var n := |s0.1|;
    GameMount(pre, s0);
    assert ms == (Added(s0.0, n, GameTime), s0.1 + [n], s0.2[n := ChronosSystem.GameTimeName]);
    AddedLookup(s0.0, n, GameTime, n, K.GameTime);
    GameTimeSurvivesLoad(ms.0, tiles, t, n, CellSpots(m.cells, m.width, m.height), |m.cells|, centers, player,
      PlayerComponents("gromash", centers[0].0, centers[0].1));
  }

  /** Loading `cells` tiles, a player and the zombies after entity `n` keeps `n`'s GameTime. */
  lemma GameTimeSurvivesLoad(t1: Tables, tiles: Tables, t: Tables, n: Entity, spots: seq<Spot>, cells: nat,
                             centers: seq<(int, int)>, player: Entity, cs: seq<Component>)
    requires cells <= |spots|
    requires GetComponentMut(t1, n, K.GameTime) == Some(GameTime)
    requires TilesPlaced(t1, tiles, n + 1, spots, cells, TileSolid)
    requires player == n + 1 + cells
    requires ZombiesPlaced(AddAll(tiles, player, cs), t, player + 1, centers, |centers|)
    ensures GetComponentMut(t, n, K.GameTime) == Some(GameTime)
  {
    ZombiesPlacedAt(AddAll(tiles, player, cs), t, player + 1, centers, |centers|, n, K.GameTime);
    assert n != player;
    AddAllLookup(tiles, player, cs, n, K.GameTime);
    TilesPlacedAt(t1, tiles, n + 1, spots, cells, TileSolid, n, K.GameTime);
  }

  // The game

  class Game {
    var em: EntityManager
    var manager: SystemManager
    var input: InputBroadcast.InputSystem
    var headless: bool
    var initialized: bool
    var running: bool

    /** `Game::new`: an empty store, no systems, no input yet, every flag off. */
    constructor ()
      ensures fresh(em) && fresh(manager) && fresh(input)
      ensures em.Valid() && em.entities == [] && em.names == map[] && em.tables == map[]
      ensures manager.systems == [] && manager.calls == [] && fresh(manager.turns) && manager.turns.queue == []
      ensures input.history == [] && !headless && !initialized && !running
    {
      em := new EntityManager();
      manager := new SystemManager();
      input := new InputBroadcast.InputSystem();
      headless := false;
      initialized := false;
      running := false;
    }

    /** `handle_args`: "--headless" anywhere among the arguments turns headless mode on. */
    method HandleArgs(args: seq<string>)
      modifies this
      ensures headless == (old(headless) || "--headless" in args)
      ensures em == old(em) && manager == old(manager) && input == old(input)
      ensures initialized == old(initialized) && running == old(running)
    {
      AnyArgIsMember(args, "--headless");
      if AnyArg(args, "--headless") {
        headless := true;
      }
    }

    /** The twelve `register_system` calls of `register_game_systems`. */
    method RegisterEach()
      modifies manager
      ensures manager.systems == old(manager.systems) + GameSystems
      ensures manager.calls == old(manager.calls)
    {
      manager.RegisterSystem(Chronos);
      manager.RegisterSystem(TurnSystem);
      manager.RegisterSystem(RandomWalkAiSystem);
      manager.RegisterSystem(WalkSystem);
      manager.RegisterSystem(CollisionSystem);
      manager.RegisterSystem(AttackSystem);
      manager.RegisterSystem(DamageSystem);
      manager.RegisterSystem(MoveSystem);
      manager.RegisterSystem(LootSystem);
      manager.RegisterSystem(EventLogSystem);
      manager.RegisterSystem(Reaper);
      manager.RegisterSystem(Janitor);
    }

    /**
     * `register_game_systems`: the twelve systems in their fixed order,
     * then `mount` on all of them with the store (see `GameMount` for
     * what that does to a manager without a Chronos yet). The Energy table
     * being empty before any entity is loaded, the turn queue stays empty.
     */
    method RegisterGameSystems()
      requires em.Valid()
      modifies manager, manager.turns, em
      ensures manager.systems == old(manager.systems) + GameSystems
      ensures manager.calls == old(manager.calls) + HookCalls(MountHook, manager.systems)
      ensures em.Valid()
      ensures (em.tables, em.entities, em.names) == MountAll(manager.systems, (old(em.tables), old(em.entities), old(em.names)))
      ensures TableOf(old(em.tables), K.Energy) == map[] ==> manager.turns.queue == old(manager.turns.queue)
    {
      RegisterEach();
      manager.Mount(em);
    }

    /**
     * `init`: arguments, systems (whose mount creates the GameTime
     * entity), entities, then the initialized flag. The map tiles, the
     * player and the zombies take the ids after the GameTime entity's. The
     * render and input systems' own `mount` (a curses screen and the input
     * thread) are not part of this model.
     */
    method Init(args: seq<string>, m: Maps.Map, centers: seq<(int, int)>)
      requires em.Valid() && |m.cells| == m.width * m.height
      requires |centers| == |m.rooms| && |m.rooms| > 0
      modifies this, em, manager, manager.turns
      ensures em == old(em) && manager == old(manager) && input == old(input)
      ensures headless == (old(headless) || "--headless" in args)
      ensures manager.systems == old(manager.systems) + GameSystems
      ensures manager.calls == old(manager.calls) + HookCalls(MountHook, manager.systems)
      ensures em.Valid()
      ensures Chronos !in old(manager.systems) ==>
        var n := |old(em.entities)|;
        em.names == old(em.names)[n := ChronosSystem.GameTimeName] &&
        em.entities == old(em.entities) + [n] + Ids(n + 1, |m.cells| + 1 + |centers|) &&
        GetComponentMut(em.tables, n, K.GameTime) == Some(GameTime)
      ensures TableOf(old(em.tables), K.Energy) == map[] ==> manager.turns.queue == old(manager.turns.queue)
      ensures initialized && running == old(running)
    {
      HandleArgs(args);
      RegisterAndLoad(m, centers);
      initialized := true;
    }

    /** The middle of `init`: `register_game_systems`, then `load_game_entities`. */
    method RegisterAndLoad(m: Maps.Map, centers: seq<(int, int)>)
      requires em.Valid() && |m.cells| == m.width * m.height
      requires |centers| == |m.rooms| && |m.rooms| > 0
      modifies em, manager, manager.turns
      ensures manager.systems == old(manager.systems) + GameSystems
      ensures manager.calls == old(manager.calls) + HookCalls(MountHook, manager.systems)
      ensures em.Valid()
      ensures Chronos !in old(manager.systems) ==>
        var n := |old(em.entities)|;
        em.names == old(em.names)[n := ChronosSystem.GameTimeName] &&
        em.entities == old(em.entities) + [n] + Ids(n + 1, |m.cells| + 1 + |centers|) &&
        GetComponentMut(em.tables, n, K.GameTime) == Some(GameTime)
      ensures TableOf(old(em.tables), K.Energy) == map[] ==> manager.turns.queue == old(manager.turns.queue)
    {
      ghost var s0: Store := (em.tables, em.entities, em.names);
      RegisterGameSystems();
      ghost var ms: Store := (em.tables, em.entities, em.names);
      var player, tiles := LoadGameEntities(em, m, centers);
      if Chronos !in old(manager.systems) {
        LoadAfterMount(old(manager.systems), s0, ms, em.tables, em.entities, em.names, m, centers, tiles, player);
      }
    }

    /** The guard of `run`: it panics (`ok` false) unless the game was initialized, and then runs. */
    method Start() returns (ok: bool)
      modifies this
      ensures ok == initialized
      ensures running == (if ok then true else old(running))
      ensures em == old(em) && manager == old(manager) && input == old(input)
      ensures headless == old(headless) && initialized == old(initialized)
    {
      if !initialized {
        return false;
      }
      running := true;
      return true;
    }

    /** `quit`: the frame loop stops. */
    method Quit()
      modifies this
      ensures !running
      ensures em == old(em) && manager == old(manager) && input == old(input)
      ensures headless == old(headless) && initialized == old(initialized)
    {
      running := false;
    }

    /**
     * `handle_input`: nothing in headless mode; otherwise the input system
     * broadcasts the received key (0 when none arrives), and a last input
     * of 113 ('q') quits.
     */
    method HandleInput(received: Option<int>, order: seq<Entity>)
      requires em.Valid() && IsEnumeration(order, TableOf(em.tables, K.Input).Keys)
      modifies this, em, input
      ensures em == old(em) && manager == old(manager) && input == old(input)
      ensures headless == old(headless) && initialized == old(initialized)
      ensures em.Valid()
      ensures headless ==> unchanged(em) && unchanged(input) && running == old(running)
      ensures !headless ==>
        input.history == old(input.history) + (if received.Some? then [received.value] else []) &&
        em.tables == InputBroadcast.Run(old(em.tables), order, InputBroadcast.Broadcast(received)) &&
        em.entities == old(em.entities) && em.names == old(em.names) &&
        running == (if input.GetLastInput() == Some(QuitKey) then false else old(running))
    {
      if headless {
        return;
      }
      input.ProcessInputEvents(em, received, order);
      if input.GetLastInput() == Some(QuitKey) {
        Quit();
      }
    }

    /**
     * `update`: every registered system's `process`, in order, the i-th
     * with `args[i]`, its iteration orders and draws. With the janitor
     * last, as in the game, the frame leaves no Event component behind.
     */
    method Update(args: seq<ProcessArgs>)
      requires em.Valid() && |args| == |manager.systems|
      requires FrameReady(manager.systems, args, (em.tables, em.entities))
      modifies manager, em
      ensures manager.systems == old(manager.systems)
      ensures manager.calls == old(manager.calls) + HookCalls(ProcessHook, manager.systems)
      ensures em.Valid() && em.names == old(em.names)
      ensures (em.tables, em.entities) == ProcessAll(manager.systems, args, (old(em.tables), old(em.entities)))
      ensures |manager.systems| > 0 && manager.systems[|manager.systems| - 1] == Janitor ==>
        forall e :: !HasComponent(em.tables, e, K.Event)
    {
      manager.ProcessSystems(em, args);
    }

    /** `cleanup`: outside headless mode, every system's `unmount`, in registration order. */
    method Cleanup()
      modifies manager
      ensures manager.systems == old(manager.systems)
      ensures !headless ==> manager.calls == old(manager.calls) + HookCalls(UnmountHook, manager.systems)
      ensures headless ==> manager.calls == old(manager.calls)
    {
      if !headless {
        manager.Unmount();
      }
    }

  }

  /**
   * The binary's test: a new game, initialized headless, has an entity
   * named "GameTime", and it is the first one.
   */
  method GameTimeAfterInit(m: Maps.Map, centers: seq<(int, int)>) returns (r: Option<(Entity, string)>)
    requires |m.cells| == m.width * m.height
    requires |centers| == |m.rooms| && |m.rooms| > 0
    ensures r == Some((0, ChronosSystem.GameTimeName))
  {
    var game := new Game();
    game.Init(["--headless"], m, centers);
    r := game.em.GetEntityByName(ChronosSystem.GameTimeName);
    assert game.em.names == map[0 := ChronosSystem.GameTimeName];
    assert game.em.names[0] == ChronosSystem.GameTimeName;
  }
}
