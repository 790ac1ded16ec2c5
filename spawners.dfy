/**
 * The spawners: `create_monster` and its two presets, and
 * `spawn_potion_of_healing`. Each creates one entity and gives it a fixed
 * set of components, one `add_component` at a time.
 */
module Spawners {
  import opened Common
  import K = Kinds
  import opened Components
  import opened Entities

  /** The store after the six additions of `create_monster` on `id`. */
  function Monster(t: Tables, id: Entity, name: string, x: int, y: int, glyph: char, hp: int): Tables {
    var t1 := Added(t, id, Name(name));
    var t2 := Added(t1, id, Render(glyph, PlayerLayer));
    var t3 := Added(t2, id, Position(x, y));
    var t4 := Added(t3, id, Health(hp, hp));
    var t5 := Added(t4, id, Walk(0, 0));
    Added(t5, id, Collidable)
  }

  /** Three `add_component` calls on one entity: the last one of a kind wins, nothing else changes. */
  lemma ThreeAddsLookup(t: Tables, id: Entity, c1: Component, c2: Component, c3: Component, e: Entity, k: K.Kind)
    ensures GetComponentMut(Added(Added(Added(t, id, c1), id, c2), id, c3), e, k) ==
      if e == id && k == KindOf(c3) then Some(c3)
      else if e == id && k == KindOf(c2) then Some(c2)
      else if e == id && k == KindOf(c1) then Some(c1)
      else GetComponentMut(t, e, k)
  {
    AddedLookup(t, id, c1, e, k);
    AddedLookup(Added(t, id, c1), id, c2, e, k);
    AddedLookup(Added(Added(t, id, c1), id, c2), id, c3, e, k);
  }

  /** Six `add_component` calls on one entity: the last one of a kind wins, nothing else changes. */
  lemma SixAddsLookup(t: Tables, id: Entity, cs: seq<Component>, e: Entity, k: K.Kind)
    requires |cs| == 6
    ensures GetComponentMut(Added(Added(Added(Added(Added(Added(t, id, cs[0]), id, cs[1]), id, cs[2]), id, cs[3]), id, cs[4]), id, cs[5]), e, k) ==
      if e == id && k == KindOf(cs[5]) then Some(cs[5])
      else if e == id && k == KindOf(cs[4]) then Some(cs[4])
      else if e == id && k == KindOf(cs[3]) then Some(cs[3])
      else if e == id && k == KindOf(cs[2]) then Some(cs[2])
      else if e == id && k == KindOf(cs[1]) then Some(cs[1])
      else if e == id && k == KindOf(cs[0]) then Some(cs[0])
      else GetComponentMut(t, e, k)
  {
    var t3 := Added(Added(Added(t, id, cs[0]), id, cs[1]), id, cs[2]);
    ThreeAddsLookup(t, id, cs[0], cs[1], cs[2], e, k);
    ThreeAddsLookup(t3, id, cs[3], cs[4], cs[5], e, k);
  }

  /** The kinds `create_monster` adds. */
  predicate MonsterKind(k: K.Kind) {
    k == K.Name || k == K.Render || k == K.Position || k == K.Health || k == K.Walk || k == K.Collidable
  }

  /**
   * After `create_monster`, the new entity holds the monster's six
   * components: its name, the glyph on the player layer, its position,
   * health equal to maximum health, a zero walk, and Collidable.
   */
  lemma MonsterRow(t: Tables, id: Entity, name: string, x: int, y: int, glyph: char, hp: int)
    ensures var m := Monster(t, id, name, x, y, glyph, hp);
      GetComponentMut(m, id, K.Name) == Some(Name(name)) &&
      GetComponentMut(m, id, K.Render) == Some(Render(glyph, PlayerLayer)) &&
      GetComponentMut(m, id, K.Position) == Some(Position(x, y)) &&
      GetComponentMut(m, id, K.Health) == Some(Health(hp, hp)) &&
      GetComponentMut(m, id, K.Walk) == Some(Walk(0, 0)) &&
      GetComponentMut(m, id, K.Collidable) == Some(Collidable)
  {
    var t3 := Added(Added(Added(t, id, Name(name)), id, Render(glyph, PlayerLayer)), id, Position(x, y));
    assert KindOf(Name(name)) == K.Name && KindOf(Render(glyph, PlayerLayer)) == K.Render;
    assert KindOf(Position(x, y)) == K.Position && KindOf(Health(hp, hp)) == K.Health;
    assert KindOf(Walk(0, 0)) == K.Walk && KindOf(Collidable) == K.Collidable;
    ThreeAddsLookup(t, id, Name(name), Render(glyph, PlayerLayer), Position(x, y), id, K.Name);
    ThreeAddsLookup(t3, id, Health(hp, hp), Walk(0, 0), Collidable, id, K.Name);
    ThreeAddsLookup(t, id, Name(name), Render(glyph, PlayerLayer), Position(x, y), id, K.Render);
    ThreeAddsLookup(t3, id, Health(hp, hp), Walk(0, 0), Collidable, id, K.Render);
    ThreeAddsLookup(t, id, Name(name), Render(glyph, PlayerLayer), Position(x, y), id, K.Position);
    ThreeAddsLookup(t3, id, Health(hp, hp), Walk(0, 0), Collidable, id, K.Position);
    ThreeAddsLookup(t3, id, Health(hp, hp), Walk(0, 0), Collidable, id, K.Health);
    ThreeAddsLookup(t3, id, Health(hp, hp), Walk(0, 0), Collidable, id, K.Walk);
    ThreeAddsLookup(t3, id, Health(hp, hp), Walk(0, 0), Collidable, id, K.Collidable);
  }

  /** `create_monster` changes no other entity, and no other kind of the new one. */
  lemma MonsterKeepsRest(t: Tables, id: Entity, name: string, x: int, y: int, glyph: char, hp: int, e: Entity, k: K.Kind)
    requires e != id || !MonsterKind(k)
    ensures GetComponentMut(Monster(t, id, name, x, y, glyph, hp), e, k) == GetComponentMut(t, e, k)
  {
    var t3 := Added(Added(Added(t, id, Name(name)), id, Render(glyph, PlayerLayer)), id, Position(x, y));
    assert KindOf(Name(name)) == K.Name && KindOf(Render(glyph, PlayerLayer)) == K.Render;
    assert KindOf(Position(x, y)) == K.Position && KindOf(Health(hp, hp)) == K.Health;
    assert KindOf(Walk(0, 0)) == K.Walk && KindOf(Collidable) == K.Collidable;
    ThreeAddsLookup(t, id, Name(name), Render(glyph, PlayerLayer), Position(x, y), e, k);
    ThreeAddsLookup(t3, id, Health(hp, hp), Walk(0, 0), Collidable, e, k);
  }

  /** `create_monster` keeps every table holding only its own kind. */
  lemma MonsterKeepsWellTyped(t: Tables, id: Entity, name: string, x: int, y: int, glyph: char, hp: int)
    requires WellTyped(t)
    ensures WellTyped(Monster(t, id, name, x, y, glyph, hp))
  {
    var t1 := Added(t, id, Name(name));
    var t2 := Added(t1, id, Render(glyph, PlayerLayer));
    var t3 := Added(t2, id, Position(x, y));
    var t4 := Added(t3, id, Health(hp, hp));
    var t5 := Added(t4, id, Walk(0, 0));
    AddedKeepsWellTyped(t, id, Name(name));
    AddedKeepsWellTyped(t1, id, Render(glyph, PlayerLayer));
    AddedKeepsWellTyped(t2, id, Position(x, y));
    AddedKeepsWellTyped(t3, id, Health(hp, hp));
    AddedKeepsWellTyped(t4, id, Walk(0, 0));
  }

  /** The zombie preset: a monster that also walks at random. */
  function Zombie(t: Tables, id: Entity, x: int, y: int): Tables {
    Added(Monster(t, id, "zombie", x, y, 'z', 10), id, RandomWalkAi)
  }

  /** A zombie is the "zombie" monster with 10 hit points, glyph 'z', plus RandomWalkAi. */
  lemma ZombieLookup(t: Tables, id: Entity, x: int, y: int, e: Entity, k: K.Kind)
    ensures GetComponentMut(Zombie(t, id, x, y), e, k) ==
      if e == id && k == K.RandomWalkAi then Some(RandomWalkAi)
      else GetComponentMut(Monster(t, id, "zombie", x, y, 'z', 10), e, k)
  {
    AddedLookup(Monster(t, id, "zombie", x, y, 'z', 10), id, RandomWalkAi, e, k);
  }

  /** What a monster holds under kind `k`; `before` is the entity's lookup before it. */
  function MonsterComponent(name: string, x: int, y: int, glyph: char, hp: int, k: K.Kind, before: Option<Component>): Option<Component> {
    if k == K.Name then Some(Name(name))
    else if k == K.Render then Some(Render(glyph, PlayerLayer))
    else if k == K.Position then Some(Position(x, y))
    else if k == K.Health then Some(Health(hp, hp))
    else if k == K.Walk then Some(Walk(0, 0))
    else if k == K.Collidable then Some(Collidable)
    else before
  }

  /** `create_monster` sets exactly its six kinds on its own entity and changes nothing else. */
  lemma MonsterLookupAll(t: Tables, id: Entity, name: string, x: int, y: int, glyph: char, hp: int, e: Entity, k: K.Kind)
    ensures GetComponentMut(Monster(t, id, name, x, y, glyph, hp), e, k) ==
      if e == id then MonsterComponent(name, x, y, glyph, hp, k, GetComponentMut(t, e, k)) else GetComponentMut(t, e, k)
  {
    var cs := [Name(name), Render(glyph, PlayerLayer), Position(x, y), Health(hp, hp), Walk(0, 0), Collidable];
    assert KindOf(cs[0]) == K.Name && KindOf(cs[1]) == K.Render && KindOf(cs[2]) == K.Position;
    assert KindOf(cs[3]) == K.Health && KindOf(cs[4]) == K.Walk && KindOf(cs[5]) == K.Collidable;
    SixAddsLookup(t, id, cs, e, k);
  }

  /** What a zombie at (x, y) holds under kind `k`: a monster's kinds plus RandomWalkAi. */
  function ZombieComponent(x: int, y: int, k: K.Kind, before: Option<Component>): Option<Component> {
    if k == K.RandomWalkAi then Some(RandomWalkAi) else MonsterComponent("zombie", x, y, 'z', 10, k, before)
  }

  /** A zombie sets exactly its seven kinds on its own entity and changes nothing else. */
  lemma ZombieLookupAll(t: Tables, id: Entity, x: int, y: int, e: Entity, k: K.Kind)
    ensures GetComponentMut(Zombie(t, id, x, y), e, k) ==
      if e == id then ZombieComponent(x, y, k, GetComponentMut(t, e, k)) else GetComponentMut(t, e, k)
  {
    ZombieLookup(t, id, x, y, e, k);
    MonsterLookupAll(t, id, "zombie", x, y, 'z', 10, e, k);
  }

  /** `ZombieLookupAll` for every entity and kind at once. */
  lemma ZombieLookups(t: Tables, id: Entity, x: int, y: int)
    ensures forall e, k ::
      GetComponentMut(Zombie(t, id, x, y), e, k) ==
        if e == id then ZombieComponent(x, y, k, GetComponentMut(t, e, k)) else GetComponentMut(t, e, k)
  {
    forall e, k
      ensures GetComponentMut(Zombie(t, id, x, y), e, k) ==
        if e == id then ZombieComponent(x, y, k, GetComponentMut(t, e, k)) else GetComponentMut(t, e, k)
    {
      ZombieLookupAll(t, id, x, y, e, k);
    }
  }

  /** The store after the three additions of `spawn_potion_of_healing` on `id`. */
  function Potion(t: Tables, id: Entity, x: int, y: int): Tables {
    Added(Added(Added(t, id, Position(x, y)), id, Render('!', ItemLayer)), id, Consumable)
  }

  /**
   * The potion holds its Position, an item-layer '!' Render and
   * Consumable, and nothing else: in particular no Name and no Item.
   */
  lemma PotionLookup(t: Tables, id: Entity, x: int, y: int, e: Entity, k: K.Kind)
    ensures GetComponentMut(Potion(t, id, x, y), e, k) ==
      if e == id && k == K.Position then Some(Position(x, y))
      else if e == id && k == K.Render then Some(Render('!', ItemLayer))
      else if e == id && k == K.Consumable then Some(Consumable)
      else GetComponentMut(t, e, k)
  {
    ThreeAddsLookup(t, id, Position(x, y), Render('!', ItemLayer), Consumable, e, k);
    assert KindOf(Position(x, y)) == K.Position && KindOf(Render('!', ItemLayer)) == K.Render;
  }

  /** `spawn_potion_of_healing` keeps every table holding only its own kind. */
  lemma PotionKeepsWellTyped(t: Tables, id: Entity, x: int, y: int)
    requires WellTyped(t)
    ensures WellTyped(Potion(t, id, x, y))
  {
    AddedKeepsWellTyped(t, id, Position(x, y));
    AddedKeepsWellTyped(Added(t, id, Position(x, y)), id, Render('!', ItemLayer));
  }

  /** `create_monster`: a new entity, the next id, with the monster's six components. */
  method CreateMonster(em: EntityManager, name: string, x: int, y: int, glyph: char, baseHitPoints: int)
    returns (monster: Entity)
    requires em.Valid()
    modifies em
    ensures em.Valid()
    ensures monster == |old(em.entities)| && em.entities == old(em.entities) + [monster]
    ensures em.tables == Monster(old(em.tables), monster, name, x, y, glyph, baseHitPoints)
    ensures em.names == old(em.names)
  {
    monster := em.CreateEntity();
    em.AddComponent(monster, Name(name));
    em.AddComponent(monster, Render(glyph, PlayerLayer));
    em.AddComponent(monster, Position(x, y));
    em.AddComponent(monster, Health(baseHitPoints, baseHitPoints));
    em.AddComponent(monster, Walk(0, 0));
    em.AddComponent(monster, Collidable);
  }

  /** `create_goblin`: the "goblin" monster, glyph 'g', 8 hit points. */
  method CreateGoblin(em: EntityManager, x: int, y: int) returns (goblin: Entity)
    requires em.Valid()
    modifies em
    ensures em.Valid()
    ensures goblin == |old(em.entities)| && em.entities == old(em.entities) + [goblin]
    ensures em.tables == Monster(old(em.tables), goblin, "goblin", x, y, 'g', 8)
    ensures em.names == old(em.names)
  {
    goblin := CreateMonster(em, "goblin", x, y, 'g', 8);
  }

  /** `create_zombie`: the "zombie" monster, glyph 'z', 10 hit points, then RandomWalkAi. */
  method CreateZombie(em: EntityManager, x: int, y: int) returns (zombie: Entity)
    requires em.Valid()
    modifies em
    ensures em.Valid()
    ensures zombie == |old(em.entities)| && em.entities == old(em.entities) + [zombie]
    ensures em.tables == Zombie(old(em.tables), zombie, x, y)
    ensures em.names == old(em.names)
  {
    zombie := CreateMonster(em, "zombie", x, y, 'z', 10);
    em.AddComponent(zombie, RandomWalkAi);
  }

  /** `spawn_potion_of_healing`: a new entity at (x, y) with the potion's three components. */
  method SpawnPotionOfHealing(em: EntityManager, x: int, y: int)
    requires em.Valid()
    modifies em
    ensures em.Valid()
    ensures em.entities == old(em.entities) + [|old(em.entities)|]
    ensures em.tables == Potion(old(em.tables), |old(em.entities)|, x, y)
    ensures em.names == old(em.names)
  {
    var potion := em.CreateEntity();
    em.AddComponent(potion, Position(x, y));
    em.AddComponent(potion, Render('!', ItemLayer));
    em.AddComponent(potion, Consumable);
  }
}
