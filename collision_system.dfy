/**
 * `CollisionSystem`: a walk that would carry an entity onto a cell held by
 * a Collidable entity is cancelled, and the first such occupier receives a
 * Damage of 3. The occupied cells are collected once, before any walk is
 * examined, so they are the positions at the start of the pass.
 */
module CollisionSystem {
  import opened Common
  import K = Kinds
  import opened Components
  import opened Entities
  import opened Systems

  type Cell = (int, int)

  /**
   * `get_occupied_spaces`: each Collidable entity that has a Position,
   * paired with that position, in the order the Collidable table is listed.
   */
  function OccupiedSpaces(t: Tables, collidables: seq<Entity>): (r: seq<(Entity, Cell)>)
    requires WellTyped(t)
    ensures forall o | o in r ::
      o.0 in collidables && HasComponent(t, o.0, K.Position) &&
      t[K.Position][o.0] == Position(o.1.0, o.1.1)
    ensures forall c | c in collidables && HasComponent(t, c, K.Position) ::
      (c, (t[K.Position][c].x, t[K.Position][c].y)) in r
  {
    if collidables == [] then []
    else
      var c := collidables[0];
      var p := GetComponentMutAs(t, c, K.Position);
      var rest := OccupiedSpaces(t, collidables[1..]);
      assert forall x | x in collidables :: x == c || x in collidables[1..];
      if p.Some? then [(c, (p.value.x, p.value.y))] + rest else rest
  }

  /** The first occupied entry whose cell is `dest`. */
  function FindOccupier(occupied: seq<(Entity, Cell)>, dest: Cell): (r: Option<Entity>)
    ensures r.None? <==> forall i | 0 <= i < |occupied| :: occupied[i].1 != dest
    ensures r.Some? ==> exists i | 0 <= i < |occupied| ::
      occupied[i] == (r.value, dest) && forall j | 0 <= j < i :: occupied[j].1 != dest
  {
    if occupied == [] then None
    else if occupied[0].1 == dest then Some(occupied[0].0)
    else
      var r := FindOccupier(occupied[1..], dest);
      assert forall i | 0 < i < |occupied| :: occupied[i] == occupied[1..][i - 1];
      if r.Some? then
        var i :| 0 <= i < |occupied[1..]| && occupied[1..][i] == (r.value, dest) &&
          forall j | 0 <= j < i :: occupied[1..][j].1 != dest;
        assert occupied[i + 1] == (r.value, dest);
        r
      else r
  }

  /** The occupier `e`'s walk runs into, if its walk is non-zero. */
  function Hit(t: Tables, occupied: seq<(Entity, Cell)>, e: Entity): Option<Entity> {
    var position := GetComponentMutAs(t, e, K.Position);
    var walk := GetComponentMutAs(t, e, K.Walk);
    if position.Some? && walk.Some? && !(walk.value.dx == 0 && walk.value.dy == 0) then
      FindOccupier(occupied, (position.value.x + walk.value.dx, position.value.y + walk.value.dy))
    else None
  }

  /** One iteration: on a hit, zero the walk and damage the occupier. */
  function Step(t: Tables, occupied: seq<(Entity, Cell)>, e: Entity): Tables {
    match Hit(t, occupied, e)
    case None => t
    case Some(o) => Added(Added(t, e, Walk(0, 0)), o, Damage(3, None))
  }

  function Run(t: Tables, occupied: seq<(Entity, Cell)>, order: seq<Entity>): Tables
    decreases |order|
  {
    if order == [] then t
    else Step(Run(t, occupied, order[..|order| - 1]), occupied, order[|order| - 1])
  }

  /** One iteration changes only the visitor's Walk and its occupier's Damage. */
  lemma StepCollidesOne(t: Tables, occupied: seq<(Entity, Cell)>, e: Entity)
    requires WellTyped(t)
    ensures WellTyped(Step(t, occupied, e))
    ensures forall k | k != K.Walk && k != K.Damage :: SameTable(t, Step(t, occupied, e), k)
    ensures forall x ::
      GetComponentMut(Step(t, occupied, e), x, K.Walk) ==
      (if x == e && Hit(t, occupied, e).Some? then Some(Walk(0, 0)) else GetComponentMut(t, x, K.Walk))
    ensures forall x ::
      GetComponentMut(Step(t, occupied, e), x, K.Damage) ==
      (if Hit(t, occupied, e) == Some(x) then Some(Damage(3, None)) else GetComponentMut(t, x, K.Damage))
  {
    var h := Hit(t, occupied, e);
    if h.Some? {
      var a := Added(t, e, Walk(0, 0));
      assert HasComponent(t, e, K.Walk);
      assert forall x :: HasComponent(a, x, K.Walk) <==> HasComponent(t, x, K.Walk);
      assert SameTable(t, a, K.Damage);
    }
  }

  /** `Hit` reads only the Position table and the visitor's own Walk. */
  lemma HitReadsPositionsAndOwnWalk(t: Tables, m: Tables, occupied: seq<(Entity, Cell)>, e: Entity)
    requires SameTable(t, m, K.Position)
    requires GetComponentMut(m, e, K.Walk) == GetComponentMut(t, e, K.Walk)
    ensures Hit(m, occupied, e) == Hit(t, occupied, e)
  {
  }

  /** Some visited walker ran into `x`. */
  ghost predicate DamagedBy(t: Tables, occupied: seq<(Entity, Cell)>, order: seq<Entity>, x: Entity) {
    exists e | e in order :: Hit(t, occupied, e) == Some(x)
  }

  /** The pass keeps the store well typed and leaves every other table alone. */
  lemma {:induction false} RunKeepsOtherTables(t: Tables, occupied: seq<(Entity, Cell)>, order: seq<Entity>)
    requires WellTyped(t)
    ensures WellTyped(Run(t, occupied, order))
    ensures forall k | k != K.Walk && k != K.Damage :: SameTable(t, Run(t, occupied, order), k)
    decreases |order|
  {
    if order != [] {
      var prefix, last := order[..|order| - 1], order[|order| - 1];
      RunKeepsOtherTables(t, occupied, prefix);
      var m := Run(t, occupied, prefix);
      StepCollidesOne(m, occupied, last);
      forall k | k != K.Walk && k != K.Damage ensures SameTable(t, Run(t, occupied, order), k) {
        assert SameTable(t, m, k) && SameTable(m, Step(m, occupied, last), k);
      }
    }
  }

  /** A walker that hit something has Walk (0, 0); every other Walk is kept. */
  lemma {:induction false} RunVetoesBlockedWalks(t: Tables, occupied: seq<(Entity, Cell)>, order: seq<Entity>)
    requires WellTyped(t) && Distinct(order)
    ensures forall e ::
      GetComponentMut(Run(t, occupied, order), e, K.Walk) ==
      (if e in order && Hit(t, occupied, e).Some? then Some(Walk(0, 0)) else GetComponentMut(t, e, K.Walk))
    decreases |order|
  {
    if order != [] {
      var prefix, last := order[..|order| - 1], order[|order| - 1];
      DistinctPrefix(order);
      RunVetoesBlockedWalks(t, occupied, prefix);
      RunKeepsOtherTables(t, occupied, prefix);
      var m := Run(t, occupied, prefix);
      StepCollidesOne(m, occupied, last);
      HitReadsPositionsAndOwnWalk(t, m, occupied, last);
      forall e ensures e in order <==> e in prefix || e == last {
        assert order == prefix + [last];
      }
    }
  }

  /**
   * Every entity some walker ran into holds Damage 3, overwriting what it
   * had; every other Damage is kept.
   */
  lemma {:induction false} RunDamagesOccupiers(t: Tables, occupied: seq<(Entity, Cell)>, order: seq<Entity>)
    requires WellTyped(t) && Distinct(order)
    ensures forall x ::
      GetComponentMut(Run(t, occupied, order), x, K.Damage) ==
      (if DamagedBy(t, occupied, order, x) then Some(Damage(3, None)) else GetComponentMut(t, x, K.Damage))
    decreases |order|
  {
    if order != [] {
      var prefix, last := order[..|order| - 1], order[|order| - 1];
      DistinctPrefix(order);
      RunDamagesOccupiers(t, occupied, prefix);
      RunKeepsOtherTables(t, occupied, prefix);
      RunVetoesBlockedWalks(t, occupied, prefix);
      var m := Run(t, occupied, prefix);
      StepCollidesOne(m, occupied, last);
      HitReadsPositionsAndOwnWalk(t, m, occupied, last);
      forall x ensures DamagedBy(t, occupied, order, x) <==>
        DamagedBy(t, occupied, prefix, x) || Hit(t, occupied, last) == Some(x)
      {
        assert order == prefix + [last];
      }
    }
  }

  /** A hit: the walker's Walk is zeroed and the occupier takes Damage 3. */
  method Collide(em: EntityManager, e: Entity, occupier: Entity)
    requires em.Valid()
    modifies em
    ensures em.Valid()
    ensures em.tables == Added(Added(old(em.tables), e, Walk(0, 0)), occupier, Damage(3, None))
    ensures em.entities == old(em.entities) && em.names == old(em.names)
  {
    em.AddComponent(e, Walk(0, 0));
    em.AddComponent(occupier, Damage(3, None));
  }

  /** The loop body of `process` for one walker. */
  method CheckWalker(em: EntityManager, occupied: seq<(Entity, Cell)>, e: Entity)
    requires em.Valid()
    modifies em
    ensures em.Valid()
    ensures em.tables == Step(old(em.tables), occupied, e)
    ensures em.entities == old(em.entities) && em.names == old(em.names)
  {
    ghost var t := em.tables;
    var position := GetComponentMutAs(em.tables, e, K.Position);
    var walk := GetComponentMutAs(em.tables, e, K.Walk);
    if position.Some? && walk.Some? && !(walk.value.dx == 0 && walk.value.dy == 0) {
      var dest := (position.value.x + walk.value.dx, position.value.y + walk.value.dy);
      var occupier := FindOccupier(occupied, dest);
      assert occupier == Hit(t, occupied, e);
      if occupier.Some? {
        Collide(em, e, occupier.value);
      }
    } else {
      assert Hit(t, occupied, e).None?;
    }
  }

  /**
   * `CollisionSystem::process`: `walkers` is the Walk table's listing and
   * `collidables` the Collidable table's. Every walker must have a
   * Position (the source unwraps it), and every collidable's Position
   * lookup must return.
   */
  method Process(em: EntityManager, walkers: seq<Entity>, collidables: seq<Entity>)
    requires em.Valid()
    requires IsEnumeration(walkers, TableOf(em.tables, K.Walk).Keys)
    requires IsEnumeration(collidables, TableOf(em.tables, K.Collidable).Keys)
    requires forall w | w in walkers :: HasComponent(em.tables, w, K.Position)
    requires forall c | c in collidables :: Resolves(em.tables, c, K.Position)
    modifies em
    ensures em.Valid()
    ensures em.tables == Run(old(em.tables), OccupiedSpaces(old(em.tables), collidables), walkers)
    ensures em.entities == old(em.entities) && em.names == old(em.names)
  {
    var occupied := OccupiedSpaces(em.tables, collidables);
    ghost var t0 := em.tables;
    var i := 0;
    while i < |walkers|
      invariant 0 <= i <= |walkers|
      invariant em.Valid()
      invariant em.tables == Run(t0, occupied, walkers[..i])
      invariant em.entities == old(em.entities) && em.names == old(em.names)
    {
      CheckWalker(em, occupied, walkers[i]);
      assert walkers[..i + 1][..i] == walkers[..i];
      i := i + 1;
    }
    assert walkers[..i] == walkers;
  }
}
