/**
 * `MoveSystem`: every entity with a Walk and a Position moves by its walk,
 * unless the walk is (0, 0). Walks themselves are never changed.
 */
module MoveSystem {
  import opened Common
  import K = Kinds
  import opened Components
  import opened Entities
  import opened Systems

  /** One iteration for a Walk entity. */
  function Step(t: Tables, e: Entity): Tables {
    var walk := GetComponentMutAs(t, e, K.Walk);
    var position := GetComponentMutAs(t, e, K.Position);
    if walk.Some? && position.Some? && !(walk.value.dx == 0 && walk.value.dy == 0) then
      Added(t, e, Position(position.value.x + walk.value.dx, position.value.y + walk.value.dy))
    else t
  }

  function Run(t: Tables, order: seq<Entity>): Tables
    decreases |order|
  {
    if order == [] then t else Step(Run(t, order[..|order| - 1]), order[|order| - 1])
  }

  /**
   * The Position lookup of `e` after its iteration: shifted by a non-zero
   * walk, otherwise whatever it was.
   */
  function Moved(t: Tables, e: Entity): Option<Component> {
    var walk := GetComponentMutAs(t, e, K.Walk);
    var position := GetComponentMutAs(t, e, K.Position);
    if walk.Some? && position.Some? && !(walk.value.dx == 0 && walk.value.dy == 0) then
      Some(Position(position.value.x + walk.value.dx, position.value.y + walk.value.dy))
    else GetComponentMut(t, e, K.Position)
  }

  /** One iteration moves only the visited entity, to `Moved`. */
  lemma StepMovesOne(t: Tables, e: Entity)
    requires WellTyped(t)
    ensures WellTyped(Step(t, e))
    ensures forall k | k != K.Position :: SameTable(t, Step(t, e), k)
    ensures K.Position in t <==> K.Position in Step(t, e)
    ensures forall x ::
      GetComponentMut(Step(t, e), x, K.Position) ==
      (if x == e then Moved(t, e) else GetComponentMut(t, x, K.Position))
  {
  }

  /** `Moved` reads only the entity's own Walk and Position. */
  lemma MovedReadsOwnRow(t: Tables, m: Tables, e: Entity)
    requires GetComponentMut(m, e, K.Walk) == GetComponentMut(t, e, K.Walk)
    requires GetComponentMut(m, e, K.Position) == GetComponentMut(t, e, K.Position)
    ensures Moved(m, e) == Moved(t, e)
  {
  }

  /** The pass keeps the store well typed and every table but Position. */
  lemma {:induction false} RunKeepsOtherTables(t: Tables, order: seq<Entity>)
    requires WellTyped(t)
    ensures WellTyped(Run(t, order))
    ensures forall k | k != K.Position :: SameTable(t, Run(t, order), k)
    ensures K.Position in t <==> K.Position in Run(t, order)
    decreases |order|
  {
    if order != [] {
      var prefix, last := order[..|order| - 1], order[|order| - 1];
      RunKeepsOtherTables(t, prefix);
      var m := Run(t, prefix);
      StepMovesOne(m, last);
      forall k | k != K.Position ensures SameTable(t, Run(t, order), k) {
        assert SameTable(t, m, k) && SameTable(m, Step(m, last), k);
      }
    }
  }

  /**
   * Visited entities end at `Moved`; every other Position is unchanged
   * (Walks, and every other table, by `RunKeepsOtherTables`).
   */
  lemma {:induction false} RunMovesPositions(t: Tables, order: seq<Entity>)
    requires WellTyped(t) && Distinct(order)
    ensures forall e ::
      GetComponentMut(Run(t, order), e, K.Position) ==
      (if e in order then Moved(t, e) else GetComponentMut(t, e, K.Position))
    decreases |order|
  {
    if order != [] {
      var prefix, last := order[..|order| - 1], order[|order| - 1];
      DistinctPrefix(order);
      RunMovesPositions(t, prefix);
      RunKeepsOtherTables(t, prefix);
      var m := Run(t, prefix);
      StepMovesOne(m, last);
      assert SameTable(t, m, K.Walk);
      MovedReadsOwnRow(t, m, last);
      forall e ensures e in order <==> e in prefix || e == last {
        assert order == prefix + [last];
      }
    }
  }

  /** A zero walk never moves its entity. */
  lemma ZeroWalkStaysPut(t: Tables, e: Entity)
    requires HasComponent(t, e, K.Walk) && t[K.Walk][e] == Walk(0, 0)
    ensures Moved(t, e) == GetComponentMut(t, e, K.Position)
  {
  }

  /** The loop body of `process` for one entity. */
  method MoveOne(em: EntityManager, e: Entity)
    requires em.Valid()
    modifies em
    ensures em.Valid()
    ensures em.tables == Step(old(em.tables), e)
    ensures em.entities == old(em.entities) && em.names == old(em.names)
  {
    var walk := GetComponentMutAs(em.tables, e, K.Walk);
    var position := GetComponentMutAs(em.tables, e, K.Position);
    if walk.Some? && position.Some? && !(walk.value.dx == 0 && walk.value.dy == 0) {
      em.AddComponent(e, Position(position.value.x + walk.value.dx, position.value.y + walk.value.dy));
    }
  }

  /** `MoveSystem::process`, visiting the Walk table in the order `order`. */
  method Process(em: EntityManager, order: seq<Entity>)
    requires em.Valid()
    requires IsEnumeration(order, TableOf(em.tables, K.Walk).Keys)
    modifies em
    ensures em.Valid()
    ensures em.tables == Run(old(em.tables), order)
    ensures em.entities == old(em.entities) && em.names == old(em.names)
  {
    ghost var t0 := em.tables;
    var i := 0;
    while i < |order|
      invariant 0 <= i <= |order|
      invariant em.Valid()
      invariant em.tables == Run(t0, order[..i])
      invariant em.entities == old(em.entities) && em.names == old(em.names)
    {
      MoveOne(em, order[i]);
      assert order[..i + 1][..i] == order[..i];
      i := i + 1;
    }
    assert order[..i] == order;
  }
}
