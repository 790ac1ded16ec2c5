/**
 * The legacy `InputSystem::process`: at most one pending key is taken from
 * the input thread's channel; a move key shifts the Position of every
 * entity with an Input component by the key's delta. The pending key is a
 * parameter (`None` when the channel is empty) and the Input table's
 * iteration order is the parameter `order`.
 */
module LegacyInputSystem {
  import opened Common
  import K = Kinds
  import opened Components
  import opened Entities
  import InputKeys
  import WalkSystem

  /** A position component shifted by (dx, dy); anything else is left alone. */
  function Moved(c: Option<Component>, dx: int, dy: int): (r: Option<Component>)
    ensures r.Some? <==> c.Some?
    ensures c.Some? && c.value.Position? ==>
      r.value.Position? && r.value.x - c.value.x == dx && r.value.y - c.value.y == dy
    ensures dx == 0 && dy == 0 ==> r == c
  {
    if c.Some? && c.value.Position? then Some(Position(c.value.x + dx, c.value.y + dy)) else c
  }

  /** One iteration of the move loop, on entity `e`. */
  function Step(t: Tables, e: Entity, dx: int, dy: int): Tables {
    var p := GetComponentMut(t, e, K.Position);
    if p.Some? && p.value.Position? then Added(t, e, Moved(p, dx, dy).value) else t
  }

  /** The move loop over `order`. */
  function ShiftAll(t: Tables, order: seq<Entity>, dx: int, dy: int): Tables
    decreases |order|
  {
    if order == [] then t else Step(ShiftAll(t, order[..|order| - 1], dx, dy), order[|order| - 1], dx, dy)
  }

  /** The loop over one more entity is one more step. */
  lemma ShiftAllSnoc(t: Tables, order: seq<Entity>, i: nat, dx: int, dy: int)
    requires i < |order|
    ensures ShiftAll(t, order[..i + 1], dx, dy) == Step(ShiftAll(t, order[..i], dx, dy), order[i], dx, dy)
  {
    assert order[..i + 1][..i] == order[..i];
  }

  /** The whole of `process` on the tables, given the pending key. */
  function Processed(t: Tables, received: Option<int>, order: seq<Entity>): Tables {
    if received.Some? then
      match InputKeys.HandleInput(received.value)
      case Some(MovePlayer(dx, dy)) => ShiftAll(t, order, dx, dy)
      case _ => t
    else t
  }

  /** `process` is about to shift positions: a move key is pending. */
  predicate MoveReceived(received: Option<int>) {
    received.Some? && InputKeys.HandleInput(received.value).Some? &&
    InputKeys.HandleInput(received.value).value.MovePlayer?
  }

  /** Every Input entity has a Position; a move key panics otherwise. */
  predicate InputsHavePositions(t: Tables) {
    forall e | e in TableOf(t, K.Input) :: HasComponent(t, e, K.Position)
  }

  /**
   * The loop moves the Position of each visited entity once, and no other
   * lookup changes.
   */
  lemma {:induction false} ShiftAllLookup(t: Tables, order: seq<Entity>, dx: int, dy: int, e: Entity, k: K.Kind)
    requires Distinct(order)
    ensures GetComponentMut(ShiftAll(t, order, dx, dy), e, k) ==
      if k == K.Position && e in order then Moved(GetComponentMut(t, e, k), dx, dy)
      else GetComponentMut(t, e, k)
    decreases |order|
  {
    if order != [] {
      var prefix, last := order[..|order| - 1], order[|order| - 1];
      DistinctPrefix(order);
      var m := ShiftAll(t, prefix, dx, dy);
      ShiftAllLookup(t, prefix, dx, dy, e, k);
      ShiftAllLookup(t, prefix, dx, dy, last, K.Position);
      var p := GetComponentMut(m, last, K.Position);
      if p.Some? && p.value.Position? {
        AddedLookup(m, last, Moved(p, dx, dy).value, e, k);
      }
    }
  }

  /**
   * What `process` does to any lookup: the Input entities' positions move
   * by the Walk system's delta of the pending key, which is zero for quit,
   * for an unmapped key and when no key is pending; nothing else changes.
   */
  lemma ProcessedLookup(t: Tables, received: Option<int>, order: seq<Entity>, e: Entity, k: K.Kind)
    requires Distinct(order)
    ensures var d := if received.Some? then WalkSystem.KeyDelta(received.value) else (0, 0);
      GetComponentMut(Processed(t, received, order), e, k) ==
      if k == K.Position && e in order then Moved(GetComponentMut(t, e, k), d.0, d.1)
      else GetComponentMut(t, e, k)
  {
    if MoveReceived(received) {
      InputKeys.MovesAgreeWithWalk(received.value);
      var ev := InputKeys.HandleInput(received.value).value;
      ShiftAllLookup(t, order, ev.dx, ev.dy, e, k);
    } else if received.Some? {
      InputKeys.MovesAgreeWithWalk(received.value);
    }
  }

  /** `InputSystem::process`. */
  method Process(em: EntityManager, received: Option<int>, order: seq<Entity>)
    requires em.Valid()
    requires IsEnumeration(order, TableOf(em.tables, K.Input).Keys)
    requires MoveReceived(received) ==> InputsHavePositions(em.tables)
    modifies em
    ensures em.Valid()
    ensures em.tables == Processed(old(em.tables), received, order)
    ensures em.entities == old(em.entities) && em.names == old(em.names)
  {
    if received.Some? {
      var event := InputKeys.HandleInput(received.value);
      if event.Some? && event.value.MovePlayer? {
        ShiftPositions(em, order, event.value.dx, event.value.dy);
      }
    }
  }

  /** On an entity with a Position, one iteration adds the shifted Position. */
  lemma StepMoves(t: Tables, e: Entity, dx: int, dy: int)
    requires WellTyped(t) && HasComponent(t, e, K.Position)
    ensures GetComponentMut(t, e, K.Position).Some? && GetComponentMut(t, e, K.Position).value.Position?
    ensures var p := GetComponentMut(t, e, K.Position).value;
      Step(t, e, dx, dy) == Added(t, e, Position(p.x + dx, p.y + dy))
  {
  }

  /** One iteration takes no Position away. */
  lemma StepKeepsPositions(t: Tables, e: Entity, dx: int, dy: int, rest: seq<Entity>)
    requires WellTyped(t) && HasComponent(t, e, K.Position)
    requires forall x | x in rest :: HasComponent(t, x, K.Position)
    ensures forall x | x in rest :: HasComponent(Step(t, e, dx, dy), x, K.Position)
  {
    StepMoves(t, e, dx, dy);
    var p := GetComponentMut(t, e, K.Position).value;
    forall x | x in rest
      ensures HasComponent(Step(t, e, dx, dy), x, K.Position)
    {
      AddedKeepsHas(t, e, Position(p.x + dx, p.y + dy), x, K.Position);
    }
  }

  /** The move loop: every entity of `order` must have a Position. */
  method ShiftPositions(em: EntityManager, order: seq<Entity>, dx: int, dy: int)
    requires em.Valid()
    requires forall e | e in order :: HasComponent(em.tables, e, K.Position)
    modifies em
    ensures em.Valid()
    ensures em.tables == ShiftAll(old(em.tables), order, dx, dy)
    ensures em.entities == old(em.entities) && em.names == old(em.names)
  {
    ghost var t0 := em.tables;
    var i := 0;
    while i < |order|
      invariant 0 <= i <= |order|
      invariant em.Valid()
      invariant em.tables == ShiftAll(t0, order[..i], dx, dy)
      invariant forall x | x in order[i..] :: HasComponent(em.tables, x, K.Position)
      invariant em.entities == old(em.entities) && em.names == old(em.names)
    {
      var e := order[i];
      StepMoves(em.tables, e, dx, dy);
      ShiftAllSnoc(t0, order, i, dx, dy);
      StepKeepsPositions(em.tables, e, dx, dy, order[i + 1..]);
      var p := GetComponentMut(em.tables, e, K.Position);
      em.AddComponent(e, Position(p.value.x + dx, p.value.y + dy));
      i := i + 1;
    }
    assert order[..i] == order;
  }
}
