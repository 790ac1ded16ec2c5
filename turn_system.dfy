/**
 * `TurnSystem`: an energy/speed scheduler. `process` charges every Energy
 * holder by its speed, handing back one turn length of energy to whoever
 * went negative; `process_turn` rotates the turn queue and passes the Turn
 * marker on. The queue is the system's `RefCell<VecDeque<Entity>>`.
 */
module TurnScheduling {
  import opened Common
  import K = Kinds
  import opened Components
  import opened Entities
  import opened Systems

  /** `turn_length`: the energy handed back to an entity that went negative. */
  const TurnLength := 24

  /**
   * The energy after one charge: `speed` subtracted, then one turn length
   * added back exactly when the result is negative.
   */
  function Recharged(amount: int, speed: int): (r: int)
    ensures r == amount - speed || r == amount - speed + TurnLength
    ensures r == amount - speed + TurnLength <==> amount - speed < 0
    ensures r >= 0 <==> amount - speed >= -TurnLength
  {
    var a := amount - speed;
    if a < 0 then a + TurnLength else a
  }

  /** With speed at most one turn length, energy stays within [0, TurnLength). */
  lemma RechargeKeepsWindow(amount: int, speed: int)
    requires 0 <= amount < TurnLength && 0 <= speed <= TurnLength
    ensures 0 <= Recharged(amount, speed) < TurnLength
  {
  }

  /** The entity's Speed, or 0 when it has none: such an entity is not charged. */
  function SpeedOf(t: Tables, e: Entity): int {
    var speed := GetComponentMutAs(t, e, K.Speed);
    if speed.Some? then speed.value.amount else 0
  }

  /** The Energy lookup of `e` after its own iteration of `process`. */
  function Charged(t: Tables, e: Entity): Option<Component> {
    var energy := GetComponentMutAs(t, e, K.Energy);
    if energy.Some? then Some(Energy(Recharged(energy.value.amount, SpeedOf(t, e))))
    else GetComponentMut(t, e, K.Energy)
  }

  /**
   * One iteration of `process`. The Speed read is the immutable
   * `get_component!`; whenever it returns it reads the Speed table itself.
   */
  function Step(t: Tables, e: Entity): Tables {
    var speed := GetComponentMutAs(t, e, K.Speed);
    var energy := GetComponentMutAs(t, e, K.Energy);
    if energy.Some? then
      var amount := if speed.Some? then energy.value.amount - speed.value.amount else energy.value.amount;
      Added(t, e, Energy(if amount < 0 then amount + TurnLength else amount))
    else t
  }

  function Run(t: Tables, order: seq<Entity>): Tables
    decreases |order|
  {
    if order == [] then t else Step(Run(t, order[..|order| - 1]), order[|order| - 1])
  }

  /** One iteration changes only the visitor's Energy, to `Charged`. */
  lemma StepChargesOne(t: Tables, e: Entity)
    requires WellTyped(t)
    ensures WellTyped(Step(t, e))
    ensures forall k | k != K.Energy :: SameTable(t, Step(t, e), k)
    ensures forall x ::
      GetComponentMut(Step(t, e), x, K.Energy) ==
      (if x == e then Charged(t, e) else GetComponentMut(t, x, K.Energy))
  {
    var energy := GetComponentMutAs(t, e, K.Energy);
    if energy.Some? {
      var c := Energy(Recharged(energy.value.amount, SpeedOf(t, e)));
      assert Step(t, e) == Added(t, e, c);
      AddedSetsOneLookup(t, e, c);
    }
  }

  /** `Charged` reads only the visitor's own Energy and Speed. */
  lemma ChargedReadsOwnRow(t: Tables, m: Tables, e: Entity)
    requires GetComponentMut(m, e, K.Energy) == GetComponentMut(t, e, K.Energy)
    requires GetComponentMut(m, e, K.Speed) == GetComponentMut(t, e, K.Speed)
    ensures Charged(m, e) == Charged(t, e)
  {
  }

  /** The pass keeps the store well typed and every table but Energy. */
  lemma {:induction false} RunKeepsOtherTables(t: Tables, order: seq<Entity>)
    requires WellTyped(t)
    ensures WellTyped(Run(t, order))
    ensures forall k | k != K.Energy :: SameTable(t, Run(t, order), k)
    decreases |order|
  {
    if order != [] {
      var prefix, last := order[..|order| - 1], order[|order| - 1];
      RunKeepsOtherTables(t, prefix);
      var m := Run(t, prefix);
      StepChargesOne(m, last);
      forall k | k != K.Energy ensures SameTable(t, Run(t, order), k) {
        assert SameTable(t, m, k) && SameTable(m, Step(m, last), k);
      }
    }
  }

  /**
   * After the pass each visited entity's Energy is `Charged`: its speed
   * subtracted, one turn length added back when negative. Every other
   * Energy is as before.
   */
  lemma {:induction false} RunChargesEnergy(t: Tables, order: seq<Entity>)
    requires WellTyped(t) && Distinct(order)
    ensures forall x ::
      GetComponentMut(Run(t, order), x, K.Energy) ==
      (if x in order then Charged(t, x) else GetComponentMut(t, x, K.Energy))
    decreases |order|
  {
    if order != [] {
      var prefix, last := order[..|order| - 1], order[|order| - 1];
      DistinctPrefix(order);
      RunChargesEnergy(t, prefix);
      RunKeepsOtherTables(t, prefix);
      var m := Run(t, prefix);
      StepChargesOne(m, last);
      assert SameTable(t, m, K.Speed);
      ChargedReadsOwnRow(t, m, last);
      assert order == prefix + [last];
      forall x ensures GetComponentMut(Run(t, order), x, K.Energy) ==
        (if x in order then Charged(t, x) else GetComponentMut(t, x, K.Energy))
      {
        assert x in order <==> x in prefix || x == last;
      }
    }
  }

  /** Every Energy is in [0, TurnLength) and every Speed in [0, TurnLength]. */
  ghost predicate EnergyInWindow(t: Tables) {
    (forall e | HasComponent(t, e, K.Energy) && t[K.Energy][e].Energy? ::
      0 <= t[K.Energy][e].amount < TurnLength) &&
    (forall e | HasComponent(t, e, K.Speed) && t[K.Speed][e].Speed? ::
      0 <= t[K.Speed][e].amount <= TurnLength)
  }

  /** A full pass keeps every energy within [0, TurnLength) while speeds stay within a turn length. */
  lemma RunKeepsEnergyInWindow(t: Tables, order: seq<Entity>)
    requires WellTyped(t) && Distinct(order) && EnergyInWindow(t)
    ensures EnergyInWindow(Run(t, order))
  {
    RunChargesEnergy(t, order);
    RunKeepsOtherTables(t, order);
    var r := Run(t, order);
    forall e | HasComponent(r, e, K.Energy) && r[K.Energy][e].Energy?
      ensures 0 <= r[K.Energy][e].amount < TurnLength
    {
      assert GetComponentMut(r, e, K.Energy) == Some(r[K.Energy][e]);
      if e in order && HasComponent(t, e, K.Energy) {
        RechargeKeepsWindow(t[K.Energy][e].amount, SpeedOf(t, e));
      }
    }
    assert SameTable(t, r, K.Speed);
  }

  /** The queue rotated right by one: the last entity comes to the front. */
  function RotatedRight(q: seq<Entity>): (r: seq<Entity>)
    requires q != []
    ensures |r| == |q| && r[0] == q[|q| - 1]
    ensures forall i | 0 <= i < |q| - 1 :: r[i + 1] == q[i]
    ensures multiset(r) == multiset(q)
  {
    var r := [q[|q| - 1]] + q[..|q| - 1];
    assert q == q[..|q| - 1] + [q[|q| - 1]];
    r
  }

  /** Turn taken from `current` and given to `next`. */
  function TurnMoved(t: Tables, current: Entity, next: Entity): Tables {
    Added(Removed(t, current, K.Turn), next, Turn)
  }

  /** Moving Turn leaves every other table as it was. */
  lemma TurnMovedKeepsTable(t: Tables, current: Entity, next: Entity, k: K.Kind)
    requires k != K.Turn
    ensures SameTable(t, TurnMoved(t, current, next), k)
  {
    assert KindOf(Turn) == K.Turn;
    assert SameTable(t, Removed(t, current, K.Turn), k);
  }

  /**
   * The hand-off as evidently intended: Turn leaves `current` and goes to
   * `next`, whose Energy then grows by its Speed.
   */
  function HandedOver(t: Tables, current: Entity, next: Entity): Tables
    requires GetComponentMutAs(t, next, K.Energy).Some? && GetComponentMutAs(t, next, K.Speed).Some?
  {
    var energy := GetComponentMutAs(t, next, K.Energy).value.amount;
    Added(TurnMoved(t, current, next), next, Energy(energy + GetComponentMutAs(t, next, K.Speed).value.amount))
  }

  /** The hand-off takes Turn from `current` and gives it to `next`. */
  lemma HandOverMovesTurn(t: Tables, current: Entity, next: Entity)
    requires GetComponentMutAs(t, next, K.Energy).Some? && GetComponentMutAs(t, next, K.Speed).Some?
    ensures TableOf(HandedOver(t, current, next), K.Turn).Keys == TableOf(t, K.Turn).Keys - {current} + {next}
  {
    var t1 := Removed(t, current, K.Turn);
    var t2 := TurnMoved(t, current, next);
    assert KindOf(Turn) == K.Turn;
    assert TableOf(t1, K.Turn).Keys == TableOf(t, K.Turn).Keys - {current};
    assert TableOf(t2, K.Turn).Keys == TableOf(t1, K.Turn).Keys + {next};
    assert SameTable(t2, HandedOver(t, current, next), K.Turn);
  }

  /** The hand-off adds `next`'s speed to its energy and changes no other Energy. */
  lemma HandOverCharges(t: Tables, current: Entity, next: Entity)
    requires GetComponentMutAs(t, next, K.Energy).Some? && GetComponentMutAs(t, next, K.Speed).Some?
    ensures forall x ::
      GetComponentMut(HandedOver(t, current, next), x, K.Energy) ==
      (if x == next then Some(Energy(t[K.Energy][next].amount + t[K.Speed][next].amount))
       else GetComponentMut(t, x, K.Energy))
  {
    TurnMovedKeepsTable(t, current, next, K.Energy);
    AddedSetsOneLookup(TurnMoved(t, current, next), next, Energy(t[K.Energy][next].amount + t[K.Speed][next].amount));
  }

  /** The hand-off changes no table but Turn and Energy. */
  lemma HandOverKeepsOtherTables(t: Tables, current: Entity, next: Entity)
    requires GetComponentMutAs(t, next, K.Energy).Some? && GetComponentMutAs(t, next, K.Speed).Some?
    ensures forall k | k != K.Turn && k != K.Energy :: SameTable(t, HandedOver(t, current, next), k)
  {
    var t2 := TurnMoved(t, current, next);
    var r := HandedOver(t, current, next);
    forall k | k != K.Turn && k != K.Energy ensures SameTable(t, r, k) {
      TurnMovedKeepsTable(t, current, next, k);
      assert SameTable(t2, r, k);
    }
  }

  /** If exactly one entity held Turn before the hand-off, exactly one holds it after: `next`. */
  lemma HandOverKeepsOneTurn(t: Tables, current: Entity, next: Entity)
    requires GetComponentMutAs(t, next, K.Energy).Some? && GetComponentMutAs(t, next, K.Speed).Some?
    requires TableOf(t, K.Turn).Keys == {current}
    ensures TableOf(HandedOver(t, current, next), K.Turn).Keys == {next}
  {
    HandOverMovesTurn(t, current, next);
  }

  datatype TurnOutcome = NoHandOff | BorrowPanic

  /**
   * `process_turn` as written: the shared borrow of the queue taken for
   * `front()` is still held when `borrow_mut()` is called for the rotation,
   * so every call that reaches the rotation panics. The front's Energy is
   * unwrapped, hence the requirement.
   */
  function ProcessTurnAsWritten(queue: seq<Entity>, t: Tables): (r: TurnOutcome)
    requires queue != [] ==> GetComponentMutAs(t, queue[0], K.Energy).Some?
    ensures r == BorrowPanic <==> queue != [] && t[K.Energy][queue[0]].amount <= 0
  {
    if queue == [] then NoHandOff
    else if GetComponentMutAs(t, queue[0], K.Energy).value.amount <= 0 then BorrowPanic
    else NoHandOff
  }

  /** One spent entity in the queue is enough to make the as-written hand-off panic. */
  lemma AsWrittenPanicsOnSpentFront()
    ensures ProcessTurnAsWritten([0], map[K.Energy := map[0 := Energy(0)]]) == BorrowPanic
  {
    var t := map[K.Energy := map[0 := Energy(0)]];
    assert GetComponentMutAs(t, 0, K.Energy) == Some(Energy(0));
  }

  class TurnSystem {
    /** The turn queue; its front holds the turn. */
    var queue: seq<Entity>

    constructor ()
      ensures queue == []
    {
      queue := [];
    }

    /** `mount`: every entity that has Energy now is appended at the back, once each. */
    method Mount(em: EntityManager)
      modifies this
      ensures old(queue) <= queue
      ensures IsEnumeration(queue[|old(queue)|..], TableOf(em.tables, K.Energy).Keys)
    {
      var living := em.GetEntitiesWithComponents(K.Energy);
      var i := 0;
      while i < |living|
        invariant 0 <= i <= |living|
        invariant queue == old(queue) + living[..i]
      {
        queue := queue + [living[i]];
        assert living[..i + 1] == living[..i] + [living[i]];
        i := i + 1;
      }
      assert living[..i] == living;
      assert queue[|old(queue)|..] == living;
    }

    /**
     * `process`, visiting the Energy table in `order`. The queue and the
     * Turn marker are not touched; each visited Speed lookup must return.
     */
    method Process(em: EntityManager, order: seq<Entity>)
      requires em.Valid()
      requires IsEnumeration(order, TableOf(em.tables, K.Energy).Keys)
      requires forall e | e in order :: Resolves(em.tables, e, K.Speed)
      modifies em
      ensures em.Valid()
      ensures em.tables == Run(old(em.tables), order)
      ensures em.entities == old(em.entities) && em.names == old(em.names)
    {
      ghost var t0 := em.tables;
      var i := 0;
      while i < |order|
        invariant 0 <= i <= |order|
        invariant em.Valid()
        invariant em.tables == Run(t0, order[..i])
        invariant em.entities == old(em.entities) && em.names == old(em.names)
      {
        Charge(em, order[i]);
        assert order[..i + 1][..i] == order[..i];
        i := i + 1;
      }
      assert order[..i] == order;
    }

    /** The loop body of `process` for one Energy holder. */
    static method Charge(em: EntityManager, e: Entity)
      requires em.Valid()
      modifies em
      ensures em.Valid()
      ensures em.tables == Step(old(em.tables), e)
      ensures em.entities == old(em.entities) && em.names == old(em.names)
    {
      var speed := GetComponentMutAs(em.tables, e, K.Speed);
      var energy := GetComponentMutAs(em.tables, e, K.Energy);
      if energy.Some? {
        var amount := energy.value.amount;
        if speed.Some? {
          amount := amount - speed.value.amount;
        }
        if amount < 0 {
          amount := amount + TurnLength;
        }
        em.AddComponent(e, Energy(amount));
      }
    }

    /** The Turn move of `process_turn`. */
    static method MoveTurn(em: EntityManager, current: Entity, next: Entity)
      requires em.Valid()
      modifies em
      ensures em.Valid()
      ensures em.tables == TurnMoved(old(em.tables), current, next)
      ensures em.entities == old(em.entities) && em.names == old(em.names)
    {
      var _ := em.RemoveComponent(current, K.Turn);
      em.AddComponent(next, Turn);
    }

    /** The hand-off half of `process_turn`, once the new front is known. */
    static method HandOver(em: EntityManager, current: Entity, next: Entity)
      requires em.Valid()
      requires GetComponentMutAs(em.tables, next, K.Energy).Some? && GetComponentMutAs(em.tables, next, K.Speed).Some?
      modifies em
      ensures em.Valid()
      ensures em.tables == HandedOver(old(em.tables), current, next)
      ensures em.entities == old(em.entities) && em.names == old(em.names)
    {
      ghost var t := em.tables;
      MoveTurn(em, current, next);
      TurnMovedKeepsTable(t, current, next, K.Energy);
      TurnMovedKeepsTable(t, current, next, K.Speed);
      var speed := GetComponentMutAs(em.tables, next, K.Speed).value.amount;
      var energy := GetComponentMutAs(em.tables, next, K.Energy).value.amount;
      em.AddComponent(next, Energy(energy + speed));
    }

    /**
     * `process_turn` as evidently intended (without the conflicting
     * borrow): while the front still has energy nothing happens; once it is
     * spent the queue rotates right, Turn moves to the new front and the new
     * front gains its speed. The Energy and Speed it unwraps must exist.
     */
    method ProcessTurn(em: EntityManager)
      requires em.Valid()
      requires queue != [] ==> GetComponentMutAs(em.tables, queue[0], K.Energy).Some?
      requires queue != [] && em.tables[K.Energy][queue[0]].amount <= 0 ==>
        GetComponentMutAs(em.tables, queue[|queue| - 1], K.Energy).Some? &&
        GetComponentMutAs(em.tables, queue[|queue| - 1], K.Speed).Some?
      modifies this, em
      ensures em.Valid()
      ensures old(queue) == [] || old(em.tables)[K.Energy][old(queue)[0]].amount > 0 ==>
        queue == old(queue) && em.tables == old(em.tables)
      ensures old(queue) != [] && old(em.tables)[K.Energy][old(queue)[0]].amount <= 0 ==>
        queue == RotatedRight(old(queue)) &&
        em.tables == HandedOver(old(em.tables), old(queue)[0], queue[0])
      ensures em.entities == old(em.entities) && em.names == old(em.names)
    {
      if queue == [] {
        return;
      }
      var current := queue[0];
      var energy := GetComponentMutAs(em.tables, current, K.Energy).value;
      if energy.amount <= 0 {
        queue := [queue[|queue| - 1]] + queue[..|queue| - 1];
        HandOver(em, current, queue[0]);
      }
    }
  }
}
