/**
 * `AttackSystem`: every Event that is a collision with an entity that has
 * Health puts a Damage on that entity, of a random amount in 1 ..= 3 and
 * targeted at the entity itself. The draw `gen_range(1, 4)` made for the
 * i-th visited event is `rolls[i]`.
 */
module AttackSystem {
  import opened Common
  import K = Kinds
  import opened Components
  import opened Entities
  import opened Systems

  /** Every draw lies in the half-open range [1, 4). */
  predicate ValidRolls(rolls: seq<int>) {
    forall i | 0 <= i < |rolls| :: 1 <= rolls[i] < 4
  }

  /** The entity `e`'s event attacks: its collider, when that one has Health. */
  function Target(t: Tables, e: Entity): Option<Entity> {
    var event := GetComponentMutAs(t, e, K.Event);
    if event.Some? && event.value.event.Collision? &&
       HasComponent(t, event.value.event.collider, K.Health)
    then Some(event.value.event.collider)
    else None
  }

  function Step(t: Tables, e: Entity, roll: int): Tables {
    match Target(t, e)
    case None => t
    case Some(c) => Added(t, c, Damage(roll, Some(c)))
  }

  function Run(t: Tables, order: seq<Entity>, rolls: seq<int>): Tables
    requires |rolls| == |order|
    decreases |order|
  {
    if order == [] then t
    else
      var n := |order| - 1;
      Step(Run(t, order[..n], rolls[..n]), order[n], rolls[n])
  }

  /** What each visited event attacks, in visiting order. */
  function Attacks(t: Tables, order: seq<Entity>): (a: seq<Option<Entity>>)
    ensures |a| == |order| && forall i | 0 <= i < |order| :: a[i] == Target(t, order[i])
  {
    seq(|order|, i requires 0 <= i < |order| => Target(t, order[i]))
  }

  /**
   * The index of the last visited event that attacks `x`: a later attack
   * overwrites the Damage an earlier one added.
   */
  function LastAttack(t: Tables, order: seq<Entity>, x: Entity): (r: Option<nat>)
    ensures r.None? <==> forall i | 0 <= i < |order| :: Target(t, order[i]) != Some(x)
    ensures r.Some? ==> (r.value < |order| && Target(t, order[r.value]) == Some(x) &&
      forall i | r.value < i < |order| :: Target(t, order[i]) != Some(x))
  {
    LastIndexOf(Attacks(t, order), Some(x))
  }

  /** Extending the visited events by one: the new one wins if it attacks `x`. */
  lemma LastAttackStep(t: Tables, order: seq<Entity>, x: Entity)
    requires order != []
    ensures LastAttack(t, order, x) ==
      if Target(t, order[|order| - 1]) == Some(x) then Some(|order| - 1)
      else LastAttack(t, order[..|order| - 1], x)
  {
    var n := |order| - 1;
    assert forall i | 0 <= i < n :: order[..n][i] == order[i];
  }

  /** One iteration keeps the store well typed and every table but Damage. */
  lemma StepKeepsOtherTables(t: Tables, e: Entity, roll: int)
    requires WellTyped(t)
    ensures WellTyped(Step(t, e, roll))
    ensures forall k | k != K.Damage :: SameTable(t, Step(t, e, roll), k)
  {
  }

  /** One iteration sets the Damage of what `e` attacks, and nothing else. */
  lemma StepAttacks(t: Tables, e: Entity, roll: int)
    ensures forall x ::
      GetComponentMut(Step(t, e, roll), x, K.Damage) ==
      (if Target(t, e) == Some(x) then Some(Damage(roll, Some(x))) else GetComponentMut(t, x, K.Damage))
  {
  }

  /** `Target` reads only the Event and Health tables. */
  lemma TargetReadsEventsAndHealth(t: Tables, m: Tables, e: Entity)
    requires SameTable(t, m, K.Event) && SameTable(t, m, K.Health)
    ensures Target(m, e) == Target(t, e)
  {
  }

  /** The pass keeps the store well typed and every table but Damage. */
  lemma {:induction false} RunKeepsOtherTables(t: Tables, order: seq<Entity>, rolls: seq<int>)
    requires WellTyped(t) && |rolls| == |order|
    ensures WellTyped(Run(t, order, rolls))
    ensures forall k | k != K.Damage :: SameTable(t, Run(t, order, rolls), k)
    decreases |order|
  {
    if order != [] {
      var n := |order| - 1;
      RunKeepsOtherTables(t, order[..n], rolls[..n]);
      var m := Run(t, order[..n], rolls[..n]);
      StepKeepsOtherTables(m, order[n], rolls[n]);
      forall k | k != K.Damage ensures SameTable(t, Run(t, order, rolls), k) {
        assert SameTable(t, m, k) && SameTable(m, Step(m, order[n], rolls[n]), k);
      }
    }
  }

  /**
   * An entity some visited event attacks holds Damage(draw of the last
   * such event, itself); every other Damage is unchanged.
   */
  lemma {:induction false} RunDamagesColliders(t: Tables, order: seq<Entity>, rolls: seq<int>)
    requires WellTyped(t) && |rolls| == |order|
    ensures forall x ::
      GetComponentMut(Run(t, order, rolls), x, K.Damage) ==
      match LastAttack(t, order, x)
      case Some(j) => Some(Damage(rolls[j], Some(x)))
      case None => GetComponentMut(t, x, K.Damage)
    decreases |order|
  {
    if order != [] {
      var n := |order| - 1;
      RunDamagesColliders(t, order[..n], rolls[..n]);
      RunKeepsOtherTables(t, order[..n], rolls[..n]);
      var m := Run(t, order[..n], rolls[..n]);
      StepAttacks(m, order[n], rolls[n]);
      TargetReadsEventsAndHealth(t, m, order[n]);
      forall x ensures LastAttack(t, order, x) ==
        if Target(t, order[n]) == Some(x) then Some(n) else LastAttack(t, order[..n], x)
      {
        LastAttackStep(t, order, x);
      }
      assert forall i | 0 <= i < n :: rolls[..n][i] == rolls[i];
    }
  }

  /** With valid draws every Damage the pass writes is 1, 2 or 3, aimed at its holder, who has Health. */
  lemma AttackDamageInRange(t: Tables, order: seq<Entity>, rolls: seq<int>, x: Entity)
    requires WellTyped(t) && |rolls| == |order| && ValidRolls(rolls)
    requires LastAttack(t, order, x).Some?
    ensures HasComponent(Run(t, order, rolls), x, K.Damage)
    ensures Run(t, order, rolls)[K.Damage][x].Damage?
    ensures 1 <= Run(t, order, rolls)[K.Damage][x].amount <= 3
    ensures Run(t, order, rolls)[K.Damage][x].target == Some(x)
    ensures HasComponent(Run(t, order, rolls), x, K.Health)
  {
    RunDamagesColliders(t, order, rolls);
    RunKeepsOtherTables(t, order, rolls);
    var j := LastAttack(t, order, x).value;
    assert GetComponentMut(Run(t, order, rolls), x, K.Damage) == Some(Damage(rolls[j], Some(x)));
    assert HasComponent(t, x, K.Health) && SameTable(t, Run(t, order, rolls), K.Health);
  }

  /** The loop body of `process` for one event holder. */
  method AttackFrom(em: EntityManager, e: Entity, roll: int)
    requires em.Valid()
    modifies em
    ensures em.Valid()
    ensures em.tables == Step(old(em.tables), e, roll)
    ensures em.entities == old(em.entities) && em.names == old(em.names)
  {
    var event := GetComponentMutAs(em.tables, e, K.Event);
    if event.Some? && event.value.event.Collision? {
      var collider := event.value.event.collider;
      if HasComponent(em.tables, collider, K.Health) {
        em.AddComponent(collider, Damage(roll, Some(collider)));
      }
    }
  }

  /** `AttackSystem::process`, visiting the Event table in the order `order`. */
  method Process(em: EntityManager, order: seq<Entity>, rolls: seq<int>)
    requires em.Valid()
    requires IsEnumeration(order, TableOf(em.tables, K.Event).Keys)
    requires |rolls| == |order| && ValidRolls(rolls)
    modifies em
    ensures em.Valid()
    ensures em.tables == Run(old(em.tables), order, rolls)
    ensures em.entities == old(em.entities) && em.names == old(em.names)
  {
    ghost var t0 := em.tables;
    var i := 0;
    while i < |order|
      invariant 0 <= i <= |order|
      invariant em.Valid()
      invariant em.tables == Run(t0, order[..i], rolls[..i])
      invariant em.entities == old(em.entities) && em.names == old(em.names)
    {
      AttackFrom(em, order[i], rolls[i]);
      assert order[..i + 1][..i] == order[..i];
      assert rolls[..i + 1][..i] == rolls[..i];
      i := i + 1;
    }
    assert order[..i] == order;
    assert rolls[..i] == rolls;
  }
}

/**
 * `DamageSystem`: every entity holding a Damage and a Health loses the
 * damage amount from its health and its Damage component; a line naming it
 * and the amount is appended to the Log of the first Player entity.
 */
module DamageSystem {
  import opened Common
  import K = Kinds
  import opened Components
  import opened Entities
  import opened Systems

  /** The Log line for an entity called `name` that took `amount`. */
  function TookDamage(name: string, amount: int): (m: string)
    ensures |m| > |name| + 13
    ensures m[..|name|] == name
    ensures m[|m| - 8..] == " damage."
  {
    name + " took " + IntToString(amount) + " damage."
  }

  /** The entity's Name, or its id written in decimal when it has none. */
  function DisplayName(t: Tables, e: Entity): (name: string)
    ensures HasComponent(t, e, K.Name) && t[K.Name][e].Name? ==> name == t[K.Name][e].name
    ensures !HasComponent(t, e, K.Name) ==> name == IntToString(e)
  {
    var n := GetComponentMutAs(t, e, K.Name);
    if n.Some? then n.value.name else IntToString(e)
  }

  /** The damage is applied: the entity holds both a Damage and a Health. */
  predicate Applies(t: Tables, e: Entity) {
    GetComponentMutAs(t, e, K.Damage).Some? && GetComponentMutAs(t, e, K.Health).Some?
  }

  /** The Health lookup of `e` after its own iteration. */
  function HealthAfter(t: Tables, e: Entity): Option<Component> {
    var damage := GetComponentMutAs(t, e, K.Damage);
    var health := GetComponentMutAs(t, e, K.Health);
    if damage.Some? && health.Some? then
      Some(Health(health.value.health - damage.value.amount, health.value.maxHealth))
    else GetComponentMut(t, e, K.Health)
  }

  /** The Log line `e`'s iteration writes: one when its damage is applied. */
  function Line(t: Tables, e: Entity): (ls: seq<string>)
    ensures |ls| <= 1
  {
    if Applies(t, e) then [TookDamage(DisplayName(t, e), GetComponentMutAs(t, e, K.Damage).value.amount)]
    else []
  }

  /** The tables once an applied damage has lowered the health and been removed. */
  function Applied(t: Tables, e: Entity): (r: Tables)
    requires Applies(t, e)
    ensures WellTyped(t) ==> WellTyped(r)
    ensures forall k | k != K.Health && k != K.Damage :: SameTable(t, r, k)
  {
    var damage := GetComponentMutAs(t, e, K.Damage).value;
    var health := GetComponentMutAs(t, e, K.Health).value;
    Removed(Added(t, e, Health(health.health - damage.amount, health.maxHealth)), e, K.Damage)
  }

  function Step(t: Tables, players: seq<Entity>, e: Entity): Tables {
    if Applies(t, e) then
      var amount := GetComponentMutAs(t, e, K.Damage).value.amount;
      if players != [] then Logged(Applied(t, e), players[0], TookDamage(DisplayName(t, e), amount))
      else Applied(t, e)
    else t
  }

  function Run(t: Tables, players: seq<Entity>, order: seq<Entity>): Tables
    decreases |order|
  {
    if order == [] then t else Step(Run(t, players, order[..|order| - 1]), players, order[|order| - 1])
  }

  /** The Log lines the pass writes, one per applied damage, in visiting order. */
  function Messages(t: Tables, order: seq<Entity>): (ms: seq<string>)
    ensures |ms| <= |order|
    decreases |order|
  {
    if order == [] then [] else Messages(t, order[..|order| - 1]) + Line(t, order[|order| - 1])
  }

  /** One iteration keeps the store well typed and every table but Health, Damage and Log. */
  lemma StepKeepsOtherTables(t: Tables, players: seq<Entity>, e: Entity)
    requires WellTyped(t)
    ensures WellTyped(Step(t, players, e))
    ensures forall k | k != K.Health && k != K.Damage && k != K.Log :: SameTable(t, Step(t, players, e), k)
  {
    if Applies(t, e) {
      var t1 := Applied(t, e);
      var r := Step(t, players, e);
      forall k | k != K.Health && k != K.Damage && k != K.Log ensures SameTable(t, r, k) {
        assert SameTable(t, t1, k) && SameTable(t1, r, k);
      }
    }
  }

  /** One iteration changes only the visitor's Health and Damage. */
  lemma StepAppliesOne(t: Tables, players: seq<Entity>, e: Entity)
    ensures forall x ::
      GetComponentMut(Step(t, players, e), x, K.Health) ==
      (if x == e then HealthAfter(t, e) else GetComponentMut(t, x, K.Health))
    ensures forall x ::
      GetComponentMut(Step(t, players, e), x, K.Damage) ==
      (if x == e && Applies(t, e) then None else GetComponentMut(t, x, K.Damage))
  {
    forall x
      ensures GetComponentMut(Step(t, players, e), x, K.Health) ==
        (if x == e then HealthAfter(t, e) else GetComponentMut(t, x, K.Health))
      ensures GetComponentMut(Step(t, players, e), x, K.Damage) ==
        (if x == e && Applies(t, e) then None else GetComponentMut(t, x, K.Damage))
    {
      StepAppliesOneAt(t, players, e, x);
    }
  }

  /** `StepAppliesOne` at one entity. */
  lemma StepAppliesOneAt(t: Tables, players: seq<Entity>, e: Entity, x: Entity)
    ensures GetComponentMut(Step(t, players, e), x, K.Health) ==
      (if x == e then HealthAfter(t, e) else GetComponentMut(t, x, K.Health))
    ensures GetComponentMut(Step(t, players, e), x, K.Damage) ==
      (if x == e && Applies(t, e) then None else GetComponentMut(t, x, K.Damage))
  {
    if Applies(t, e) {
      var t1 := Applied(t, e);
      var r := Step(t, players, e);
      assert GetComponentMut(r, x, K.Health) == (if x == e then HealthAfter(t, e) else GetComponentMut(t, x, K.Health)) by {
        AppliedSetsOwnRow(t, e);
        StepKeepsApplied(t, players, e, K.Health);
        assert GetComponentMut(r, x, K.Health) == GetComponentMut(t1, x, K.Health);
      }
      assert GetComponentMut(r, x, K.Damage) == (if x == e then None else GetComponentMut(t, x, K.Damage)) by {
        AppliedSetsOwnRow(t, e);
        StepKeepsApplied(t, players, e, K.Damage);
        assert GetComponentMut(r, x, K.Damage) == GetComponentMut(t1, x, K.Damage);
      }
    }
  }

  /** After an applied damage, logging the line touches no table but the Log table. */
  lemma StepKeepsApplied(t: Tables, players: seq<Entity>, e: Entity, k: K.Kind)
    requires Applies(t, e) && k != K.Log
    ensures SameTable(Applied(t, e), Step(t, players, e), k)
  {
  }

  /** The three shapes an iteration takes: nothing, the damage applied, or applied and logged. */
  lemma StepCases(t: Tables, players: seq<Entity>, e: Entity)
    ensures !Applies(t, e) ==> Step(t, players, e) == t
    ensures Applies(t, e) && players == [] ==> Step(t, players, e) == Applied(t, e)
    ensures Applies(t, e) && players != [] ==>
      Line(t, e) == [TookDamage(DisplayName(t, e), GetComponentMutAs(t, e, K.Damage).value.amount)] &&
      Step(t, players, e) == Logged(Applied(t, e), players[0], Line(t, e)[0])
  {
  }

  /** Applying lowers `e`'s Health by the amount and drops its Damage, and nothing else. */
  lemma AppliedSetsOwnRow(t: Tables, e: Entity)
    requires Applies(t, e)
    ensures forall x ::
      GetComponentMut(Applied(t, e), x, K.Health) ==
      (if x == e then HealthAfter(t, e) else GetComponentMut(t, x, K.Health))
    ensures forall x ::
      GetComponentMut(Applied(t, e), x, K.Damage) ==
      (if x == e then None else GetComponentMut(t, x, K.Damage))
  {
    var damage := GetComponentMutAs(t, e, K.Damage).value;
    var health := GetComponentMutAs(t, e, K.Health).value;
    var h := Health(health.health - damage.amount, health.maxHealth);
    AddedSetsOneLookup(t, e, h);
    assert KindOf(h) == K.Health;
  }

  /** One iteration pushes `Line` onto the first player's Log and no other. */
  lemma StepLogsOne(t: Tables, players: seq<Entity>, e: Entity)
    ensures forall x ::
      GetComponentMut(Step(t, players, e), x, K.Log) ==
      (if players != [] && x == players[0] then Appended(GetComponentMut(t, x, K.Log), Line(t, e))
       else GetComponentMut(t, x, K.Log))
  {
    StepCases(t, players, e);
    if Applies(t, e) {
      var t1 := Applied(t, e);
      assert SameTable(t, t1, K.Log);
      if players != [] {
        LoggedAppends(t1, players[0], Line(t, e)[0]);
      }
    } else if players != [] {
      AppendedNothing(GetComponentMut(t, players[0], K.Log));
    }
  }

  /** What `e`'s iteration does depends only on its own Damage, Health and Name. */
  lemma IterationReadsOwnRow(t: Tables, m: Tables, e: Entity)
    requires GetComponentMut(m, e, K.Damage) == GetComponentMut(t, e, K.Damage)
    requires GetComponentMut(m, e, K.Health) == GetComponentMut(t, e, K.Health)
    requires SameTable(t, m, K.Name)
    ensures Applies(m, e) == Applies(t, e)
    ensures HealthAfter(m, e) == HealthAfter(t, e)
    ensures Line(m, e) == Line(t, e)
  {
  }

  /** The pass keeps the store well typed and every table but Health, Damage and Log. */
  lemma {:induction false} RunKeepsOtherTables(t: Tables, players: seq<Entity>, order: seq<Entity>)
    requires WellTyped(t)
    ensures WellTyped(Run(t, players, order))
    ensures forall k | k != K.Health && k != K.Damage && k != K.Log :: SameTable(t, Run(t, players, order), k)
    decreases |order|
  {
    if order != [] {
      var prefix, last := order[..|order| - 1], order[|order| - 1];
      RunKeepsOtherTables(t, players, prefix);
      var m := Run(t, players, prefix);
      StepKeepsOtherTables(m, players, last);
      forall k | k != K.Health && k != K.Damage && k != K.Log ensures SameTable(t, Run(t, players, order), k) {
        assert SameTable(t, m, k) && SameTable(m, Step(m, players, last), k);
      }
    }
  }

  /**
   * After the pass each visited entity's Health lookup is `HealthAfter` and
   * it has lost its Damage if the damage applied; every other Health and
   * Damage is as before.
   */
  lemma {:induction false} RunAppliesDamage(t: Tables, players: seq<Entity>, order: seq<Entity>)
    requires Distinct(order)
    ensures forall x ::
      GetComponentMut(Run(t, players, order), x, K.Health) ==
      (if x in order then HealthAfter(t, x) else GetComponentMut(t, x, K.Health))
    ensures forall x ::
      GetComponentMut(Run(t, players, order), x, K.Damage) ==
      (if x in order && Applies(t, x) then None else GetComponentMut(t, x, K.Damage))
    decreases |order|
  {
    if order != [] {
      var prefix, last := order[..|order| - 1], order[|order| - 1];
      DistinctPrefix(order);
      RunAppliesDamage(t, players, prefix);
      var m := Run(t, players, prefix);
      StepAppliesOne(m, players, last);
      IterationHealthAndDamage(t, m, last);
      forall x ensures x in order <==> x in prefix || x == last {
        assert order == prefix + [last];
      }
    }
  }

  /** The frame facts `RunAppliesDamage` needs about the visitor's own row. */
  lemma IterationHealthAndDamage(t: Tables, m: Tables, e: Entity)
    requires GetComponentMut(m, e, K.Damage) == GetComponentMut(t, e, K.Damage)
    requires GetComponentMut(m, e, K.Health) == GetComponentMut(t, e, K.Health)
    ensures Applies(m, e) == Applies(t, e)
    ensures HealthAfter(m, e) == HealthAfter(t, e)
  {
  }

  /**
   * After the pass the first player's Log, if it has one, has gained
   * `Messages`, one line per applied damage in visiting order; every other
   * Log is unchanged.
   */
  lemma {:induction false} RunLogsDamage(t: Tables, players: seq<Entity>, order: seq<Entity>)
    requires WellTyped(t) && Distinct(order)
    ensures forall x ::
      GetComponentMut(Run(t, players, order), x, K.Log) ==
      (if players != [] && x == players[0] then Appended(GetComponentMut(t, x, K.Log), Messages(t, order))
       else GetComponentMut(t, x, K.Log))
    decreases |order|
  {
    if order == [] {
      forall x ensures Appended(GetComponentMut(t, x, K.Log), []) == GetComponentMut(t, x, K.Log) {
        AppendedNothing(GetComponentMut(t, x, K.Log));
      }
    } else {
      var prefix, last := order[..|order| - 1], order[|order| - 1];
      DistinctPrefix(order);
      RunLogsDamage(t, players, prefix);
      RunAppliesDamage(t, players, prefix);
      RunKeepsOtherTables(t, players, prefix);
      var m := Run(t, players, prefix);
      StepLogsOne(m, players, last);
      IterationReadsOwnRow(t, m, last);
      if players != [] {
        AppendedTwice(GetComponentMut(t, players[0], K.Log), Messages(t, prefix), Line(t, last));
      }
    }
  }

  /** Health lost by a damaged entity is exactly its Damage amount, and the Damage is gone. */
  lemma HealthLostIsDamageAmount(t: Tables, players: seq<Entity>, order: seq<Entity>, x: Entity)
    requires Distinct(order) && x in order && Applies(t, x)
    ensures HasComponent(Run(t, players, order), x, K.Health)
    ensures Run(t, players, order)[K.Health][x] ==
      Health(t[K.Health][x].health - t[K.Damage][x].amount, t[K.Health][x].maxHealth)
    ensures !HasComponent(Run(t, players, order), x, K.Damage)
  {
    RunAppliesDamage(t, players, order);
    assert GetComponentMut(Run(t, players, order), x, K.Health) == HealthAfter(t, x);
    assert GetComponentMut(Run(t, players, order), x, K.Damage) == None;
  }

  /** The first half of the loop body: apply the damage if there is a Health. */
  method Hurt(em: EntityManager, e: Entity, damage: Component) returns (damaged: Option<int>)
    requires em.Valid() && GetComponentMutAs(em.tables, e, K.Damage) == Some(damage)
    modifies em
    ensures em.Valid()
    ensures damaged == if Applies(old(em.tables), e) then Some(damage.amount) else None
    ensures em.tables == if Applies(old(em.tables), e) then Applied(old(em.tables), e) else old(em.tables)
    ensures em.entities == old(em.entities) && em.names == old(em.names)
  {
    damaged := None;
    var health := GetComponentMutAs(em.tables, e, K.Health);
    if health.Some? {
      em.AddComponent(e, Health(health.value.health - damage.amount, health.value.maxHealth));
      var _ := em.RemoveComponent(e, K.Damage);
      damaged := Some(damage.amount);
    }
  }

  /** The second half: push `line` onto the player's Log, if it has one. */
  method LogLine(em: EntityManager, player: Entity, line: string)
    requires em.Valid()
    modifies em
    ensures em.Valid()
    ensures em.tables == Logged(old(em.tables), player, line)
    ensures em.entities == old(em.entities) && em.names == old(em.names)
  {
    var log := GetComponentMutAs(em.tables, player, K.Log);
    if log.Some? {
      em.AddComponent(player, Log(log.value.history + [line]));
    }
  }

  /**
   * The loop body of `process` for one Damage holder; `players` lists the
   * Player table, and the source indexes it with `[0]` only after a damage
   * was applied.
   */
  method ApplyTo(em: EntityManager, players: seq<Entity>, e: Entity)
    requires em.Valid() && HasComponent(em.tables, e, K.Damage)
    requires Applies(em.tables, e) ==> players != []
    modifies em
    ensures em.Valid()
    ensures em.tables == Step(old(em.tables), players, e)
    ensures em.entities == old(em.entities) && em.names == old(em.names)
  {
    var damage := GetComponentMutAs(em.tables, e, K.Damage).value;
    var name := DisplayName(em.tables, e);
    var damaged := Hurt(em, e, damage);
    if damaged.Some? {
      var player := players[0];
      LogLine(em, player, TookDamage(name, damaged.value));
    }
  }

  /**
   * `DamageSystem::process`, visiting the Damage table in `order`. Each
   * visited entity's Name lookup must return, and a Player must exist as
   * soon as any damage is applied (the source indexes the Player list).
   */
  method Process(em: EntityManager, order: seq<Entity>, players: seq<Entity>)
    requires em.Valid()
    requires IsEnumeration(order, TableOf(em.tables, K.Damage).Keys)
    requires IsEnumeration(players, TableOf(em.tables, K.Player).Keys)
    requires forall e | e in order :: Resolves(em.tables, e, K.Name)
    requires (exists e | e in order :: Applies(em.tables, e)) ==> players != []
    modifies em
    ensures em.Valid()
    ensures em.tables == Run(old(em.tables), players, order)
    ensures em.entities == old(em.entities) && em.names == old(em.names)
  {
    ghost var t0 := em.tables;
    var i := 0;
    while i < |order|
      invariant 0 <= i <= |order|
      invariant em.Valid()
      invariant em.tables == Run(t0, players, order[..i])
      invariant em.entities == old(em.entities) && em.names == old(em.names)
    {
      var e := order[i];
      DistinctPrefix(order[..i + 1]);
      RunAppliesDamage(t0, players, order[..i]);
      assert order[..i + 1][..i] == order[..i];
      assert e !in order[..i];
      assert e in TableOf(t0, K.Damage).Keys;
      IterationHealthAndDamage(t0, em.tables, e);
      ApplyTo(em, players, e);
      i := i + 1;
    }
    assert order[..i] == order;
  }
}
