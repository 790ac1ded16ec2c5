/**
 * `LootSystem`: for every entity with a Position whose health has dropped
 * to zero or below, a new entity is created at that position carrying a
 * health potion: Render '!' on the item layer, Name "Potion of Health",
 * Item and Consumable. Entities without a Position are skipped.
 */
module LootSystem {
  import opened Common
  import K = Kinds
  import opened Components
  import opened Entities
  import opened Systems

  /** The tables and the live list of the store. */
  type State = (Tables, seq<Entity>)

  const PotionName: string := "Potion of Health"

  /** The kinds a loot entity is given. */
  predicate LootKind(k: K.Kind) {
    k == K.Position || k == K.Render || k == K.Name || k == K.Item || k == K.Consumable
  }

  /** `id` holds the loot components, its Position lookup giving `pos`. */
  predicate IsLoot(t: Tables, id: Entity, pos: Option<Component>) {
    GetComponentMut(t, id, K.Position) == pos &&
    GetComponentMut(t, id, K.Render) == Some(Render('!', ItemLayer)) &&
    GetComponentMut(t, id, K.Name) == Some(Name(PotionName)) &&
    GetComponentMut(t, id, K.Item) == Some(Item) &&
    GetComponentMut(t, id, K.Consumable) == Some(Consumable)
  }

  /** `r` differs from `t` at most in the loot kinds of `id`. */
  ghost predicate SameOutsideLootOf(t: Tables, r: Tables, id: Entity) {
    forall k, x | x != id || !LootKind(k) :: GetComponentMut(r, x, k) == GetComponentMut(t, x, k)
  }

  /** The entity drops loot: it has a Position and a Health of zero or below. */
  predicate Drops(t: Tables, e: Entity) {
    var h := GetComponentMut(t, e, K.Health);
    var p := GetComponentMut(t, e, K.Position);
    h.Some? && h.value.Health? && h.value.health <= 0 && p.Some? && p.value.Position?
  }

  /** `Drops` reads the two components through the downcasting lookups. */
  lemma DropsIsDowncastLookup(t: Tables, e: Entity)
    ensures Drops(t, e) <==>
      var h := GetComponentMutAs(t, e, K.Health);
      h.Some? && h.value.health <= 0 && GetComponentMutAs(t, e, K.Position).Some?
  {
  }

  /** `Drops` depends only on the entity's own Health and Position. */
  lemma DropsReadsOwnRow(t: Tables, m: Tables, e: Entity)
    requires GetComponentMut(m, e, K.Health) == GetComponentMut(t, e, K.Health)
    requires GetComponentMut(m, e, K.Position) == GetComponentMut(t, e, K.Position)
    ensures Drops(m, e) == Drops(t, e)
  {
  }

  /** The components of a loot entity at `pos`, in the order they are added. */
  function LootOf(pos: Component): seq<Component> {
    [pos, Render('!', ItemLayer), Name(PotionName), Item, Consumable]
  }

  /** The five `add_component` calls for a loot entity `id` at `pos`. */
  function SpawnLoot(t: Tables, id: Entity, pos: Component): Tables {
    AddAll(t, id, LootOf(pos))
  }

  /** Spawning is the chain of the five additions. */
  lemma SpawnIsFiveAdds(t: Tables, id: Entity, pos: Component)
    ensures SpawnLoot(t, id, pos) ==
      Added(Added(Added(Added(Added(t, id, pos), id, Render('!', ItemLayer)), id, Name(PotionName)), id, Item), id, Consumable)
  {
    var c1: seq<Component> := [Consumable] + [];
    var c2 := [Item] + c1;
    var c3 := [Name(PotionName)] + c2;
    var c4 := [Render('!', ItemLayer)] + c3;
    LootOfSplit(pos);
    var t1 := Added(t, id, pos);
    var t2 := Added(t1, id, Render('!', ItemLayer));
    var t3 := Added(t2, id, Name(PotionName));
    var t4 := Added(t3, id, Item);
    var t5 := Added(t4, id, Consumable);
    AddOne(t, id, pos, c4);
    AddOne(t1, id, Render('!', ItemLayer), c3);
    AddOne(t2, id, Name(PotionName), c2);
    AddOne(t3, id, Item, c1);
    AddOne(t4, id, Consumable, []);
    assert AddAll(t5, id, []) == t5;
  }

  lemma LootOfSplit(pos: Component)
    ensures LootOf(pos) == [pos] + ([Render('!', ItemLayer)] + ([Name(PotionName)] + ([Item] + ([Consumable] + []))))
  {
  }

  /** The kinds of the five loot components. */
  lemma LootKinds(pos: Component)
    requires pos.Position?
    ensures KindOf(pos) == K.Position && KindOf(Render('!', ItemLayer)) == K.Render
    ensures KindOf(Name(PotionName)) == K.Name && KindOf(Item) == K.Item && KindOf(Consumable) == K.Consumable
  {
  }

  /** Adding a component of another kind keeps `id`'s lookup of kind `k`. */
  lemma AddedKeepsOwnLookup(r: Tables, id: Entity, c: Component, k: K.Kind)
    requires KindOf(c) != k
    ensures GetComponentMut(Added(r, id, c), id, k) == GetComponentMut(r, id, k)
  {
  }

  /** Adding a loot component to `id` keeps every lookup outside `id`'s loot kinds. */
  lemma AddedStaysInsideLoot(t: Tables, r: Tables, id: Entity, c: Component)
    requires SameOutsideLootOf(t, r, id) && LootKind(KindOf(c))
    ensures SameOutsideLootOf(t, Added(r, id, c), id)
  {
    AddedSetsOneLookup(r, id, c);
  }

  /** Every table of a kind loot never gets is the same in `t` and `r`. */
  ghost predicate SameNonLootTables(t: Tables, r: Tables) {
    forall k | !LootKind(k) :: SameTable(t, r, k)
  }

  /** Adding a loot component keeps every table of a kind loot never gets. */
  lemma AddedKeepsNonLoot(t: Tables, r: Tables, id: Entity, c: Component)
    requires SameNonLootTables(t, r) && LootKind(KindOf(c))
    ensures SameNonLootTables(t, Added(r, id, c))
  {
    forall k | !LootKind(k) ensures SameTable(t, Added(r, id, c), k) {
      assert SameTable(r, Added(r, id, c), k);
    }
  }

  /** The spawned entity holds the loot components. */
  lemma SpawnGivesLoot(t: Tables, id: Entity, pos: Component)
    requires pos.Position?
    ensures IsLoot(SpawnLoot(t, id, pos), id, Some(pos))
  {
    SpawnGivesPlace(t, id, pos);
    SpawnGivesPotion(t, id, pos);
  }

  /** The spawned entity is at `pos` and shows '!' on the item layer. */
  lemma SpawnGivesPlace(t: Tables, id: Entity, pos: Component)
    requires pos.Position?
    ensures GetComponentMut(SpawnLoot(t, id, pos), id, K.Position) == Some(pos)
    ensures GetComponentMut(SpawnLoot(t, id, pos), id, K.Render) == Some(Render('!', ItemLayer))
  {
    SpawnIsFiveAdds(t, id, pos);
    LootKinds(pos);
    var t1 := Added(t, id, pos);
    var t2 := Added(t1, id, Render('!', ItemLayer));
    var t3 := Added(t2, id, Name(PotionName));
    var t4 := Added(t3, id, Item);
    AddedKeepsOwnLookup(t1, id, Render('!', ItemLayer), K.Position);
    AddedKeepsOwnLookup(t2, id, Name(PotionName), K.Position);
    AddedKeepsOwnLookup(t3, id, Item, K.Position);
    AddedKeepsOwnLookup(t4, id, Consumable, K.Position);
    AddedKeepsOwnLookup(t2, id, Name(PotionName), K.Render);
    AddedKeepsOwnLookup(t3, id, Item, K.Render);
    AddedKeepsOwnLookup(t4, id, Consumable, K.Render);
  }

  /** The spawned entity is the named, consumable potion item. */
  lemma SpawnGivesPotion(t: Tables, id: Entity, pos: Component)
    requires pos.Position?
    ensures GetComponentMut(SpawnLoot(t, id, pos), id, K.Name) == Some(Name(PotionName))
    ensures GetComponentMut(SpawnLoot(t, id, pos), id, K.Item) == Some(Item)
    ensures GetComponentMut(SpawnLoot(t, id, pos), id, K.Consumable) == Some(Consumable)
  {
    SpawnIsFiveAdds(t, id, pos);
    LootKinds(pos);
    var t1 := Added(t, id, pos);
    var t2 := Added(t1, id, Render('!', ItemLayer));
    var t3 := Added(t2, id, Name(PotionName));
    var t4 := Added(t3, id, Item);
    AddedKeepsOwnLookup(t3, id, Item, K.Name);
    AddedKeepsOwnLookup(t4, id, Consumable, K.Name);
    AddedKeepsOwnLookup(t4, id, Consumable, K.Item);
  }

  /** Spawning changes no lookup but the loot kinds of the spawned entity. */
  lemma SpawnTouchesOnlyLoot(t: Tables, id: Entity, pos: Component)
    requires pos.Position?
    ensures SameOutsideLootOf(t, SpawnLoot(t, id, pos), id)
  {
    SpawnIsFiveAdds(t, id, pos);
    LootKinds(pos);
    var t1 := Added(t, id, pos);
    var t2 := Added(t1, id, Render('!', ItemLayer));
    var t3 := Added(t2, id, Name(PotionName));
    var t4 := Added(t3, id, Item);
    AddedStaysInsideLoot(t, t, id, pos);
    AddedStaysInsideLoot(t, t1, id, Render('!', ItemLayer));
    AddedStaysInsideLoot(t, t2, id, Name(PotionName));
    AddedStaysInsideLoot(t, t3, id, Item);
    AddedStaysInsideLoot(t, t4, id, Consumable);
  }

  /** Spawning keeps the store well typed and every table of a kind loot never gets. */
  lemma SpawnKeepsTables(t: Tables, id: Entity, pos: Component)
    requires pos.Position?
    ensures forall k | !LootKind(k) :: SameTable(t, SpawnLoot(t, id, pos), k)
    ensures WellTyped(t) ==> WellTyped(SpawnLoot(t, id, pos))
  {
    SpawnIsFiveAdds(t, id, pos);
    LootKinds(pos);
    var t1 := Added(t, id, pos);
    var t2 := Added(t1, id, Render('!', ItemLayer));
    var t3 := Added(t2, id, Name(PotionName));
    var t4 := Added(t3, id, Item);
    AddedKeepsNonLoot(t, t, id, pos);
    AddedKeepsNonLoot(t, t1, id, Render('!', ItemLayer));
    AddedKeepsNonLoot(t, t2, id, Name(PotionName));
    AddedKeepsNonLoot(t, t3, id, Item);
    AddedKeepsNonLoot(t, t4, id, Consumable);
  }

  function Step(s: State, e: Entity): State {
    if Drops(s.0, e) then (SpawnLoot(s.0, |s.1|, GetComponentMut(s.0, e, K.Position).value), s.1 + [|s.1|]) else s
  }

  function Run(s: State, order: seq<Entity>): State
    decreases |order|
  {
    if order == [] then s else Step(Run(s, order[..|order| - 1]), order[|order| - 1])
  }

  /**
   * One iteration: an entity that drops loot appends the next id, `|s.1|`,
   * which receives the loot at a copy of the entity's Position; nothing
   * else changes. Any other entity changes nothing.
   */
  lemma StepSpawnsOne(s: State, e: Entity)
    ensures Step(s, e).1 == if Drops(s.0, e) then s.1 + [|s.1|] else s.1
    ensures SameOutsideLootOf(s.0, Step(s, e).0, |s.1|)
    ensures forall k | !LootKind(k) :: SameTable(s.0, Step(s, e).0, k)
    ensures WellTyped(s.0) ==> WellTyped(Step(s, e).0)
  {
    if Drops(s.0, e) {
      SpawnTouchesOnlyLoot(s.0, |s.1|, GetComponentMut(s.0, e, K.Position).value);
      SpawnKeepsTables(s.0, |s.1|, GetComponentMut(s.0, e, K.Position).value);
    }
  }

  /** The entity spawned by a dropping entity's iteration holds the loot, at its Position. */
  lemma StepSpawnsLoot(s: State, e: Entity)
    ensures Drops(s.0, e) ==> IsLoot(Step(s, e).0, |s.1|, GetComponentMut(s.0, e, K.Position))
  {
    if Drops(s.0, e) {
      SpawnGivesLoot(s.0, |s.1|, GetComponentMut(s.0, e, K.Position).value);
    }
  }

  /** The visited entities that drop loot, in visiting order. */
  function Dropped(t: Tables, order: seq<Entity>): (d: seq<Entity>)
    ensures |d| <= |order|
    ensures forall j | 0 <= j < |d| :: Drops(t, d[j]) && d[j] in order
    ensures forall e | e in order && Drops(t, e) :: e in d
    decreases |order|
  {
    if order == [] then []
    else
      var last := order[|order| - 1];
      var prefix := order[..|order| - 1];
      assert forall e :: e in order <==> e in prefix || e == last by {
        assert order == prefix + [last];
      }
      Dropped(t, prefix) + if Drops(t, last) then [last] else []
  }

  /**
   * `ids` is `start` followed by `count` fresh ids, each equal to its own
   * index: the ids `create_entity` hands out one after another.
   */
  predicate AppendsFresh(start: seq<Entity>, ids: seq<Entity>, count: nat) {
    |ids| == |start| + count && start <= ids &&
    forall j | |start| <= j < |ids| :: ids[j] == j
  }

  /** Every id in the tables is below `n`: the next `create_entity` is fresh. */
  ghost predicate IdsBelow(t: Tables, n: int) {
    forall k, x | HasComponent(t, x, k) :: x < n
  }

  /** Tables of kinds a loot entity never gets are left as they were. */
  lemma {:induction false} RunKeepsOtherTables(s: State, order: seq<Entity>)
    ensures forall k | !LootKind(k) :: SameTable(s.0, Run(s, order).0, k)
    decreases |order|
  {
    if order != [] {
      var m := Run(s, order[..|order| - 1]);
      RunKeepsOtherTables(s, order[..|order| - 1]);
      StepSpawnsOne(m, order[|order| - 1]);
      forall k | !LootKind(k) ensures SameTable(s.0, Run(s, order).0, k) {
        assert SameTable(s.0, m.0, k) && SameTable(m.0, Run(s, order).0, k);
      }
    }
  }

  lemma {:induction false} RunStaysWellTyped(s: State, order: seq<Entity>)
    requires WellTyped(s.0)
    ensures WellTyped(Run(s, order).0)
    decreases |order|
  {
    if order != [] {
      RunStaysWellTyped(s, order[..|order| - 1]);
      StepSpawnsOne(Run(s, order[..|order| - 1]), order[|order| - 1]);
    }
  }

  /** Ids below the starting length of the live list keep every component. */
  lemma RunKeepsOldIds(s: State, order: seq<Entity>)
    ensures |Run(s, order).1| >= |s.1|
    ensures forall k, x | x < |s.1| || !LootKind(k) :: GetComponentMut(Run(s, order).0, x, k) == GetComponentMut(s.0, x, k)
  {
    RunKeepsOldIdsAt(s, order, K.Health, 0);
    forall k, x | x < |s.1| || !LootKind(k)
      ensures GetComponentMut(Run(s, order).0, x, k) == GetComponentMut(s.0, x, k)
    {
      RunKeepsOldIdsAt(s, order, k, x);
    }
  }

  /** `RunKeepsOldIds` at one entity and kind. */
  lemma {:induction false} RunKeepsOldIdsAt(s: State, order: seq<Entity>, k: K.Kind, x: Entity)
    requires x < |s.1| || !LootKind(k)
    ensures |Run(s, order).1| >= |s.1|
    ensures GetComponentMut(Run(s, order).0, x, k) == GetComponentMut(s.0, x, k)
    decreases |order|
  {
    if order != [] {
      RunKeepsOldIdsAt(s, order[..|order| - 1], k, x);
      StepSpawnsOne(Run(s, order[..|order| - 1]), order[|order| - 1]);
    }
  }

  /** Whether an entity drops loot is decided by the state the pass started from. */
  lemma DropsUnchanged(s: State, prefix: seq<Entity>, e: Entity)
    requires IdsBelow(s.0, |s.1|)
    ensures Drops(Run(s, prefix).0, e) == Drops(s.0, e)
    ensures GetComponentMut(Run(s, prefix).0, e, K.Position) == GetComponentMut(s.0, e, K.Position) || !Drops(s.0, e)
  {
    if HasComponent(s.0, e, K.Health) {
      assert e < |s.1|;
      RunKeepsOldIdsAt(s, prefix, K.Health, e);
      RunKeepsOldIdsAt(s, prefix, K.Position, e);
      DropsReadsOwnRow(s.0, Run(s, prefix).0, e);
    } else {
      RunKeepsOldIdsAt(s, prefix, K.Health, e);
    }
  }

  /** Each dropping entity appends one fresh id, `n + j` for the j-th. */
  lemma {:induction false} RunAppendsIds(s: State, order: seq<Entity>)
    requires IdsBelow(s.0, |s.1|)
    ensures AppendsFresh(s.1, Run(s, order).1, |Dropped(s.0, order)|)
    decreases |order|
  {
    if order != [] {
      var prefix, last := order[..|order| - 1], order[|order| - 1];
      RunAppendsIds(s, prefix);
      DropsUnchanged(s, prefix, last);
      StepSpawnsOne(Run(s, prefix), last);
      AppendsOneId(s.1, Run(s, prefix).1, Drops(s.0, last), last, Run(s, order).1, Dropped(s.0, prefix), Dropped(s.0, order));
    }
  }

  /** The live list grows by one per dropping entity. */
  lemma RunCountsIds(s: State, order: seq<Entity>)
    requires IdsBelow(s.0, |s.1|)
    ensures |Run(s, order).1| == |s.1| + |Dropped(s.0, order)|
  {
    RunAppendsIds(s, order);
  }

  /** The step of `RunAppendsIds`, on the live lists alone. */
  lemma AppendsOneId(start: seq<Entity>, m: seq<Entity>, drops: bool, last: Entity, ids: seq<Entity>, d: seq<Entity>, d': seq<Entity>)
    requires ids == if drops then m + [|m|] else m
    requires d' == d + if drops then [last] else []
    requires AppendsFresh(start, m, |d|)
    ensures AppendsFresh(start, ids, |d'|)
  {
    if drops {
      assert forall j | 0 <= j < |m| :: ids[j] == m[j];
    }
  }

  /**
   * `LootSystem::process`'s loop body for one Health holder: the source
   * unwraps the Health and skips entities without a Position.
   */
  method DropLoot(em: EntityManager, e: Entity)
    requires em.Valid() && HasComponent(em.tables, e, K.Health)
    modifies em
    ensures em.Valid()
    ensures (em.tables, em.entities) == Step((old(em.tables), old(em.entities)), e)
    ensures em.names == old(em.names)
  {
    ghost var t0 := em.tables;
    var health := GetComponentMutAs(em.tables, e, K.Health).value;
    var position := GetComponentMutAs(em.tables, e, K.Position);
    if position.None? {
      assert !Drops(t0, e);
      return;
    }
    var pos := position.value;
    if health.health <= 0 {
      assert Drops(t0, e) && Some(pos) == GetComponentMut(t0, e, K.Position);
      SpawnIsFiveAdds(em.tables, |em.entities|, pos);
      var loot := em.CreateEntity();
      em.AddComponent(loot, pos);
      em.AddComponent(loot, Render('!', ItemLayer));
      em.AddComponent(loot, Name(PotionName));
      em.AddComponent(loot, Item);
      em.AddComponent(loot, Consumable);
    } else {
      assert !Drops(t0, e);
    }
  }

  /**
   * `LootSystem::process`, visiting the Health table in `order`. Each
   * visited entity's Position lookup must return.
   */
  method Process(em: EntityManager, order: seq<Entity>)
    requires em.Valid()
    requires IsEnumeration(order, TableOf(em.tables, K.Health).Keys)
    requires forall e | e in order :: Resolves(em.tables, e, K.Position)
    modifies em
    ensures em.Valid()
    ensures (em.tables, em.entities) == Run((old(em.tables), old(em.entities)), order)
    ensures em.names == old(em.names)
  {
    ghost var s0: State := (em.tables, em.entities);
    var i := 0;
    while i < |order|
      invariant 0 <= i <= |order|
      invariant em.Valid()
      invariant (em.tables, em.entities) == Run(s0, order[..i])
      invariant em.names == old(em.names)
    {
      RunKeepsOtherTables(s0, order[..i]);
      RunStaysWellTyped(s0, order[..i]);
      assert order[i] in TableOf(s0.0, K.Health).Keys;
      assert SameTable(s0.0, em.tables, K.Health);
      DropLoot(em, order[i]);
      assert order[..i + 1][..i] == order[..i];
      i := i + 1;
    }
    assert order[..i] == order;
  }
}
