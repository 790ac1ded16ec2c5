# rogue, modelled in Dafny

This project models the core of `rogue`, a terminal roguelike written in Rust.
That core is an entity-component store and the game-logic systems that run on it once per tick.

- **The entity store** (`entities.dfy`, `components.dfy`, `systems_core.dfy`). `Entities.EntityManager` keeps three things:
  - the live entity list;
  - the entity names;
  - one table per component kind, mapping entity to component.

  Kinds and components are closed datatypes. Adding a component overwrites the old value. Removing one returns the prior value. Killing an entity clears it from every table and drops it from the live list. The lookup with prototype fallback (`get_component`) is modelled with a recursion depth, so that its divergence can be stated. The `get_component!` macro is modelled in both its plain and its `mut` form. The system manager passes the store to every system's `mount` and `process`, in registration order (`system_manager.dfy`). A frame's effect on the store is the composition of the systems' folds.
- **Turn scheduling** (`turn_system.dfy`, `chronos.dfy`):
  - the energy/speed recharge of `TurnSystem::process`;
  - the rotating queue and Turn hand-off of `process_turn`;
  - the register/release queue of the older `Chronos`;
  - the `GameTime` entity mounted by the Chronos system.
- **The gameplay systems.** Each is modelled twice. A method on the store does what the Rust loop does. A fold over an iteration order specifies that method, and lemmas about the fold state what the system achieves. The systems are:
  - Walk and RandomWalk (`walk_systems.dfy`);
  - Collision (`collision_system.dfy`);
  - Attack and Damage (`combat_systems.dfy`);
  - Move (`move_system.dfy`);
  - Reaper (`reaper_system.dfy`);
  - Loot (`loot_system.dfy`, `loot_properties.dfy`);
  - Janitor (`janitor_system.dfy`);
  - the input broadcast (`input_broadcast.dfy`).

  The monster and item spawners are in `spawners.dfy`.
- **Grids and helpers:**
  - the cell map, map builder, buffer parser and node arena (`map.dfy`);
  - the tile dungeon with `place_rect` (`dungeon.dfy`), whose constructor leaves the tile vector empty (see Findings);
  - the character console (`console.dfy`);
  - Bresenham lines (`bresenham.dfy`).
- **`src/main.rs`** (`game_main.dfy`): `Rect` walkability and its ASCII buffer, `GameTime::tick`, `validate_save`, and `create_map`.
- **`src/bin/main.rs`** (`game_bin.dfy`, `map_tiles.dfy`): the `Game` object, covering its argument handling, the registration order of the systems, their mounting (which creates the GameTime entity before anything else), a frame's update, the player's components, the creation of map tiles and zombies, the start guard, input handling and quit.
- **The older iterations:**
  - key maps (`key_maps.dfy`);
  - the position-moving input system (`input_move.dfy`);
  - the string-keyed `ComponentManager` (`component_manager.dfy`);
  - the string-id entity manager and `EntityBuilder` (`legacy_entities.dfy`);
  - the game-state stack (`game_state.dfy`).

Rust's `HashMap` iteration order is unspecified. Wherever a system iterates over a table, the order is a parameter, required to list the table's keys exactly once. Random draws are parameters too, each with its range as a precondition. A received key is a parameter as well. Where the Rust code panics on an `unwrap` or an index, the model has one of three forms:
- a precondition that rules the panic out;
- an `Option`/outcome result, where the panic is part of what is being stated;
- a `bool` status for `kill_entity`.

## Model

| member | source | states |
|---|---|---|
| Entities.Added | src/entities.rs:75-87 | after `add_component` the entity holds exactly the new value under its kind (an earlier value is overwritten), the kind's table exists (created if missing), every other entity and kind keeps its entry, and the tables stay well typed |
| Entities.AddedSetsOneLookup | src/entities.rs:75-87 | an add changes exactly one lookup: the entity's own for the component's kind |
| Entities.AddAllLookup | src/entities.rs:75-87 | after a run of adds on one entity, each kind of that entity holds the last component of that kind in the run; kinds not in the run and other entities keep their lookups |
| Entities.AddAllSnoc | src/entities.rs:75-87 | adding one more component at the end of a run is one more `add_component` |
| Entities.Removed | src/entities.rs:160-165 | after `remove_component` the entity lacks that kind, a missing table stays missing, the set of tables is unchanged and every other lookup is kept |
| Entities.Killed | src/entities.rs:201-205 | after the table loop of `kill_entity` the entity is in no table, the set of tables is unchanged and every other entity keeps every component |
| Entities.RemoveFirst | src/entities.rs:206 | `remove_item` drops exactly one occurrence of the id (as a multiset) and leaves a list without it unchanged |
| Entities.RemoveFirstOfDistinct | src/entities.rs:206 | in a duplicate-free live list the removed id is gone entirely |
| Entities.IdsSnoc | src/entities.rs:53-58 | one more `create_entity` on a live list `e0 + Ids(|e0|, n)` leaves `e0 + Ids(|e0|, n + 1)`, so n creations on an empty list leave the ids 0 .. n-1 in order; this is the loop invariant step of `GameBin.CreateMapEntities`, `GameBin.PopulateMap` and `GameMain.CreateMap` |
| Entities.IdsAppend | src/entities.rs:53-58 | two runs of consecutive ids, the second starting where the first stops, concatenate to one run |
| Entities.CreateTwoEntities | src/entities.rs:248-256 | two creations on a new store hand out different ids, 0 then 1, and the live list is exactly those ids |
| Entities.GetComponent | src/entities.rs:120-136 | whenever `get_component` returns, it returns the direct read of the kind's table, so the prototype fallback can never produce a component; with the kind's table present it always returns |
| Entities.ExistingTableResolves | src/entities.rs:126-127 | when the kind's table exists the lookup returns at once, with that table's entry (possibly None) |
| Entities.FallbackWithoutPrototypeTableDiverges | src/entities.rs:113-136 | with neither the kind's table nor a Prototype table, `get_component` and `get_prototype` never return, at any recursion depth |
| Entities.FallbackWithoutPrototypeTableNeverResolves | src/entities.rs:113-136 | in that case no recursion depth is enough: the call does not terminate |
| Entities.LookupReadsOnlyItsTables | src/entities.rs:113-136 | a lookup of kind k depends only on the k table and the Prototype table |
| Entities.KillKeepsLookupReturning | src/entities.rs:201-205 | a lookup that returned before a `kill_entity` still returns after it, with no deeper recursion |
| Entities.KillKeepsResolving | src/entities.rs:201-205 | a terminating lookup stays terminating after any kill |
| Entities.KillThenCreateReusesLiveId | src/entities.rs:53-56 | after ids 0 .. n-1 (`Ids(0, n)`) were handed out and any but the newest is killed, the live list has n-1 entries and still contains n-1, the id the next `create_entity` returns |
| Entities.EntityManager.constructor | src/entities.rs:44-51 | a new store has no entities, no names and no tables |
| Entities.EntityManager.CreateEntity | src/entities.rs:53-59 | the new id is the length of the live list, which it is appended to; names and tables are unchanged |
| Entities.EntityManager.SetEntityName | src/entities.rs:61-63 | the entity's name is set, replacing an earlier one; nothing else changes |
| Entities.EntityManager.GetEntityByName | src/entities.rs:65-69 | returns an entity carrying that name with the name, and None exactly when no entity carries it |
| Entities.EntityManager.Extend | src/entities.rs:71-73 | the child gets a Prototype component pointing at the prototype, by `add_component` |
| Entities.EntityManager.AddComponent | src/entities.rs:83-87 | the tables become `Added` of the old tables; entities and names are unchanged and the store stays well typed |
| Entities.EntityManager.RemoveComponent | src/entities.rs:160-165 | returns the prior value of that kind (None when the entity or the table lacks it) and the tables become `Removed` |
| Entities.EntityManager.GetEntitiesWithComponents | src/entities.rs:167-179 | the result lists every key of the kind's table exactly once, and is empty when no table exists |
| Entities.EntityManager.GetAllComponentsOfType | src/entities.rs:189-199 | the result is the values of the kind's table, one per key, in the order of some enumeration of its keys; empty without a table |
| Entities.EntityManager.KillEntity | src/entities.rs:201-207 | the tables become `Killed`, the live list loses the first occurrence of the id, and `ok` is false exactly when the id was not live (the source's `unwrap` panic) |
| Systems.GetComponentAs | src/systems/mod.rs:8-15 | when the lookup returns, the macro yields Some exactly when the entity has the kind and the stored value is of that struct, and then yields the stored value |
| Systems.MutFormIgnoresPrototype | src/systems/mod.rs:16-21 | the `mut` form is None without the kind's table even when the entity's prototype carries such a component |
| Systems.DowncastNeverFailsWhenWellTyped | src/systems/mod.rs:8-21 | in a well-typed store both forms of the macro return exactly the table's entry |
| Systems.DefaultHook | src/systems/mod.rs:27-34 | the trait's default hooks leave the store unchanged |
| Systems.Logged | src/systems/damage_system.rs:28-33 | appending a line to the first Player's Log keeps the store well typed and touches no table but Log |
| Systems.LoggedAppends | src/systems/damage_system.rs:28-33 | the line is pushed onto that entity's Log and every other Log lookup is unchanged |
| Systems.AppendedTwice | src/systems/reaper_system.rs:19-23 | pushing two batches of lines onto a Log equals pushing them together |
| SystemManagement.MountAllKeepsEnergy | src/systems/chronos_system.rs:21-26 | mounting any list of systems leaves the Energy table as it was |
| SystemManagement.MountAllWithoutChronos | src/systems/mod.rs:27-34 | mounting systems that keep the default hook, that is every system but Chronos, leaves the store unchanged |
| SystemManagement.MountAllAppend | src/systems/system_manager.rs:15-20 | mounting two lists in a row is mounting their concatenation |
| SystemManagement.OneChronosMounts | src/systems/chronos_system.rs:21-26 | a list whose only Chronos is at its front mounts exactly what Chronos's own mount does |
| SystemManagement.SystemManager.constructor | src/systems/system_manager.rs:9-13 | a new manager holds no systems, has made no calls, and owns a turn system with an empty queue |
| SystemManagement.SystemManager.RegisterSystem | src/systems/system_manager.rs:22-24 | the system is appended after every earlier one and no hook is called |
| SystemManagement.SystemManager.MountOne | src/systems/chronos_system.rs:21-26 | Chronos adds the next entity with a GameTime and the name "GameTime"; the turn system appends every Energy holder to its queue and leaves the store alone; every other system changes nothing |
| SystemManagement.SystemManager.Mount | src/systems/system_manager.rs:15-20 | every system's `mount` is called once, in registration order, with the store. The store becomes the composition of those mounts. The turn queue gains only Energy holders, gains all of them when a turn system is registered, and gains nothing when no entity has Energy |
| SystemManagement.SystemManager.ProcessOne | src/systems/system_manager.rs:26-30 | one system's `process`: the store becomes that system's fold over its order (and draws), the names are kept, and after the janitor no Event is left |
| SystemManagement.SystemManager.ProcessSystems | src/systems/system_manager.rs:26-30 | every system's `process` is called once, in registration order, each in the state the earlier ones leave. The store becomes the composition of their folds, names are kept, and with the janitor last no Event component survives the frame |
| SystemManagement.SystemManager.Unmount | src/systems/system_manager.rs:32-36 | `unmount` runs in registration order, not reversed |
| TurnScheduling.Recharged | src/systems/turn_system.rs:82-95 | energy after one tick: speed is subtracted, and 24 is added back once exactly when the result is negative |
| TurnScheduling.RechargeKeepsWindow | src/systems/turn_system.rs:71-95 | with speed at most one turn length, energy that starts in [0, 24) stays in [0, 24) |
| TurnScheduling.StepChargesOne | src/systems/turn_system.rs:76-96 | one iteration changes only the visited entity's Energy, to its recharged value (speed unread when absent), and no other table |
| TurnScheduling.RunKeepsOtherTables | src/systems/turn_system.rs:70-97 | `process` touches no table but Energy: the queue and the Turn marker are untouched |
| TurnScheduling.RunChargesEnergy | src/systems/turn_system.rs:70-97 | after `process` every Energy entity holds its recharged energy and every other Energy lookup is unchanged |
| TurnScheduling.RunKeepsEnergyInWindow | src/systems/turn_system.rs:70-97 | if every energy is in [0, 24) and every speed in [0, 24], that holds after `process` too |
| TurnScheduling.RotatedRight | src/systems/turn_system.rs:35 | `rotate_right(1)` brings the last entity to the front, shifts the others back by one and keeps the same entities |
| TurnScheduling.HandOverMovesTurn | src/systems/turn_system.rs:40-41 | the hand-off removes Turn from the old front and gives it to the new front |
| TurnScheduling.HandOverCharges | src/systems/turn_system.rs:44-53 | the new front's energy grows by its speed and no other Energy changes |
| TurnScheduling.HandOverKeepsOtherTables | src/systems/turn_system.rs:38-53 | the hand-off touches only the Turn and Energy tables |
| TurnScheduling.HandOverKeepsOneTurn | src/systems/turn_system.rs:40-41 | when exactly the old front held Turn, exactly the new front holds it afterwards |
| TurnScheduling.TurnSystem.constructor | src/systems/turn_system.rs:14-18 | a new turn system has an empty queue |
| TurnScheduling.TurnSystem.Mount | src/systems/turn_system.rs:61-68 | every entity that has Energy is appended once to the back of the queue, after the old queue |
| TurnScheduling.TurnSystem.Process | src/systems/turn_system.rs:70-97 | the tables become the recharge fold over the Energy table; entities and names are unchanged |
| TurnScheduling.TurnSystem.ProcessTurn | src/systems/turn_system.rs:20-57 | corrected `process_turn` (no double borrow): an empty queue or a front with energy above 0 changes nothing; otherwise the queue is rotated right and Turn and energy are handed over to the new front |
| ChronosQueue.IndexOf | src/chronos_system.rs:32-35 | `position` finds the first traveler with that id, and None exactly when there is none |
| ChronosQueue.ReleaseRemovesFirst | src/chronos_system.rs:31-39 | `release` removes exactly the first traveler with that id and keeps the others in order |
| ChronosQueue.ReleaseUnknownIsNoOp | src/chronos_system.rs:31-39 | releasing an unknown id leaves the queue unchanged |
| ChronosQueue.RegisterThenReleaseRestores | src/chronos_system.rs:25-39 | registering a new id and releasing it restores the previous queue |
| ChronosQueue.RegisterThenReleaseKeepsNewcomer | src/chronos_system.rs:25-39 | when the id was already queued, release takes the older entry and the newcomer stays at the back |
| ChronosQueue.Chronos.constructor | src/chronos_system.rs:15-19 | a new Chronos has no travelers |
| ChronosQueue.Chronos.TravelersLen | src/chronos_system.rs:21-23 | the number of queued travelers |
| ChronosQueue.Chronos.Register | src/chronos_system.rs:25-29 | appends (-100, id) at the back; the length grows by one |
| ChronosQueue.Chronos.Release | src/chronos_system.rs:31-39 | the queue becomes its release of that id |
| ChronosQueue.Chronos.Process | src/chronos_system.rs:43-45 | `process` leaves the store unchanged |
| ChronosSystem.Mount | src/systems/chronos_system.rs:21-26 | creates exactly one entity, with a GameTime component and the name "GameTime"; nothing else changes |
| ChronosSystem.Process | src/systems/chronos_system.rs:28-47 | `process` leaves the store unchanged |
| ChronosSystem.MountThenFind | src/systems/chronos_system.rs:55-64 | after mounting on a new store, looking up "GameTime" by name succeeds |
| WalkSystem.KeyDelta | src/systems/walk_system.rs:22-28 | every delta is a unit step along one axis or none, and it is non-zero exactly for w, d, s and a |
| WalkSystem.RunSetsWalkFromInput | src/systems/walk_system.rs:13-39 | each visited entity's Walk becomes the delta of its Input key; every other Walk, the set of walkers and every other table stay as they were |
| WalkSystem.WalkedIsUnitStep | src/systems/walk_system.rs:22-37 | a walker with an Input ends with a Walk of at most one cell along one axis |
| WalkSystem.Process | src/systems/walk_system.rs:13-39 | the loop over the Input table leaves the tables equal to the fold `Run`; entities and names unchanged |
| RandomWalkSystem.RunRandomizesWalks | src/systems/random_walk_system.rs:11-23 | the i-th visited entity with a Walk gets the i-th pair of draws; every other Walk and every other table is unchanged |
| RandomWalkSystem.RandomizedWalksInRange | src/systems/random_walk_system.rs:17-21 | with draws from `gen_range(-1, 2)`, every randomized Walk has both deltas in [-1, 1] |
| RandomWalkSystem.Process | src/systems/random_walk_system.rs:11-23 | the loop over the RandomWalkAi table leaves the tables equal to the fold `Run` over the draws; entities and names unchanged |
| CollisionSystem.OccupiedSpaces | src/collide_system.rs:8-14 | every pair is a Collidable with its own Position, and every Collidable with a Position appears |
| CollisionSystem.FindOccupier | src/collide_system.rs:41 | the first occupied entry on the destination cell, and None exactly when no entry is on it |
| CollisionSystem.StepCollidesOne | src/collide_system.rs:28-50 | one iteration zeroes the walker's Walk and gives its occupier Damage 3 exactly on a hit, and changes no other lookup or table |
| CollisionSystem.HitReadsPositionsAndOwnWalk | src/collide_system.rs:29-41 | whether a walker collides depends only on the Position table and its own Walk, so earlier iterations cannot change it |
| CollisionSystem.RunKeepsOtherTables | src/collide_system.rs:18-51 | `process` changes only the Walk and Damage tables |
| CollisionSystem.RunVetoesBlockedWalks | src/collide_system.rs:28-47 | after `process` a walker's Walk is (0, 0) exactly when its walk at the start hit an occupied cell; other Walks are unchanged |
| CollisionSystem.RunDamagesOccupiers | src/collide_system.rs:41-48 | after `process` an entity holds Damage 3 exactly when some walker ran into it; other Damage lookups are unchanged |
| CollisionSystem.Collide | src/collide_system.rs:43-48 | the walker's Walk becomes (0, 0) and the occupier is given Damage 3 |
| CollisionSystem.CheckWalker | src/collide_system.rs:29-49 | one iteration of the loop leaves the tables equal to `Step` |
| CollisionSystem.Process | src/collide_system.rs:18-51 | `process` leaves the tables equal to the fold over the walkers against the cells occupied at the start |
| AttackSystem.Attacks | src/systems/attack_system.rs:16-35 | one entry per Event entity, in order: the collider it attacks, if that collider has Health |
| AttackSystem.LastAttack | src/systems/attack_system.rs:18-31 | the last position in the pass whose event attacks `x`, and None exactly when no event does |
| AttackSystem.LastAttackStep | src/systems/attack_system.rs:18-31 | the last attacker of a longer pass is its final entity when that one attacks `x`, and otherwise the last attacker of the shorter pass |
| AttackSystem.StepKeepsOtherTables | src/systems/attack_system.rs:19-33 | one iteration changes no table but Damage |
| AttackSystem.StepAttacks | src/systems/attack_system.rs:19-33 | one iteration gives the attacked collider a Damage of the drawn amount aimed at itself, and changes no other Damage |
| AttackSystem.TargetReadsEventsAndHealth | src/systems/attack_system.rs:19-21 | whom an event attacks depends only on the Event and Health tables, so earlier iterations cannot change it |
| AttackSystem.RunKeepsOtherTables | src/systems/attack_system.rs:11-36 | `process` changes no table but Damage |
| AttackSystem.RunDamagesColliders | src/systems/attack_system.rs:11-36 | after `process` an attacked entity holds the Damage of its last attacker's draw, aimed at itself; any other Damage is unchanged |
| AttackSystem.AttackDamageInRange | src/systems/attack_system.rs:24-31 | with draws from `gen_range(1, 4)`, an attacked entity ends with Health and a Damage of 1 to 3 aimed at itself |
| AttackSystem.AttackFrom | src/systems/attack_system.rs:19-33 | one iteration leaves the tables equal to `Step` |
| AttackSystem.Process | src/systems/attack_system.rs:11-36 | the loop over the Event table leaves the tables equal to the fold `Run` over the draws; entities and names unchanged |
| DamageSystem.TookDamage | src/systems/damage_system.rs:32 | the log line starts with the name and ends with " damage." |
| DamageSystem.DisplayName | src/systems/damage_system.rs:16 | the entity's Name component, or its id written in decimal when it has none |
| DamageSystem.Line | src/systems/damage_system.rs:28-34 | at most one log line per damaged entity |
| DamageSystem.Applied | src/systems/damage_system.rs:20-24 | applying damage changes only the Health and Damage tables and keeps them well-typed |
| DamageSystem.Messages | src/systems/damage_system.rs:14-35 | at most one message per Damage entity |
| DamageSystem.StepKeepsOtherTables | src/systems/damage_system.rs:14-35 | one iteration changes only the Health, Damage and Log tables |
| DamageSystem.StepAppliesOne | src/systems/damage_system.rs:20-24 | one iteration sets only the visited entity's Health and, when it has Health, removes only its Damage |
| DamageSystem.StepCases | src/systems/damage_system.rs:14-35 | without Health nothing changes; with Health the damage is applied and, when a player exists, "<name> took <amount> damage." goes to the first player's log |
| DamageSystem.AppliedSetsOwnRow | src/systems/damage_system.rs:20-23 | applying damage changes only the entity's own Health and removes only its own Damage |
| DamageSystem.StepLogsOne | src/systems/damage_system.rs:28-34 | one iteration appends only to the first player's log, and only that entity's line |
| DamageSystem.IterationReadsOwnRow | src/systems/damage_system.rs:15-21 | an iteration's effect depends only on the entity's own Damage and Health and the Name table |
| DamageSystem.RunKeepsOtherTables | src/systems/damage_system.rs:9-36 | `process` changes only the Health, Damage and Log tables |
| DamageSystem.RunAppliesDamage | src/systems/damage_system.rs:9-36 | after `process` every damaged entity with Health has its health lowered by the amount and its Damage removed; others are unchanged |
| DamageSystem.IterationHealthAndDamage | src/systems/damage_system.rs:15-24 | whether and how an entity is hurt depends only on its own Damage and Health |
| DamageSystem.RunLogsDamage | src/systems/damage_system.rs:9-36 | after `process` the first player's log has gained one line per damaged entity, in order; no other log changes |
| DamageSystem.HealthLostIsDamageAmount | src/systems/damage_system.rs:20-23 | an entity that had Health and Damage ends with health minus amount, the same maximum, and no Damage |
| DamageSystem.Hurt | src/systems/damage_system.rs:20-26 | returns the amount exactly when the entity has Health, and then applies it |
| DamageSystem.LogLine | src/systems/damage_system.rs:30-33 | the player's log, when it has one, gains the line; nothing else changes |
| DamageSystem.ApplyTo | src/systems/damage_system.rs:15-34 | one iteration leaves the tables equal to `Step` |
| DamageSystem.Process | src/systems/damage_system.rs:9-36 | the loop over the Damage table leaves the tables equal to the fold `Run`; indexing the Player list is required to succeed when some damage applies |
| ReaperSystem.Obituary | src/systems/reaper_system.rs:17 | the message is the name followed by " has died" |
| ReaperSystem.FirstPlayer | src/systems/reaper_system.rs:19 | the first listed entity that still has a Player component, and None exactly when none has |
| ReaperSystem.ObituaryLine | src/systems/reaper_system.rs:16-23 | at most one obituary per dead entity |
| ReaperSystem.Dying | src/systems/reaper_system.rs:12-15 | exactly the visited entities whose health is at most 0 |
| ReaperSystem.Obituaries | src/systems/reaper_system.rs:12-27 | at most one obituary per dying entity |
| ReaperSystem.StepKeepsTables | src/systems/reaper_system.rs:13-26 | one iteration keeps the set of tables and keeps them well-typed |
| ReaperSystem.StepKillsOne | src/systems/reaper_system.rs:15-26 | one iteration removes every component of the visited entity exactly when it is dead, and removes it once from the entity list |
| ReaperSystem.StepLogsOne | src/systems/reaper_system.rs:16-25 | one iteration appends the obituary to the first live player's log only |
| ReaperSystem.IterationReadsOwnRow | src/systems/reaper_system.rs:13-17 | whether an entity dies and what its obituary says depend only on its own Health and Name |
| ReaperSystem.RunKeepsTables | src/systems/reaper_system.rs:9-28 | `process` keeps the set of tables and keeps them well-typed |
| ReaperSystem.RunKillsTheDead | src/systems/reaper_system.rs:9-28 | after `process` every dead visited entity has no component left; every other lookup outside the Log table is unchanged |
| ReaperSystem.RunRemovesTheDead | src/systems/reaper_system.rs:9-28 | the entity list loses exactly the dying entities, one occurrence each |
| ReaperSystem.NoVisitedEntityStaysDying | src/systems/reaper_system.rs:9-28 | after `process` no visited entity has health at most 0 |
| ReaperSystem.FirstPlayerSurvives | src/systems/reaper_system.rs:19 | the first player stays the first player while it is not itself reaped |
| ReaperSystem.RunLogsDeaths | src/systems/reaper_system.rs:9-28 | after `process` the surviving first player's log has gained one obituary per named dead entity, in order |
| ReaperSystem.Announce | src/systems/reaper_system.rs:16-23 | the obituary of a named entity goes to the first player's log |
| ReaperSystem.Reap | src/systems/reaper_system.rs:13-26 | one iteration leaves tables and entity list equal to `Step` |
| ReaperSystem.ReadyToReap | src/systems/reaper_system.rs:12-26 | before the i-th iteration the visited entity still has Health, is still listed if dead, and a player exists for its obituary |
| ReaperSystem.Process | src/systems/reaper_system.rs:9-28 | the loop over the Health table leaves tables and entity list equal to the fold `Run` |
| LootProperties.RunDropsLoot | src/systems/loot_system.rs:11-37 | the j-th dying entity with a Position leaves a loot entity numbered after the existing ones by j, at its own position, carrying the potion's five components |
| LootProperties.RunCreatesNothingElse | src/systems/loot_system.rs:11-37 | `process` gives new ids no components but the five loot kinds, and ids beyond the created ones none at all |
| LootSystem.DropsIsDowncastLookup | src/systems/loot_system.rs:15-24 | an entity drops loot exactly when it has Health at most 0 and a Position |
| LootSystem.DropsReadsOwnRow | src/systems/loot_system.rs:15-24 | whether an entity drops loot depends only on its own Health and Position |
| LootSystem.SpawnIsFiveAdds | src/systems/loot_system.rs:30-34 | spawning loot is the five `add_component` calls in the source's order |
| LootSystem.SpawnGivesLoot | src/systems/loot_system.rs:30-34 | the new entity holds the position, a '!' Render on the item layer, the name "Potion of Health", Item and Consumable |
| LootSystem.SpawnTouchesOnlyLoot | src/systems/loot_system.rs:30-34 | spawning changes no lookup of any other entity and no non-loot lookup of the new one |
| LootSystem.SpawnKeepsTables | src/systems/loot_system.rs:30-34 | spawning changes no table of a non-loot kind and keeps the tables well-typed |
| LootSystem.StepSpawnsOne | src/systems/loot_system.rs:15-35 | one iteration creates one entity exactly when the visited entity drops loot, and touches nothing outside it |
| LootSystem.StepSpawnsLoot | src/systems/loot_system.rs:24-35 | a dropping entity's iteration leaves the new entity holding the loot at its position |
| LootSystem.Dropped | src/systems/loot_system.rs:14-24 | the entities that drop loot, drawn from the visited ones, all of them, at most one per visit |
| LootSystem.RunKeepsOtherTables | src/systems/loot_system.rs:11-37 | `process` changes no table of a non-loot kind |
| LootSystem.RunStaysWellTyped | src/systems/loot_system.rs:11-37 | `process` keeps the tables well-typed |
| LootSystem.RunKeepsOldIds | src/systems/loot_system.rs:11-37 | `process` never shortens the entity list and never changes an existing entity's lookups |
| LootSystem.DropsUnchanged | src/systems/loot_system.rs:14-24 | earlier iterations change neither whether an entity drops nor its position |
| LootSystem.RunAppendsIds | src/systems/loot_system.rs:25 | `process` appends one fresh, consecutively numbered id per dropping entity |
| LootSystem.RunCountsIds | src/systems/loot_system.rs:11-37 | the entity list grows by exactly the number of dropping entities |
| LootSystem.DropLoot | src/systems/loot_system.rs:15-35 | one iteration leaves tables and entity list equal to `Step` |
| LootSystem.Process | src/systems/loot_system.rs:11-37 | the loop over the Health table leaves tables and entity list equal to the fold `Run` |
| JanitorSystem.RunRemovesEvents | src/systems/janitor_system.rs:9-16 | after the loop exactly the unvisited entities keep their Event, unchanged; no other table changes |
| JanitorSystem.RunClearsAllEvents | src/systems/janitor_system.rs:9-16 | after `process` no entity has an Event |
| JanitorSystem.RunTwiceIsRunOnce | src/systems/janitor_system.rs:9-16 | a second `process` changes nothing |
| JanitorSystem.Process | src/systems/janitor_system.rs:9-16 | the loop over the Event table leaves the tables equal to the fold `Run` |
| MoveSystem.StepMovesOne | src/systems/move_system.rs:14-30 | one iteration changes only the visited entity's Position, to its moved value, and no other table |
| MoveSystem.MovedReadsOwnRow | src/systems/move_system.rs:14-21 | where an entity moves depends only on its own Walk and Position |
| MoveSystem.RunKeepsOtherTables | src/systems/move_system.rs:9-32 | `process` changes no table but Position |
| MoveSystem.RunMovesPositions | src/systems/move_system.rs:9-32 | after `process` every walker's Position is shifted by its Walk and every other Position is unchanged |
| MoveSystem.ZeroWalkStaysPut | src/systems/move_system.rs:21 | a zero Walk leaves the Position where it was |
| MoveSystem.MoveOne | src/systems/move_system.rs:14-30 | one iteration leaves the tables equal to `Step` |
| MoveSystem.Process | src/systems/move_system.rs:9-32 | the loop over the Walk table leaves the tables equal to the fold `Run` |
| InputBroadcast.Broadcast | src/systems/input_system.rs:58-67 | the key handed to the Input components is the received key, or 0 when none was received |
| InputBroadcast.RunWritesKey | src/systems/input_system.rs:70-80 | every visited Input component holds the key afterwards; the set of Input entities, other Input components and every other table are unchanged |
| InputBroadcast.RunBroadcastsToAll | src/systems/input_system.rs:70-80 | when the whole Input table is visited, every Input component holds the key |
| InputBroadcast.InputSystem.constructor | src/systems/input_system.rs:21-30 | a new input system has an empty history |
| InputBroadcast.InputSystem.GetLastInput | src/systems/input_system.rs:82-84 | the last key of the history, and None exactly when the history is empty |
| InputBroadcast.InputSystem.NotifyInputComponents | src/systems/input_system.rs:70-80 | the loop over the Input table leaves the tables equal to the fold `Run` with that key |
| InputBroadcast.InputSystem.ProcessInputEvents | src/systems/input_system.rs:44-68 | a received key is appended to the history and becomes the last input; every Input component is given the received key, or 0 |
| InputKeys.HandleInput | src/input_system.rs:99-111 | q, and only q, quits; exactly w, d, s, a and q are mapped |
| InputKeys.MovesAgreeWithWalk | src/input_system.rs:99-111 | a key moves the player exactly when the Walk system gives it a non-zero delta, and by that delta |
| InputKeys.MovesAreUnitSteps | src/input_system.rs:101-106 | every move is one cell along exactly one axis |
| InputManager.HandleInput | src/input_manager.rs:25-49 | q, and only q, quits; exactly w, s, d, a and q are mapped |
| InputManager.AgreesWithInputSystem | src/input_manager.rs:25-49 | the input manager maps every key exactly as the legacy input system does |
| ConfigKeys.Code | src/config_manager.rs:9-15 | every key's discriminant is an ASCII code |
| ConfigKeys.CodeInjective | src/config_manager.rs:9-15 | distinct keys have distinct discriminants |
| ConfigKeys.Get | src/config_manager.rs:40-54 | a bound command is non-empty and starts with '+'; only upper-case W is unbound |
| ConfigKeys.BoundKeysAreWalkKeys | src/config_manager.rs:40-54 | exactly the walking keys are bound, each to the command naming its delta's direction |
| LegacyInputSystem.Moved | src/input_system.rs:59-60 | a Position is shifted by exactly the delta; a missing component stays missing; a zero delta changes nothing |
| LegacyInputSystem.ShiftAllLookup | src/input_system.rs:53-61 | the move loop shifts the Position of each visited entity once and changes no other lookup |
| LegacyInputSystem.ProcessedLookup | src/input_system.rs:40-67 | `process` shifts the Input entities' positions by the Walk delta of the pending key, zero for quit, an unmapped key or no key; nothing else changes |
| LegacyInputSystem.Process | src/input_system.rs:40-67 | the tables become `Processed`; entities and names are unchanged |
| LegacyInputSystem.ShiftPositions | src/input_system.rs:53-61 | the move loop leaves the tables equal to the fold `ShiftAll` |
| LegacyEntities.NewEntity | src/entities/mod.rs:51-56 | a new entity carries the given id and an empty name |
| LegacyEntities.Created | src/entities/mod.rs:29-40 | the map gains the empty id, bound to a new entity with that id; every other id keeps its entity |
| LegacyEntities.CreatedIdempotent | src/entities/mod.rs:29-40 | since every id is the empty string, creating twice is creating once and the map grows by at most one |
| LegacyEntities.EntityManager.constructor | src/entities/mod.rs:23-27 | a new manager holds no entities |
| LegacyEntities.EntityManager.CreateEntity | src/entities/mod.rs:29-40 | returns the empty id and inserts a new entity under it |
| LegacyEntities.HandleKey | src/entities/mod.rs:76-100 | never yields Pickup or ShowInventory; q, and only q, exits |
| LegacyEntities.HandleKeyAgreesWithInputSystem | src/entities/mod.rs:76-100 | maps every key exactly as the legacy input system does |
| EntityRecords.NewBuilder | src/entity.rs:6-10 | a new builder has no name |
| EntityRecords.WithName | src/entity.rs:12-16 | the builder holds the given name |
| EntityRecords.Entity.constructor | src/entity.rs:39-46 | the entity holds the given coordinates, glyph and colour |
| EntityRecords.Entity.Move | src/entity.rs:48-51 | the coordinates are shifted by the delta; glyph and colour are unchanged |
| EntityRecords.Build | src/entity.rs:18-27 | a new entity at (0, 0) with a blank glyph and colour 0, whatever the name |
| Spawners.MonsterRow | src/monsters.rs:3-21 | the monster holds its name, a glyph on the player layer, its position, full health, a zero Walk and Collidable |
| Spawners.MonsterKeepsRest | src/monsters.rs:3-21 | creating a monster changes no other entity and no kind it does not add |
| Spawners.MonsterKeepsWellTyped | src/monsters.rs:3-21 | creating a monster keeps the tables well-typed |
| Spawners.ZombieLookups | src/monsters.rs:36-49 | a zombie is a monster named "zombie" with 'z' and 10 hit points, plus RandomWalkAi; nothing else changes |
| Spawners.PotionLookup | src/items.rs:3-13 | the potion holds its position, a '!' on the item layer and Consumable; nothing else changes |
| Spawners.PotionKeepsWellTyped | src/items.rs:3-13 | spawning a potion keeps the tables well-typed |
| Spawners.CreateMonster | src/monsters.rs:3-21 | the next id is created and given the monster's six components |
| Spawners.CreateGoblin | src/monsters.rs:23-34 | the next id becomes a monster named "goblin" with 'g' and 8 hit points |
| Spawners.CreateZombie | src/monsters.rs:36-49 | the next id becomes a zombie |
| Spawners.SpawnPotionOfHealing | src/items.rs:3-13 | the next id becomes a healing potion |
| ComponentManager.NamesIdentifyStructs | src/components/mod.rs:55-113 | every component name is non-empty, and two components share a name exactly when they are the same struct |
| ComponentManager.FindFirst | src/components/mod.rs:38-44 | the component of the first pair filed for the id, and None exactly when no pair is |
| ComponentManager.FindFirstAppend | src/components/mod.rs:23-44 | appending a pair never changes an earlier answer, and answers for its id only when nothing did |
| ComponentManager.ComponentStore.constructor | src/components/mod.rs:17-21 | a new store has no lists |
| ComponentManager.ComponentStore.CreateComponent | src/components/mod.rs:23-36 | the pair is appended to the list of the component's name when that list exists; otherwise nothing changes; lists stay filed by name |
| ComponentManager.ComponentStore.GetEntityComponent | src/components/mod.rs:38-44 | the first component filed for the id under that name, None exactly when there is none, and of that name |
| ComponentManager.CreateThenGet | src/components/mod.rs:23-44 | after storing, a new id answers with the stored component and an id already present keeps its first one |
| GameStates.GameStateManager.constructor | src/game_state.rs:13-17 | a new manager has no states |
| GameStates.GameStateManager.ChangeState | src/game_state.rs:37-39 | the state is pushed and becomes current; the states beneath are kept |
| GameStates.GameStateManager.Update | src/game_state.rs:19-23 | the top state is updated, and nothing happens on an empty stack |
| GameStates.GameStateManager.Render | src/game_state.rs:25-27 | the top state is rendered |
| GameStates.GameStateManager.HandleEvents | src/game_state.rs:33-35 | the top state handles the events |
| Maps.CellIndexInverse | src/map.rs:74-76 | within the width, the cell index gives back the column as remainder and the row as quotient |
| Maps.CellIndexInjective | src/map.rs:74-76 | two in-width coordinates share a cell index only when they are equal |
| Maps.RectIndexInBounds | src/map.rs:155-190 | every cell of a rectangle that fits the map indexes inside the cell vector |
| Maps.Dug | src/map.rs:155-190 | digging keeps the number of cells |
| Maps.DugExactly | src/map.rs:155-190 | digging a rectangle digs exactly the cells inside it and leaves every other cell as it was |
| Maps.DigCell | src/map.rs:192-196 | a dug cell is floor: '.', not blocked, not blocking sight |
| Maps.Map.constructor | src/map.rs:34-41 | width by height cells of '#' that block neither movement nor sight, and no rooms |
| Maps.Map.Fill | src/map.rs:43-45 | every one of the width by height cells becomes the given cell |
| Maps.Map.InitCells | src/map.rs:58-72 | width by height walls |
| Maps.Map.IsBlocked | src/map.rs:78-83 | the blocked flag of the cell at (x, y); an index past the end panics |
| Maps.Map.SetCell | src/map.rs:122-125 | only the cell at (x, y) changes, to the given cell |
| Maps.GetAfterSet | src/map.rs:114-125 | reading a cell after setting one gives the new cell at that coordinate and the old one elsewhere |
| Maps.MapBuilder.constructor | src/map.rs:147-153 | a builder of the given size around a new map |
| Maps.MapBuilder.CreateRoom | src/map.rs:155-168 | the interior of the room is dug, its walls are kept, and the room is appended |
| Maps.MapBuilder.CreateHTunnel | src/map.rs:170-179 | the row from the smaller to the larger x, both ends included, is dug |
| Maps.MapBuilder.CreateVTunnel | src/map.rs:181-190 | the column from the smaller to the larger y, both ends included, is dug |
| Maps.MapBuilder.Build | src/map.rs:198-200 | the map that was built |
| Maps.LexLessEqReflexive | src/map.rs:107 | every string sorts at or before itself |
| Maps.LexLessEqTotal | src/map.rs:107 | any two strings are ordered one way or the other |
| Maps.LexLessEqTransitive | src/map.rs:107 | the ordering of strings is transitive |
| Maps.LexMax | src/map.rs:107 | `max` over the lines returns one of them |
| Maps.LexMaxIsGreatest | src/map.rs:107 | `max` returns a line at or after every line in string order |
| Maps.GetBufferDimensions | src/map.rs:94-112 | the height is the number of lines; the width is the length of a line that sorts at or after every line; an empty buffer panics |
| Maps.AsWrittenWidthMissesLongestLine | src/map.rs:107 | for "b\naa" the width is 1: `max` picks the greatest line, not the longest |
| Maps.LongestLine | src/map.rs:94-112 | no line is longer, and some line is as long |
| Maps.BufferDimensions | src/map.rs:94-112 | corrected dimensions: the number of lines, and a width no line exceeds |
| Maps.CellFor | src/map.rs:214-220 | the cell keeps its glyph and blocks movement and sight exactly for '#' |
| Maps.RowCells | src/map.rs:209-222 | every line becomes exactly `width` cells |
| Maps.BufferCellsLength | src/map.rs:203-226 | the buffer becomes lines times width cells |
| Maps.BufferCellsAt | src/map.rs:203-226 | cell (r, j) holds character j of line r, or ' ' beyond the line's end |
| Maps.IntendedWidthKeepsEveryCharacter | src/map.rs:94-112 | with the longest line's length as width, every character of the buffer ends up in its cell |
| Maps.CreateCellsFromBuffer | src/map.rs:203-226 | the nested loop builds exactly the cells `BufferCells` describes |
| Maps.LeafNodes | src/map.rs:275-292 | a completed search yields exactly one leaf, an existing node without a first child |
| Maps.LeafNodesIgnoreLastChild | src/map.rs:284-288 | the last-child branch is dead: the search never reads last children |
| Maps.SelfChildNeverEnds | src/map.rs:275-292 | a node that is its own first child makes the search recurse forever |
| Maps.Arena.constructor | src/map.rs:250-254 | a new arena has no nodes |
| Maps.Arena.Get | src/map.rs:256-258 | the node at the index, and None exactly past the end |
| Maps.Arena.NewNode | src/map.rs:260-273 | appends an unlinked node with the data and returns its index, the old length |
| GameMain.WalkableIsFloor | src/main.rs:58-83 | corrected walkability: a cell is walkable exactly when it lies in the room and `get_buffer` writes floor there |
| GameMain.AsWrittenAgreesAtTopZero | src/main.rs:58-60 | for a room whose top row is 0 the test as written equals the corrected one |
| GameMain.AsWrittenWalkableOutsideRoom | src/main.rs:58-60 | the literal 0 in the y bound makes (1, 1) walkable for a room starting at row 5, and rejects a floor cell of a room at row -5 |
| GameMain.RoomCollision | src/main.rs:121-142 | for the 20 x 20 room at the origin, no border cell is walkable and every cell from 1 to 18 in both axes is |
| GameMain.BufferRow | src/main.rs:66-77 | each buffer row has one character per column |
| GameMain.RoomRows | src/main.rs:65-78 | one row per room row, all of the room's width |
| GameMain.PushCell | src/main.rs:67-76 | one iteration appends the glyph of that cell |
| GameMain.PushRow | src/main.rs:66-77 | the inner loop appends exactly that room row |
| GameMain.RowsFromIsFlatten | src/main.rs:65-78 | the rows from j on, concatenated, are the rest of the buffer |
| GameMain.GetBuffer | src/main.rs:62-83 | the buffer is the room's rows in order, and the length check passes exactly when it has width times height characters |
| GameMain.BufferLength | src/main.rs:65-78 | the buffer has one character per cell of the room |
| GameMain.BufferCheckPasses | src/main.rs:80 | the length assertion holds exactly when neither side is negative or one of them is zero |
| GameMain.BufferLayout | src/main.rs:65-78 | the first and last rows are '-', other rows have '|' in the first and last columns and '.' elsewhere |
| GameMain.NewGameTime | src/main.rs:423-431 | the start of time is a valid time |
| GameMain.Tick | src/main.rs:433-453 | from a valid time: the second advances modulo 60, the minute advances modulo 60 only when the second wraps, and hour, day and year never change |
| GameMain.TickOfNew | src/main.rs:456-465 | ticking the start of time gives one second, which differs from it |
| GameMain.TickMoves | src/main.rs:433-453 | a tick always changes a valid time |
| GameMain.TickLosesAnHour | src/main.rs:437-446 | 59:59 ticks to 0:00 of the same hour: an hour of game time is lost |
| GameMain.TickCarried | src/main.rs:433-453 | corrected tick: one second later in a mixed-radix count, and still valid |
| GameMain.TickCarriedAgrees | src/main.rs:433-453 | the corrected tick agrees with `tick` except at the top of an hour |
| GameMain.ValidateSave | src/main.rs:282-289 | only the empty buffer panics |
| GameMain.HeaderPasses | src/main.rs:282-289 | a buffer whose first line is "Rogue" passes |
| GameMain.ValidateSaveAcceptsHeader | src/main.rs:282-289 | "Rogue" alone, or followed by a line ending and anything, passes |
| GameMain.ValidateSaveOnlyHeader | src/main.rs:282-289 | a buffer that passes starts with the line "Rogue" |
| GameMain.MapSpots | src/main.rs:493-501 | 400 tiles are read from the buffer |
| GameMain.MapSpotAt | src/main.rs:496-501 | tile y * 20 + x takes column x, row y and the buffer character at that index |
| GameMain.PlaceMapTile | src/main.rs:498-508 | one iteration creates the next entity and gives it the tile's components |
| GameMain.CreateMap | src/main.rs:485-511 | creates 400 consecutive entities, each given the tile for its cell |
| GameMain.MapTileAt | src/main.rs:485-511 | the tile at (x, y) has that Position and the buffer's glyph on the map layer, and is Collidable exactly on the border |
| GameBin.AnyArgIsMember | src/bin/main.rs:116 | `any` over the arguments holds exactly when the flag is one of them |
| GameBin.ProcessOrder | src/bin/main.rs:122-138 | twelve systems are processed in registration order, Damage before Loot before Reaper before Janitor |
| GameBin.GlyphRows | src/bin/main.rs:27-33 | the cell glyphs as height rows of width characters |
| GameBin.CellSpots | src/bin/main.rs:27-33 | one tile per map cell |
| GameBin.PlaceCellTile | src/bin/main.rs:29-40 | one iteration creates the next entity and gives it the tile of that cell |
| GameBin.CreateMapEntities | src/bin/main.rs:24-43 | creates one consecutive entity per map cell, each given the tile for its cell |
| GameBin.MapEntityAt | src/bin/main.rs:27-40 | the tile of cell (x, y) has that Position and the cell's glyph on the map layer, and is Collidable when the glyph is '-', '|' or '#' |
| GameBin.PlayerStarts | src/bin/main.rs:163-182 | the player starts with Health 100 of 100, Energy 0, Speed 10 and the given Position |
| GameBin.PlayerIdentity | src/bin/main.rs:163-182 | the player is named, drawn as '@' on the player layer, has Input 0 and Player, and no Turn, Damage or Prototype |
| GameBin.AddComponents | src/bin/main.rs:156-158 | the loop adds each component in order |
| GameBin.SpawnPlayer | src/bin/main.rs:152-158 | the next id is created and given the player's components |
| GameBin.ZombiesPlacedAt | src/bin/main.rs:49-51 | after placing zombies, the n-th new entity is a zombie at the n-th centre and nothing else changed |
| GameBin.PlaceZombie | src/bin/main.rs:50-51 | creates the next entity as a zombie at that point |
| GameBin.PopulateMap | src/bin/main.rs:45-60 | one zombie per room, at its centre, with consecutive ids |
| GameBin.ZombieAt | src/bin/main.rs:45-60 | each room's zombie is at the room's centre with Health 10 of 10 and RandomWalkAi |
| GameBin.LoadGameEntities | src/bin/main.rs:140-161 | creates the map tiles, then the player at the first room's centre, then one zombie per room, all with consecutive ids |
| GameBin.LoadedPlayer | src/bin/main.rs:140-161 | after loading, the player keeps Health 100 of 100, Energy 0, Speed 10 and the first room's centre |
| GameBin.Game.constructor | src/bin/main.rs:75-87 | an empty store and system manager, no history, not headless, not initialized, not running |
| GameBin.Game.HandleArgs | src/bin/main.rs:113-120 | headless is set exactly when "--headless" is among the arguments, and never cleared |
| GameBin.GameMount | src/bin/main.rs:122-137 | on a manager without a Chronos, mounting the game's twelve systems is one Chronos mount: a single new entity, the next id, holding GameTime and named "GameTime" |
| GameBin.GameTimeSurvivesLoad | src/bin/main.rs:140-161 | loading tiles, the player and the zombies after an entity keeps that entity's GameTime |
| GameBin.LoadAfterMount | src/bin/main.rs:89-111 | after mounting and loading, the GameTime entity is the first new id with its name and component, and the tiles, the player and the zombies take the ids after it |
| GameBin.Game.RegisterEach | src/bin/main.rs:123-134 | the twelve systems are appended in their fixed order |
| GameBin.Game.RegisterGameSystems | src/bin/main.rs:122-138 | the twelve systems are appended in order, each is mounted once in that order with the store, and the store becomes their composed mount; with no Energy holder yet the turn queue stays empty |
| GameBin.Game.RegisterAndLoad | src/bin/main.rs:100-106 | systems registered and mounted, then entities loaded: GameTime is the first new entity, named "GameTime", and the loaded ids follow it |
| GameBin.Game.Init | src/bin/main.rs:89-111 | arguments handled, systems registered and mounted, entities loaded after the GameTime entity, the turn queue still empty, and the game initialized |
| GameBin.GameTimeAfterInit | src/bin/main.rs:299-306 | a new game initialized headless has an entity named "GameTime", and it is entity 0 |
| GameBin.Game.Start | src/bin/main.rs:184-189 | an uninitialized game panics (the result is false); otherwise the game runs |
| GameBin.Game.Quit | src/bin/main.rs:244-246 | the game stops running |
| GameBin.Game.HandleInput | src/bin/main.rs:210-224 | headless does nothing; otherwise the input system broadcasts the key and the game stops exactly when the last input is 113 |
| GameBin.Game.Update | src/bin/main.rs:226-228 | every registered system is processed once, in order, with the store: the store becomes the composition of the systems' folds, names are kept, and with the janitor last no Event component is left |
| GameBin.Game.Cleanup | src/bin/main.rs:236-242 | unless headless, every system is unmounted in order |
| Dungeon.Value | src/dungeon.rs:52-63 | only Unused shows as a blank |
| Dungeon.ValueIsInjective | src/dungeon.rs:52-63 | every tile has its own character |
| Dungeon.TileIndexInverse | src/dungeon.rs:126-131 | within the width, the index `x + y * width` gives back x and y |
| Dungeon.TileIndexInGrid | src/dungeon.rs:126-131 | every cell of the grid indexes inside a vector of width times height tiles |
| Dungeon.Placed | src/dungeon.rs:178-186 | placing keeps the number of tiles |
| Dungeon.PlacedAt | src/dungeon.rs:178-186 | placing sets the interior to the tile and the surrounding ring to Wall, and leaves every other cell |
| Dungeon.FitsKeepsRingInGrid | src/dungeon.rs:166-186 | the ring around a rectangle that passes the bound check lies on the grid |
| Dungeon.RoomFor | src/dungeon.rs:140-153 | a North room is centred horizontally on x and ends just above y; any other direction leaves it at the origin |
| Dungeon.OnlyNorthFits | src/dungeon.rs:147-167 | a room for any direction but North sits at the origin and always fails the bound check |
| Dungeon.FillStep | src/dungeon.rs:179-184 | writing one cell of the ring or interior extends the filled part by that cell |
| Dungeon.RowFilled | src/dungeon.rs:178-186 | a finished row moves the fill to the start of the next row |
| Dungeon.AllFilled | src/dungeon.rs:178-186 | once the last row is done, the tiles are exactly the placed tiles |
| Dungeon.Dungeon.constructor | src/dungeon.rs:82-90 | the size is recorded, and the tile, room and exit vectors are empty |
| Dungeon.Dungeon.Blank | src/dungeon.rs:82-90 | the evidently intended constructor: the size is recorded, and the tile vector holds one Unused tile per grid cell |
| Dungeon.Dungeon.GetTile | src/dungeon.rs:122-128 | Unused off the grid, otherwise the stored tile |
| Dungeon.Dungeon.SetTile | src/dungeon.rs:130-132 | only the tile at that cell changes |
| Dungeon.Dungeon.PlaceRect | src/dungeon.rs:165-189 | InvalidRectsize when the rectangle touches the border, TileOccupied when an interior cell is used, otherwise Ok with the rectangle placed; on an error nothing changes. A rectangle that passes the bound check is read and written through the tile vector, so it requires a grid-sized vector: on a store fresh from `Dungeon::new` that read panics (see Findings), and the placing branch is reached on the blank grid of `Dungeon.Dungeon.Blank` |
| Dungeon.Dungeon.CheckFree | src/dungeon.rs:170-176 | true exactly when every interior cell is Unused |
| Dungeon.Dungeon.FillRect | src/dungeon.rs:178-186 | the tiles become the placed tiles |
| Dungeon.Dungeon.FillRow | src/dungeon.rs:179-185 | one row of the ring-and-interior loop is filled |
| Dungeon.Dungeon.MakeRoom | src/dungeon.rs:134-163 | on a grid-sized tile vector, a room that fits on free tiles is placed as Floor and recorded; otherwise the result is the error "Error" and nothing changes. A fitting room on an unsized vector is the panic of `place_rect` (see Findings) |
| Dungeon.Dungeon.Generate | src/dungeon.rs:92-112 | whenever it returns, the result is Ok: a first room North of the centre that does not fit changes nothing, and one that fits is placed and recorded on a grid-sized tile vector. Straight after `Dungeon::new` a fitting room panics instead (`Dungeon.GenerateOnNew`) |
| Dungeon.GenerateOnNew | src/dungeon.rs:82-128 | on a store fresh from `Dungeon::new`, `generate` reads past the end of the empty tile vector (and panics) exactly when its first room passes the bound check |
| Dungeon.CentreRoomFits | src/dungeon.rs:92-99 | on a 20 x 20 grid the smallest first room, North of the centre, passes the bound check, so `generate` after `Dungeon::new` panics there |
| Dungeon.GenerateOnBlank | src/dungeon.rs:92-112 | on the blank grid `generate` returns Ok and places and records its first room exactly when the room fits, keeping the grid blank otherwise |
| Consoles.ColorChannels | src/console.rs:4-16 | a colour is rebuilt from its three channel accessors |
| Consoles.Blank | src/console.rs:32-41 | a blank console holds width times height tiles |
| Consoles.DrawnIdempotent | src/console.rs:61-69 | drawing the same tile twice is drawing it once |
| Consoles.DrawnKeepsExactlyWhatIsMissing | src/console.rs:61-69 | a '\0' character and a missing colour keep the tile's own; given ones replace it; drawing nothing changes nothing |
| Consoles.DrawnRect | src/console.rs:47-72 | drawing keeps the number of tiles |
| Consoles.DrawnRectAt | src/console.rs:47-72 | exactly the cells of the rectangle are redrawn; every other tile is unchanged |
| Consoles.DrawNothingKeepsBuffer | src/console.rs:58-71 | drawing '\0' with no colours leaves the buffer as it was |
| Consoles.DrawStep | src/console.rs:60-69 | redrawing one cell extends the drawn part by that cell |
| Consoles.RowDrawn | src/console.rs:58-71 | a finished row moves the drawing to the start of the next row |
| Consoles.Console.constructor | src/console.rs:32-41 | width by height blank tiles: ' ' in white on black |
| Consoles.Console.Clear | src/console.rs:43-45 | every tile becomes the given character and colours; the size is unchanged |
| Consoles.Console.DrawRect | src/console.rs:47-72 | the buffer becomes `DrawnRect` of the old buffer |
| Consoles.Console.DrawRow | src/console.rs:59-70 | the inner loop redraws one row of the rectangle |
| Consoles.Console.Print | src/console.rs:74-83 | `print` changes nothing |
| Consoles.Console.PutChar | src/console.rs:85-92 | only the character of that tile changes; its colours are kept |
| Consoles.InitRoot | src/console.rs:100-105 | a new blank console of the given size |
| Bresenham.Emit | src/bresenham.rs:34-38 | the pushed point has the given major and minor coordinates |
| Bresenham.EmitOfCoordinates | src/bresenham.rs:12-15 | swapping into the traced frame and back returns the point |
| Bresenham.Normalized | src/bresenham.rs:6-26 | after the swaps the trace runs from the smaller to the larger major coordinate, the minor extent is at most the major one, the major extent is the longer side, and the traced ends are the two points, in order or reversed |
| Bresenham.Reversed | src/bresenham.rs:47-52 | reversing keeps the length |
| Bresenham.ErrorPinsEnd | src/bresenham.rs:28-45 | an error term that started at dx / 2 and stays in [0, dx) has absorbed no whole dx |
| Bresenham.ErrorTermStep | src/bresenham.rs:39-44 | one iteration keeps the error-term bookkeeping, stepping the minor coordinate exactly when the term goes negative |
| Bresenham.ErrorTermAtEnd | src/bresenham.rs:33-45 | after dx steps the minor coordinate has stepped exactly the minor extent times |
| Bresenham.ReversedDescending | src/bresenham.rs:47-52 | a reversed ascending trace descends from the far end |
| Bresenham.ReversedMinorUnit | src/bresenham.rs:47-52 | reversing keeps every minor step within one |
| Bresenham.MonotoneNeighbours | src/bresenham.rs:33-52 | a trace whose major coordinate moves by one per point and whose minor coordinate moves by at most one has grid-neighbour steps |
| Bresenham.EmitAll | src/bresenham.rs:33-45 | one point per traced major coordinate |
| Bresenham.EmitAllPush | src/bresenham.rs:34-38 | pushing one more point extends the trace |
| Bresenham.EmitAllStepwise | src/bresenham.rs:33-45 | a minor coordinate that moves by 0 or one step per point gives an ascending trace with unit minor steps |
| Bresenham.TraceFinished | src/bresenham.rs:33-45 | a completed trace has one point per major coordinate, starts at the traced start, ascends, and ends at the last minor coordinate |
| Bresenham.TracedStep | src/bresenham.rs:33-45 | one loop iteration keeps the trace invariant |
| Bresenham.TracedFinished | src/bresenham.rs:33-45 | at the loop's end the trace reaches the far end when the decrement is not negative, and stays on the start row when it is |
| Bresenham.Advance | src/bresenham.rs:39-44 | the error update of one iteration keeps the trace invariant |
| Bresenham.Trace | src/bresenham.rs:25-45 | the loop pushes one point per major coordinate from the start, ascending with unit minor steps, ending at the far end unless the decrement is negative |
| Bresenham.SwapStep | src/bresenham.rs:48-51 | one swap extends the reversed part by one pair |
| Bresenham.SwappedAll | src/bresenham.rs:47-52 | after `len / 2` swaps the list is reversed |
| Bresenham.ReverseInPlace | src/bresenham.rs:47-52 | the swap loop reverses the list |
| Bresenham.Line | src/bresenham.rs:3-55 | the points of `get_line` for a given decrement: one per step of the longer side, neighbours, walking from the first point toward the second |
| Bresenham.GetLineAsWritten | src/bresenham.rs:3-55 | as written: length, direction and neighbour steps are right, and both ends are right when the traced minor delta is not negative; otherwise every point stays on the start's minor coordinate |
| Bresenham.AsWrittenMissesFarEnd | src/bresenham.rs:39-44 | the line from (0, 2) to (2, 0) is (0, 2), (1, 2), (2, 2): it never reaches (2, 0) |
| Bresenham.GetLine | src/bresenham.rs:3-55 | corrected: the line starts at the first point, ends at the second, has one point per step of the longer side, and consecutive points are neighbours |
| MapTiles.TileLookup | src/bin/main.rs:29-40 | a tile entity gets a map-layer Render of its glyph and its Position, and Collidable only for a solid glyph; no other entity or kind changes |
| MapTiles.PlaceTile | src/bin/main.rs:29-40 | placing a tile creates the next entity id, adds exactly the tile's components and keeps the names |
| MapTiles.TilesPlacedAt | src/bin/main.rs:27-42 | after n tiles, the k-th new entity holds the k-th spot's tile and every other entity is unchanged |
| MapTiles.NoTilesPlaced | src/bin/main.rs:27-28 | before the loop no tile is placed |
| MapTiles.TilePlaced | src/bin/main.rs:29-40 | one more tile extends the placed prefix by one |
| MapTiles.GridSpotsLength | src/bin/main.rs:27-28 | a rectangular map yields width times height spots |
| MapTiles.GridSpotAt | src/bin/main.rs:27-31 | spot number `y * width + x` is the cell at (x, y) with its glyph |
| MapTiles.GridTileLookup | src/bin/main.rs:24-43 | after the whole map, the entity for cell (x, y) holds that cell's tile |
| Entities.AddedLookup | src/entities.rs:75-87 | after `add_component` a lookup of the added kind on that entity yields the new value, and every other lookup is unchanged |
| TurnScheduling.ProcessTurnAsWritten | src/systems/turn_system.rs:20-57 | as written: the call panics on the nested borrow exactly when the queue is not empty and its front has spent its energy; otherwise it returns without change |
| TurnScheduling.AsWrittenPanicsOnSpentFront | src/systems/turn_system.rs:22-35 | a queue holding one entity with energy 0 panics at `borrow_mut` while the shared borrow taken at the start is still alive |
| Spawners.MonsterLookupAll | src/monsters.rs:3-21 | a monster's own lookups are its components over whatever it held before; every other entity's lookups are unchanged |
| Spawners.ZombieLookupAll | src/monsters.rs:36-49 | a zombie's own lookups are the zombie components over what it held before; every other entity is unchanged |
| GameBin.PopulateWithPlayer | src/bin/main.rs:152-160 | the player is the next id with the player's components, followed by one zombie per room centre with consecutive ids |

## Left out

- Terminal and window output is not modelled. This covers the ncurses and SDL calls, the render systems, and drawing the console. These are foreign calls. `Console::print` is modelled as the no-op it is.
- The input threads and channels are not modelled. This covers `start_input_thread`, `input_manager::init` and the blocking `recv`. They are concurrency, so the key a frame receives is a parameter. At most one key is consumed per call, as in the code.
- Random numbers are parameters with range preconditions, not drawn. This covers:
  - the attack roll;
  - the random-walk steps;
  - the map generator behind `simple_map_gen`;
  - the room sizes of `make_room` and `generate`.

  The generated map and the room centres (`Room::center`) are parameters of loading the game.
- `HashMap` iteration order is a parameter. Each system takes an order that lists its table's keys exactly once. No property depends on which order it is.
- Rust panics on `unwrap`, `[0]` and `expect` are preconditions wherever a panic is not the point. Examples are a Walk entity without Position in collision, and no Player entity when a log line is due. Where the panic is the point, it is an outcome in the model: `kill_entity` on a dead id, `process_turn`'s double borrow, and `get_all_leaf_nodes` indexing past the arena.
- Entities.GetComponent: the prototype recursion is bounded by a depth parameter. Divergence is stated as "no depth suffices" rather than as non-termination.
- Maps.LeafNodes: the walk down `first_child` is bounded by a depth parameter, for the same reason.
- Integer widths are not modelled. `i32`/`usize` overflow and the `as u32`/`as i32` casts in `get_line`, `place_rect`, `make_room`, the map and the console are left out: coordinates and sizes are unbounded integers. Colour channels are bytes (`u8`).
- Dungeon.Dungeon.MakeRoom: requires `roomWidth / 2 <= x` and `roomHeight <= y` for a room to the north, so the `usize` underflow of `x - room.width / 2` and `y - room.height` is ruled out rather than modelled. `Dungeon.Dungeon.Generate` requires the same of the first room at the centre.
- Maps.GetBufferDimensions: line lengths are counted in characters, while Rust's `str::len` counts UTF-8 bytes. The two agree on ASCII buffers; widths of lines with other characters are not captured.
- SystemManagement.SystemManager: the manager holds the game's twelve system kinds, not arbitrary `System` objects. Every TurnSystem entry stands for one shared turn-system object; the code would give each registration its own instance.
- SystemManagement.SystemManager.ProcessSystems: each system's iteration orders and random draws are passed in, one `ProcessArgs` per system. The frame requires that every system meets its own `process` preconditions in the state the earlier systems leave; those are the panics of each system, ruled out rather than modelled.
- Save files and logging are not modelled. This covers `Game::serialize`, `save` on Map, Rect and Game, the file logger, and the `debug!`/`info!` macros. They are file I/O.
- The body of `Game::run`'s frame loop is not modelled. It draws, sleeps and measures the clock. `GameBin.Game.Start` models its initialisation guard and the `running` flag, and the loop's steps are `HandleInput` and `Update`.
- The EventLog system is registered in its place in the order, but its `process` is not modelled: in a frame it leaves the store as it was. It only writes log output.
- The `System` hooks of the render and input systems are not modelled; they are terminal-bound.
- The `width`/`height`/`get_dimensions` accessors are not modelled. They are plain field reads, and the model reads the fields directly.
- `EntityRecords.Build` ignores the builder's name, as the code does. The legacy entity's colour is a byte.
- `ChronosSystem.Process` models the system's `process`, which is a no-op. The commented-out time advance is not modelled.
- An entity id printed in a log line is rendered in decimal. Rust's `Display` formatting beyond that is not modelled.

## Findings

| source | as written | input that shows it | evidently intended | confidence | as-written member | corrected member |
|---|---|---|---|---|---|---|
| src/systems/turn_system.rs:22-35 | `process_turn` holds a shared `borrow()` of the queue and then calls `borrow_mut()` to rotate it, which panics | a queue holding one entity whose energy is 0 | rotate the queue right and hand the Turn over to the new front | not executed | TurnScheduling.AsWrittenPanicsOnSpentFront | TurnScheduling.TurnSystem.ProcessTurn |
| src/map.rs:107 | the width is the length of the lexicographically greatest line (`lines().max()`) | the buffer "b\naa": width 1, so `create_cells_from_buffer` drops the second 'a' | the width is the length of the longest line, so every character gets a cell | not executed | Maps.AsWrittenWidthMissesLongestLine | Maps.IntendedWidthKeepsEveryCharacter |
| src/bresenham.rs:39 | `err -= dy` with a negative minor delta only grows `err`, so the minor coordinate never moves | the line from (0, 2) to (2, 0) gives (0, 2), (1, 2), (2, 2) | subtract the absolute minor delta, so the line reaches the far end | not executed | Bresenham.AsWrittenMissesFarEnd | Bresenham.GetLine |
| src/main.rs:437-446 | the hour test `min == 60` sits in an `else if` behind the seconds test, so it runs only when no minute was just added, and then `min` is below 60; the minute then wraps through `%= 60` without carrying | 00:59:59 ticks to 00:00:00, one hour lost | carry the minute rollover into the hour | not executed | GameMain.TickLosesAnHour | GameMain.TickCarried |
| src/main.rs:59 | the lower y bound of `is_walkable` is the literal 0 instead of the room's own y | `Rect(0, 5, 10, 10)` at (1, 1), above the room, is walkable | the lower y bound is the room's y, as for x | not executed | GameMain.AsWrittenWalkableOutsideRoom | GameMain.WalkableIsFloor |
| src/dungeon.rs:82-90 | `Dungeon::new` leaves the tile vector empty, and nothing ever sizes it, so the first `get_tile` of `place_rect` (src/dungeon.rs:126) indexes past its end | `Dungeon::new(20, 20)` then `generate`: the 3 x 3 room at (9, 7) passes the bound check and its first read panics | fill the vector with one Unused tile per cell, so the first room is placed | not executed | Dungeon.GenerateOnNew | Dungeon.GenerateOnBlank |
