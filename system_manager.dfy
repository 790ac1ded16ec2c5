/**
 * `SystemManager`: an ordered list of systems and the three loops that
 * call one hook of every system, each time with the store. What a hook
 * does to the store is the system's own `mount` or `process`; the manager
 * dispatches to it, and also keeps, in `calls`, the hooks it invoked on
 * which system, in order.
 *
 * A system's `process` visits a HashMap, and some draw random numbers;
 * the iteration orders and the draws of one call are its `ProcessArgs`.
 */
module SystemManagement {
  import opened Common
  import K = Kinds
  import opened Components
  import opened Entities
  import opened Systems
  import ChronosSystem
  import TurnScheduling
  import RandomWalk = RandomWalkSystem
  import Walking = WalkSystem
  import Collision = CollisionSystem
  import Attack = AttackSystem
  import Damage = DamageSystem
  import Moving = MoveSystem
  import Loot = LootSystem
  import Reaping = ReaperSystem
  import Janitorial = JanitorSystem

  /** The systems the game registers, named after their types. */
  datatype SystemId =
    | Chronos | TurnSystem | RandomWalkAiSystem | WalkSystem | CollisionSystem | AttackSystem
    | DamageSystem | MoveSystem | LootSystem | EventLogSystem | Reaper | Janitor

  datatype Hook = MountHook | ProcessHook | UnmountHook

  /** One call of hook `h` on each system of `systems`, in list order. */
  function HookCalls(h: Hook, systems: seq<SystemId>): seq<(Hook, SystemId)> {
    seq(|systems|, i requires 0 <= i < |systems| => (h, systems[i]))
  }

  /** One more system visited: its call comes after the earlier ones'. */
  lemma HookCallsStep(h: Hook, systems: seq<SystemId>, i: nat)
    requires i < |systems|
    ensures HookCalls(h, systems[..i + 1]) == HookCalls(h, systems[..i]) + [(h, systems[i])]
  {
  }

  // Mounting

  /** The tables, the live list and the names of the store. */
  type Store = (Tables, seq<Entity>, map<Entity, string>)

  /**
   * One system's `mount` on the store: Chronos creates the next entity,
   * gives it a GameTime and names it "GameTime"; the turn system only
   * fills its own queue; every other system has the default, empty hook.
   */
  function Mounted(id: SystemId, s: Store): Store {
    if id == Chronos then
      (Added(s.0, |s.1|, GameTime), s.1 + [|s.1|], s.2[|s.1| := ChronosSystem.GameTimeName])
    else s
  }

  /** `mount` of each of `ids`, in order. */
  function MountAll(ids: seq<SystemId>, s: Store): Store
    decreases |ids|
  {
    if ids == [] then s else Mounted(ids[|ids| - 1], MountAll(ids[..|ids| - 1], s))
  }

  /** Mounting never touches the Energy table, so the turn queue sees the same keys throughout. */
  lemma {:induction false} MountAllKeepsEnergy(ids: seq<SystemId>, s: Store)
    ensures TableOf(MountAll(ids, s).0, K.Energy) == TableOf(s.0, K.Energy)
    decreases |ids|
  {
    if ids != [] {
      var r := MountAll(ids[..|ids| - 1], s);
      MountAllKeepsEnergy(ids[..|ids| - 1], s);
      if ids[|ids| - 1] == Chronos {
        assert SameTable(r.0, Added(r.0, |r.1|, GameTime), K.Energy);
      }
    }
  }

  /** Mounting systems other than Chronos leaves the store as it was. */
  lemma {:induction false} MountAllWithoutChronos(ids: seq<SystemId>, s: Store)
    requires Chronos !in ids
    ensures MountAll(ids, s) == s
    decreases |ids|
  {
    if ids != [] {
      assert ids[|ids| - 1] in ids;
      MountAllWithoutChronos(ids[..|ids| - 1], s);
    }
  }

  /** Mounting `a + b` is mounting `a`, then `b`. */
  lemma {:induction false} MountAllAppend(a: seq<SystemId>, b: seq<SystemId>, s: Store)
    ensures MountAll(a + b, s) == MountAll(b, MountAll(a, s))
    decreases |b|
  {
    if b == [] {
      assert a + b == a;
    } else {
      assert (a + b)[..|a + b| - 1] == a + b[..|b| - 1];
      MountAllAppend(a, b[..|b| - 1], s);
    }
  }

  /** One more system mounted: the prefix fold, then that system's `mount`. */
  lemma MountAllStep(ids: seq<SystemId>, s: Store, i: nat)
    requires i < |ids|
    ensures MountAll(ids[..i + 1], s) == Mounted(ids[i], MountAll(ids[..i], s))
    ensures ids[..i + 1] == ids[..i] + [ids[i]]
  {
    assert ids[..i + 1][..i] == ids[..i];
  }

  /** A list with exactly one Chronos, at its front, mounts exactly one GameTime entity. */
  lemma OneChronosMounts(rest: seq<SystemId>, s: Store)
    requires Chronos !in rest
    ensures MountAll([Chronos] + rest, s) == Mounted(Chronos, s)
  {
    MountAllAppend([Chronos], rest, s);
    assert [Chronos][..0] == [];
    MountAllWithoutChronos(rest, MountAll([Chronos], s));
  }

  /** A queue that grew twice: its growth is the first growth, then the second. */
  lemma GrowthSplits<T>(q0: seq<T>, q1: seq<T>, q2: seq<T>)
    requires q0 <= q1 <= q2
    ensures forall x :: x in q2[|q0|..] <==> x in q1[|q0|..] || x in q2[|q1|..]
  {
    assert q2[|q0|..] == q1[|q0|..] + q2[|q1|..];
  }

  /** A queue that only gained keys of an empty table did not grow. */
  lemma NothingToQueue(q0: seq<Entity>, q: seq<Entity>, t: Table)
    requires q0 <= q && forall e | e in q[|q0|..] :: e in t
    ensures t == map[] ==> q == q0
  {
    if |q| > |q0| {
      var first := q[|q0|];
      assert first in q[|q0|..];
      assert first in t;
    }
    if t == map[] {
      assert |q| == |q0|;
      assert q == q[..|q0|];
    }
  }

  // Processing

  /**
   * What one `process` call consumes: `order`, the order in which it
   * visits its table; `others`, the Collidable or the Player table's keys;
   * `rolls`, the attack draws; `steps`, the random-walk draws.
   */
  datatype ProcessArgs = ProcessArgs(order: seq<Entity>, others: seq<Entity>, rolls: seq<int>, steps: seq<(int, int)>)

  /** The tables and the live list; `process` never renames an entity. */
  type State = (Tables, seq<Entity>)

  /**
   * What each system's `process` needs in order not to panic, and that
   * its orders enumerate the tables it visits.
   */
  ghost predicate Ready(id: SystemId, a: ProcessArgs, s: State) {
    var t := s.0;
    match id
    case Chronos => true
    case TurnSystem =>
      IsEnumeration(a.order, TableOf(t, K.Energy).Keys) && forall e | e in a.order :: Resolves(t, e, K.Speed)
    case RandomWalkAiSystem =>
      IsEnumeration(a.order, TableOf(t, K.RandomWalkAi).Keys) && |a.steps| == |a.order| && RandomWalk.ValidRolls(a.steps)
    case WalkSystem => IsEnumeration(a.order, TableOf(t, K.Input).Keys)
    case CollisionSystem =>
      IsEnumeration(a.order, TableOf(t, K.Walk).Keys) && IsEnumeration(a.others, TableOf(t, K.Collidable).Keys) &&
      (forall w | w in a.order :: HasComponent(t, w, K.Position)) &&
      (forall c | c in a.others :: Resolves(t, c, K.Position))
    case AttackSystem =>
      IsEnumeration(a.order, TableOf(t, K.Event).Keys) && |a.rolls| == |a.order| && Attack.ValidRolls(a.rolls)
    case DamageSystem =>
      IsEnumeration(a.order, TableOf(t, K.Damage).Keys) && IsEnumeration(a.others, TableOf(t, K.Player).Keys) &&
      (forall e | e in a.order :: Resolves(t, e, K.Name)) &&
      ((exists e | e in a.order :: Damage.Applies(t, e)) ==> a.others != [])
    case MoveSystem => IsEnumeration(a.order, TableOf(t, K.Walk).Keys)
    case LootSystem =>
      IsEnumeration(a.order, TableOf(t, K.Health).Keys) && forall e | e in a.order :: Resolves(t, e, K.Position)
    case EventLogSystem => true
    case Reaper =>
      IsEnumeration(a.order, TableOf(t, K.Health).Keys) && IsEnumeration(a.others, TableOf(t, K.Player).Keys) &&
      (forall e | e in a.order && Reaping.Dies(t, e) :: e in s.1 && Resolves(t, e, K.Name)) &&
      (forall i | 0 <= i < |a.order| && Reaping.Dies(t, a.order[i]) && GetComponentMutAs(t, a.order[i], K.Name).Some? ::
        Reaping.PlayerSurvives(t, a.others, a.order[..i]))
    case Janitor => IsEnumeration(a.order, TableOf(t, K.Event).Keys)
  }

  /**
   * One system's `process` on the store, as its own module's fold states
   * it. Chronos's and the event log's leave the store alone. (The draws
   * and the order differ in length, and the tables are ill-typed, only
   * where `Ready` or the store's validity fails.)
   */
  ghost function Processed(id: SystemId, a: ProcessArgs, s: State): State {
    var t := s.0;
    match id
    case Chronos => s
    case TurnSystem => (TurnScheduling.Run(t, a.order), s.1)
    case RandomWalkAiSystem => if |a.steps| == |a.order| then (RandomWalk.Run(t, a.order, a.steps), s.1) else s
    case WalkSystem => (Walking.Run(t, a.order), s.1)
    case CollisionSystem =>
      if WellTyped(t) then (Collision.Run(t, Collision.OccupiedSpaces(t, a.others), a.order), s.1) else s
    case AttackSystem => if |a.rolls| == |a.order| then (Attack.Run(t, a.order, a.rolls), s.1) else s
    case DamageSystem => (Damage.Run(t, a.others, a.order), s.1)
    case MoveSystem => (Moving.Run(t, a.order), s.1)
    case LootSystem => Loot.Run(s, a.order)
    case EventLogSystem => s
    case Reaper => Reaping.Run(s, a.others, a.order)
    case Janitor => (Janitorial.Run(t, a.order), s.1)
  }

  /** `process` of each of `ids`, in order, the i-th with `args[i]`. */
  ghost function ProcessAll(ids: seq<SystemId>, args: seq<ProcessArgs>, s: State): State
    requires |args| == |ids|
    decreases |ids|
  {
    if ids == [] then s
    else Processed(ids[|ids| - 1], args[|ids| - 1], ProcessAll(ids[..|ids| - 1], args[..|ids| - 1], s))
  }

  /** Every system meets its `process` preconditions in the state the earlier ones leave. */
  ghost predicate FrameReady(ids: seq<SystemId>, args: seq<ProcessArgs>, s: State)
    requires |args| == |ids|
    decreases |ids|
  {
    ids == [] ||
    (FrameReady(ids[..|ids| - 1], args[..|ids| - 1], s) &&
     Ready(ids[|ids| - 1], args[|ids| - 1], ProcessAll(ids[..|ids| - 1], args[..|ids| - 1], s)))
  }

  /** `FrameReady` read at the i-th system. */
  lemma {:induction false} ReadyAt(ids: seq<SystemId>, args: seq<ProcessArgs>, s: State, i: nat)
    requires |args| == |ids| && i < |ids| && FrameReady(ids, args, s)
    ensures Ready(ids[i], args[i], ProcessAll(ids[..i], args[..i], s))
    decreases |ids|
  {
    var n := |ids| - 1;
    if i < n {
      ReadyAt(ids[..n], args[..n], s, i);
      assert ids[..n][..i] == ids[..i] && args[..n][..i] == args[..i];
    }
  }

  /** One more system processed: the prefix fold, then that system's `process`. */
  lemma ProcessAllStep(ids: seq<SystemId>, args: seq<ProcessArgs>, s: State, i: nat)
    requires |args| == |ids| && i < |ids|
    ensures ProcessAll(ids[..i + 1], args[..i + 1], s) == Processed(ids[i], args[i], ProcessAll(ids[..i], args[..i], s))
  {
    assert ids[..i + 1][..i] == ids[..i] && args[..i + 1][..i] == args[..i];
  }

  class SystemManager {
    var systems: seq<SystemId>
    /** The hook invocations made so far, oldest first. */
    var calls: seq<(Hook, SystemId)>
    /** The turn system's own state, its queue; every TurnSystem entry stands for this one object. */
    const turns: TurnScheduling.TurnSystem

    constructor ()
      ensures systems == [] && calls == []
      ensures fresh(turns) && turns.queue == []
    {
      systems := [];
      calls := [];
      turns := new TurnScheduling.TurnSystem();
    }

    /** `register_system`: appended after every earlier system. */
    method RegisterSystem(s: SystemId)
      modifies this
      ensures systems == old(systems) + [s]
      ensures calls == old(calls)
    {
      systems := systems + [s];
    }

    /**
     * `mount`: every system's `mount`, once each, in registration order.
     * The store becomes `MountAll` of the old one; the turn queue gains,
     * for each TurnSystem entry, the keys of the (unchanging) Energy table.
     */
    method Mount(em: EntityManager)
      requires em.Valid()
      modifies this, turns, em
      ensures systems == old(systems)
      ensures calls == old(calls) + HookCalls(MountHook, systems)
      ensures em.Valid()
      ensures (em.tables, em.entities, em.names) == MountAll(systems, (old(em.tables), old(em.entities), old(em.names)))
      ensures old(turns.queue) <= turns.queue
      ensures forall e | e in turns.queue[|old(turns.queue)|..] :: e in TableOf(old(em.tables), K.Energy)
      ensures TurnSystem in systems ==>
        forall e | e in TableOf(old(em.tables), K.Energy) :: e in turns.queue[|old(turns.queue)|..]
      ensures TableOf(old(em.tables), K.Energy) == map[] ==> turns.queue == old(turns.queue)
    {
      ghost var s0: Store := (em.tables, em.entities, em.names);
      ghost var q0 := turns.queue;
      var i := 0;
      while i < |systems|
        invariant 0 <= i <= |systems|
        invariant systems == old(systems)
        invariant calls == old(calls) + HookCalls(MountHook, systems[..i])
        invariant em.Valid()
        invariant (em.tables, em.entities, em.names) == MountAll(systems[..i], s0)
        invariant q0 <= turns.queue
        invariant forall e | e in turns.queue[|q0|..] :: e in TableOf(s0.0, K.Energy)
        invariant TurnSystem in systems[..i] ==> forall e | e in TableOf(s0.0, K.Energy) :: e in turns.queue[|q0|..]
      {
        ghost var q1 := turns.queue;
        MountAllKeepsEnergy(systems[..i], s0);
        MountOne(systems[i], em);
        GrowthSplits(q0, q1, turns.queue);
        MountAllStep(systems, s0, i);
        HookCallsStep(MountHook, systems, i);
        calls := calls + [(MountHook, systems[i])];
        i := i + 1;
      }
      assert systems[..i] == systems;
      NothingToQueue(q0, turns.queue, TableOf(s0.0, K.Energy));
    }

    /** One system's `mount`, dispatched on its kind. */
    method MountOne(id: SystemId, em: EntityManager)
      requires em.Valid()
      modifies turns, em
      ensures em.Valid()
      ensures (em.tables, em.entities, em.names) == Mounted(id, (old(em.tables), old(em.entities), old(em.names)))
      ensures old(turns.queue) <= turns.queue
      ensures forall e | e in turns.queue[|old(turns.queue)|..] :: e in TableOf(old(em.tables), K.Energy)
      ensures id == TurnSystem ==> forall e | e in TableOf(old(em.tables), K.Energy) :: e in turns.queue[|old(turns.queue)|..]
    {
      if id == Chronos {
        ChronosSystem.Mount(em);
      } else if id == TurnSystem {
        turns.Mount(em);
      }
    }

    /** One system's `process`, dispatched on its kind. */
    method ProcessOne(id: SystemId, a: ProcessArgs, em: EntityManager)
      requires em.Valid() && Ready(id, a, (em.tables, em.entities))
      modifies this, em
      ensures systems == old(systems) && calls == old(calls) + [(ProcessHook, id)]
      ensures em.Valid() && em.names == old(em.names)
      ensures (em.tables, em.entities) == Processed(id, a, (old(em.tables), old(em.entities)))
      ensures id == Janitor ==> forall e :: !HasComponent(em.tables, e, K.Event)
    {
      if id == Janitor {
        Janitorial.RunClearsAllEvents(em.tables, a.order);
      }
      match id {
        case Chronos => ChronosSystem.Process(em);
        case TurnSystem => turns.Process(em, a.order);
        case RandomWalkAiSystem => RandomWalk.Process(em, a.order, a.steps);
        case WalkSystem => Walking.Process(em, a.order);
        case CollisionSystem => Collision.Process(em, a.order, a.others);
        case AttackSystem => Attack.Process(em, a.order, a.rolls);
        case DamageSystem => Damage.Process(em, a.order, a.others);
        case MoveSystem => Moving.Process(em, a.order);
        case LootSystem => Loot.Process(em, a.order);
        case EventLogSystem =>
        case Reaper => Reaping.Process(em, a.order, a.others);
        case Janitor => Janitorial.Process(em, a.order);
      }
      calls := calls + [(ProcessHook, id)];
    }

    /**
     * `process_systems`: every system's `process`, once each, in
     * registration order, the i-th with `args[i]`; the store becomes
     * `ProcessAll` of the old one.
     */
    method ProcessSystems(em: EntityManager, args: seq<ProcessArgs>)
      requires em.Valid() && |args| == |systems|
      requires FrameReady(systems, args, (em.tables, em.entities))
      modifies this, em
      ensures systems == old(systems)
      ensures calls == old(calls) + HookCalls(ProcessHook, systems)
      ensures em.Valid() && em.names == old(em.names)
      ensures (em.tables, em.entities) == ProcessAll(systems, args, (old(em.tables), old(em.entities)))
      ensures |systems| > 0 && systems[|systems| - 1] == Janitor ==> forall e :: !HasComponent(em.tables, e, K.Event)
    {
      ghost var s0: State := (em.tables, em.entities);
      var i := 0;
      while i < |systems|
        invariant 0 <= i <= |systems|
        invariant systems == old(systems) && |args| == |systems|
        invariant calls == old(calls) + HookCalls(ProcessHook, systems[..i])
        invariant em.Valid() && em.names == old(em.names)
        invariant (em.tables, em.entities) == ProcessAll(systems[..i], args[..i], s0)
        invariant i > 0 && systems[i - 1] == Janitor ==> forall e :: !HasComponent(em.tables, e, K.Event)
      {
        ReadyAt(systems, args, s0, i);
        ProcessOne(systems[i], args[i], em);
        ProcessAllStep(systems, args, s0, i);
        HookCallsStep(ProcessHook, systems, i);
        i := i + 1;
      }
      assert systems[..i] == systems && args[..i] == args;
    }

    /** `unmount`: in registration order again, not reversed; no system's `unmount` touches the store. */
    method Unmount()
      modifies this
      ensures systems == old(systems)
      ensures calls == old(calls) + HookCalls(UnmountHook, systems)
    {
      var i := 0;
      while i < |systems|
        invariant 0 <= i <= |systems|
        invariant systems == old(systems)
        invariant calls == old(calls) + HookCalls(UnmountHook, systems[..i])
      {
        HookCallsStep(UnmountHook, systems, i);
        calls := calls + [(UnmountHook, systems[i])];
        i := i + 1;
      }
      assert systems[..i] == systems;
    }
  }
}
