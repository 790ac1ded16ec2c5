/**
 * `WalkSystem`: every entity with an Input component gets its Walk set from
 * the key code held in that Input. The system is a loop over the Input
 * table; `Run` is that loop as a left fold over the iteration order.
 */
module WalkSystem {
  import opened Common
  import K = Kinds
  import opened Components
  import opened Entities
  import opened Systems

  /** The key-code match: w, d, s and a step one cell; any other code stands still. */
  function KeyDelta(key: int): (d: (int, int))
    ensures -1 <= d.0 <= 1 && -1 <= d.1 <= 1
    ensures d.0 == 0 || d.1 == 0
    ensures d != (0, 0) <==> key == 119 || key == 100 || key == 115 || key == 97
  {
    match key
    case 119 => (0, -1)
    case 100 => (1, 0)
    case 115 => (0, 1)
    case 97 => (-1, 0)
    case _ => (0, 0)
  }

  /** One iteration: overwrite the entity's Walk, if it has one. */
  function Step(t: Tables, e: Entity): Tables {
    var input := GetComponentMutAs(t, e, K.Input);
    var walk := GetComponentMutAs(t, e, K.Walk);
    if input.Some? && walk.Some? then
      var d := KeyDelta(input.value.input);
      Added(t, e, Walk(d.0, d.1))
    else t
  }

  function Run(t: Tables, order: seq<Entity>): Tables
    decreases |order|
  {
    if order == [] then t else Step(Run(t, order[..|order| - 1]), order[|order| - 1])
  }

  /** The Walk an entity ends with: its key's delta when it has Input, else its old Walk. */
  function Walked(t: Tables, e: Entity): Component
    requires HasComponent(t, e, K.Walk)
  {
    var input := GetComponentMutAs(t, e, K.Input);
    if input.Some? && t[K.Walk][e].Walk? then
      var d := KeyDelta(input.value.input);
      Walk(d.0, d.1)
    else t[K.Walk][e]
  }

  /**
   * Walks of the visited entities become the delta of their key; every
   * other Walk and every table of another kind is left as it was.
   */
  lemma {:induction false} RunSetsWalkFromInput(t: Tables, order: seq<Entity>)
    requires WellTyped(t) && Distinct(order)
    ensures var r := Run(t, order);
      WellTyped(r) &&
      (forall k | k != K.Walk :: SameTable(t, r, k)) &&
      (K.Walk in t <==> K.Walk in r) &&
      (forall e :: HasComponent(r, e, K.Walk) <==> HasComponent(t, e, K.Walk)) &&
      forall e | HasComponent(t, e, K.Walk) ::
        r[K.Walk][e] == if e in order then Walked(t, e) else t[K.Walk][e]
    decreases |order|
  {
    if order != [] {
      var prefix, last := order[..|order| - 1], order[|order| - 1];
      DistinctPrefix(order);
      RunSetsWalkFromInput(t, prefix);
      var m := Run(t, prefix);
      assert SameTable(t, m, K.Input);
      forall k | k != K.Walk ensures SameTable(t, Run(t, order), k) {
        assert SameTable(t, m, k) && SameTable(m, Run(t, order), k);
      }
    }
  }

  /** Every Walk written by the system moves at most one cell along one axis. */
  lemma WalkedIsUnitStep(t: Tables, e: Entity)
    requires WellTyped(t) && HasComponent(t, e, K.Walk) && HasComponent(t, e, K.Input)
    ensures Walked(t, e).Walk?
    ensures var w := Walked(t, e);
      -1 <= w.dx <= 1 && -1 <= w.dy <= 1 && (w.dx == 0 || w.dy == 0)
  {
  }

  /** `WalkSystem::process`, visiting the Input table in the order `order`. */
  method Process(em: EntityManager, order: seq<Entity>)
    requires em.Valid()
    requires IsEnumeration(order, TableOf(em.tables, K.Input).Keys)
    modifies em
    ensures em.Valid()
    ensures em.tables == Run(old(em.tables), order)
    ensures em.entities == old(em.entities) && em.names == old(em.names)
  {
    ghost var t0 := em.tables;
    var i := 0;
    while i < |order|
      invariant 0 <= i <= |order|
      invariant em.Valid()
      invariant em.tables == Run(t0, order[..i])
      invariant em.entities == old(em.entities) && em.names == old(em.names)
    {
      var e := order[i];
      var input := GetComponentMutAs(em.tables, e, K.Input);
      var walk := GetComponentMutAs(em.tables, e, K.Walk);
      if input.Some? && walk.Some? {
        var d := KeyDelta(input.value.input);
        em.AddComponent(e, Walk(d.0, d.1));
      }
      assert order[..i + 1][..i] == order[..i];
      i := i + 1;
    }
    assert order[..i] == order;
  }
}

/**
 * `RandomWalkAiSystem`: every RandomWalkAi entity that has a Walk gets a
 * fresh random Walk. The two draws `gen_range(-1, 2)` per entity are the
 * pair `rolls[i]` for the i-th entity visited.
 */
module RandomWalkSystem {
  import opened Common
  import K = Kinds
  import opened Components
  import opened Entities
  import opened Systems

  /** Both draws of every pair lie in the half-open range [-1, 2). */
  predicate ValidRolls(rolls: seq<(int, int)>) {
    forall i | 0 <= i < |rolls| :: -1 <= rolls[i].0 < 2 && -1 <= rolls[i].1 < 2
  }

  function Step(t: Tables, e: Entity, roll: (int, int)): Tables {
    if GetComponentMutAs(t, e, K.Walk).Some? then Added(t, e, Walk(roll.0, roll.1)) else t
  }

  function Run(t: Tables, order: seq<Entity>, rolls: seq<(int, int)>): Tables
    requires |rolls| == |order|
    decreases |order|
  {
    if order == [] then t
    else
      var n := |order| - 1;
      Step(Run(t, order[..n], rolls[..n]), order[n], rolls[n])
  }

  /**
   * The i-th visited entity that has a Walk ends with the i-th pair of
   * draws; every other Walk and every other table is unchanged.
   */
  lemma {:induction false} RunRandomizesWalks(t: Tables, order: seq<Entity>, rolls: seq<(int, int)>)
    requires WellTyped(t) && Distinct(order) && |rolls| == |order|
    ensures var r := Run(t, order, rolls);
      WellTyped(r) &&
      (forall k | k != K.Walk :: SameTable(t, r, k)) &&
      (K.Walk in t <==> K.Walk in r) &&
      (forall e :: HasComponent(r, e, K.Walk) <==> HasComponent(t, e, K.Walk)) &&
      (forall i | 0 <= i < |order| && HasComponent(t, order[i], K.Walk) ::
        r[K.Walk][order[i]] == Walk(rolls[i].0, rolls[i].1)) &&
      (forall e | HasComponent(t, e, K.Walk) && e !in order :: r[K.Walk][e] == t[K.Walk][e])
    decreases |order|
  {
    if order != [] {
      var n := |order| - 1;
      DistinctPrefix(order);
      RunRandomizesWalks(t, order[..n], rolls[..n]);
      var m := Run(t, order[..n], rolls[..n]);
      forall k | k != K.Walk ensures SameTable(t, Run(t, order, rolls), k) {
        assert SameTable(t, m, k) && SameTable(m, Run(t, order, rolls), k);
      }
      forall i | 0 <= i < n ensures order[..n][i] == order[i] && rolls[..n][i] == rolls[i] {
      }
    }
  }

  /** With valid draws, every randomized Walk has dx and dy in {-1, 0, 1}. */
  lemma RandomizedWalksInRange(t: Tables, order: seq<Entity>, rolls: seq<(int, int)>)
    requires WellTyped(t) && Distinct(order) && |rolls| == |order| && ValidRolls(rolls)
    ensures var r := Run(t, order, rolls);
      forall e | e in order && HasComponent(t, e, K.Walk) ::
        HasComponent(r, e, K.Walk) && r[K.Walk][e].Walk? &&
        -1 <= r[K.Walk][e].dx <= 1 && -1 <= r[K.Walk][e].dy <= 1
  {
    RunRandomizesWalks(t, order, rolls);
    var r: Tables := Run(t, order, rolls);
    forall e | e in order && HasComponent(t, e, K.Walk)
      ensures HasComponent(r, e, K.Walk) && r[K.Walk][e].Walk? &&
        -1 <= r[K.Walk][e].dx <= 1 && -1 <= r[K.Walk][e].dy <= 1
    {
      var i :| 0 <= i < |order| && order[i] == e;
    }
  }

  /** `RandomWalkAiSystem::process`, visiting the RandomWalkAi table in `order`. */
  method Process(em: EntityManager, order: seq<Entity>, rolls: seq<(int, int)>)
    requires em.Valid()
    requires IsEnumeration(order, TableOf(em.tables, K.RandomWalkAi).Keys)
    requires |rolls| == |order| && ValidRolls(rolls)
    modifies em
    ensures em.Valid()
    ensures em.tables == Run(old(em.tables), order, rolls)
    ensures em.entities == old(em.entities) && em.names == old(em.names)
  {
    ghost var t0 := em.tables;
    var i := 0;
    while i < |order|
      invariant 0 <= i <= |order|
      invariant em.Valid()
      invariant em.tables == Run(t0, order[..i], rolls[..i])
      invariant em.entities == old(em.entities) && em.names == old(em.names)
    {
      var e := order[i];
      if GetComponentMutAs(em.tables, e, K.Walk).Some? {
        em.AddComponent(e, Walk(rolls[i].0, rolls[i].1));
      }
      assert order[..i + 1][..i] == order[..i];
      assert rolls[..i + 1][..i] == rolls[..i];
      i := i + 1;
    }
    assert order[..i] == order;
    assert rolls[..i] == rolls;
  }
}
