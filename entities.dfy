/**
 * The entity/component store (`EntityManager`). Entities are integer ids
 * kept in a live list; every component kind has its own table from entity
 * to component value, created the first time a component of that kind is
 * added. Lookups are pure functions over the tables; the store itself is a
 * class whose methods update its fields in place.
 */
module Entities {
  import opened Common
  import K = Kinds
  import opened Components

  type Table = map<Entity, Component>
  type Tables = map<K.Kind, Table>

  /** The table of kind `k`, or an empty one when none exists yet. */
  function TableOf(t: Tables, k: K.Kind): Table {
    if k in t then t[k] else map[]
  }

  /** `has_component`: the kind's table exists and holds the entity. */
  predicate HasComponent(t: Tables, e: Entity, k: K.Kind) {
    k in t && e in t[k]
  }

  /** `get_component_mut`: a read of the kind's own table, nothing else. */
  function GetComponentMut(t: Tables, e: Entity, k: K.Kind): Option<Component> {
    if HasComponent(t, e, k) then Some(t[k][e]) else None
  }

  /** `t` and `r` hold the same table of kind `k`, or neither has one. */
  predicate SameTable(t: Tables, r: Tables, k: K.Kind) {
    (k in t <==> k in r) && (k in t ==> t[k] == r[k])
  }

  /** Every table holds only components of its own kind. */
  ghost predicate WellTyped(t: Tables) {
    forall k, e | k in t && e in t[k] :: KindOf(t[k][e]) == k
  }

  /**
   * `add_boxed_component`: creates the kind's table if needed and inserts,
   * overwriting any earlier value of that kind for the entity.
   */
  function Added(t: Tables, e: Entity, c: Component): (r: Tables)
    ensures HasComponent(r, e, KindOf(c)) && r[KindOf(c)][e] == c
    ensures r.Keys == t.Keys + {KindOf(c)}
    ensures forall k | k != KindOf(c) :: SameTable(t, r, k)
    ensures forall k, x | k != KindOf(c) || x != e ::
      HasComponent(r, x, k) == HasComponent(t, x, k) &&
      (HasComponent(t, x, k) ==> r[k][x] == t[k][x])
    ensures WellTyped(t) ==> WellTyped(r)
  {
    var r := t[KindOf(c) := TableOf(t, KindOf(c))[e := c]];
    InsertedKeepsTables(t, e, c, r);
    InsertedKeepsEntries(t, e, c, r);
    InsertedKeepsWellTyped(t, e, c, r);
    r
  }

  /** The raw insertion behind `Added` keeps every table of another kind. */
  lemma InsertedKeepsTables(t: Tables, e: Entity, c: Component, r: Tables)
    requires r == t[KindOf(c) := TableOf(t, KindOf(c))[e := c]]
    ensures forall k | k != KindOf(c) :: SameTable(t, r, k)
  {
    var kc := KindOf(c);
    forall k | k != kc
      ensures SameTable(t, r, k)
    {
      assert k in r <==> k in t;
    }
  }

  /** The raw insertion behind `Added` keeps every entry but `e`'s of the component's kind. */
  lemma InsertedKeepsEntries(t: Tables, e: Entity, c: Component, r: Tables)
    requires r == t[KindOf(c) := TableOf(t, KindOf(c))[e := c]]
    ensures forall k, x | k != KindOf(c) || x != e ::
      HasComponent(r, x, k) == HasComponent(t, x, k) &&
      (HasComponent(t, x, k) ==> r[k][x] == t[k][x])
  {
    forall k, x | k != KindOf(c) || x != e
      ensures HasComponent(r, x, k) == HasComponent(t, x, k) && (HasComponent(t, x, k) ==> r[k][x] == t[k][x])
    {
      InsertedKeepsEntry(t, e, c, r, k, x);
    }
  }

  /** `InsertedKeepsEntries` at one kind and entity. */
  lemma InsertedKeepsEntry(t: Tables, e: Entity, c: Component, r: Tables, k: K.Kind, x: Entity)
    requires r == t[KindOf(c) := TableOf(t, KindOf(c))[e := c]]
    requires k != KindOf(c) || x != e
    ensures HasComponent(r, x, k) == HasComponent(t, x, k) && (HasComponent(t, x, k) ==> r[k][x] == t[k][x])
  {
    if k == KindOf(c) {
      assert r[k] == TableOf(t, k)[e := c];
    } else {
      assert k in r <==> k in t;
    }
  }

  /** The raw insertion behind `Added` files `c` under its own kind. */
  lemma InsertedKeepsWellTyped(t: Tables, e: Entity, c: Component, r: Tables)
    requires r == t[KindOf(c) := TableOf(t, KindOf(c))[e := c]]
    ensures WellTyped(t) ==> WellTyped(r)
  {
  }

  /** `add_component` takes no component away. */
  lemma AddedKeepsHas(t: Tables, e: Entity, c: Component, x: Entity, k: K.Kind)
    requires HasComponent(t, x, k)
    ensures HasComponent(Added(t, e, c), x, k)
  {
    if k != KindOf(c) {
      assert SameTable(t, Added(t, e, c), k);
    }
  }

  /** `add_component` keeps every table holding only its own kind. */
  lemma AddedKeepsWellTyped(t: Tables, e: Entity, c: Component)
    requires WellTyped(t)
    ensures WellTyped(Added(t, e, c))
  {
  }

  /** After `add_component` exactly one lookup differs: `e`'s of the component's kind. */
  lemma AddedSetsOneLookup(t: Tables, e: Entity, c: Component)
    ensures forall k, x ::
      GetComponentMut(Added(t, e, c), x, k) ==
      (if k == KindOf(c) && x == e then Some(c) else GetComponentMut(t, x, k))
  {
  }

  /** `AddedSetsOneLookup` at one entity and kind. */
  lemma AddedLookup(t: Tables, e: Entity, c: Component, x: Entity, k: K.Kind)
    ensures GetComponentMut(Added(t, e, c), x, k) ==
      if k == KindOf(c) && x == e then Some(c) else GetComponentMut(t, x, k)
  {
  }

  /** `add_component` of each of `cs` on `id`, in turn. */
  function AddAll(t: Tables, id: Entity, cs: seq<Component>): Tables
    decreases |cs|
  {
    if cs == [] then t else AddAll(Added(t, id, cs[0]), id, cs[1..])
  }

  lemma AddOne(t: Tables, id: Entity, c: Component, cs: seq<Component>)
    ensures AddAll(t, id, [c] + cs) == AddAll(Added(t, id, c), id, cs)
  {
    assert ([c] + cs)[1..] == cs;
  }

  /** The last component of kind `k` in `cs`, if any: the one a run of additions leaves. */
  function LastOfKind(cs: seq<Component>, k: K.Kind): Option<Component>
    decreases |cs|
  {
    if cs == [] then None
    else if LastOfKind(cs[1..], k).Some? then LastOfKind(cs[1..], k)
    else if KindOf(cs[0]) == k then Some(cs[0])
    else None
  }

  /** Without a component of kind `k` in `cs` there is no last one. */
  lemma {:induction false} LastOfKindNone(cs: seq<Component>, k: K.Kind)
    requires forall j | 0 <= j < |cs| :: KindOf(cs[j]) != k
    ensures LastOfKind(cs, k).None?
    decreases |cs|
  {
    if cs != [] {
      LastOfKindNone(cs[1..], k);
    }
  }

  /** The component at i is the last of its kind when no later one shares that kind. */
  lemma {:induction false} LastOfKindAt(cs: seq<Component>, i: nat, k: K.Kind)
    requires i < |cs| && KindOf(cs[i]) == k
    requires forall j | i < j < |cs| :: KindOf(cs[j]) != k
    ensures LastOfKind(cs, k) == Some(cs[i])
    decreases |cs|
  {
    if i == 0 {
      LastOfKindNone(cs[1..], k);
    } else {
      LastOfKindAt(cs[1..], i - 1, k);
    }
  }

  /**
   * After adding `cs` to `id` in turn, each kind of `id` holds the last
   * added component of that kind; kinds not in `cs` and other entities keep
   * their lookups.
   */
  lemma {:induction false} AddAllLookup(t: Tables, id: Entity, cs: seq<Component>, e: Entity, k: K.Kind)
    ensures GetComponentMut(AddAll(t, id, cs), e, k) ==
      if e == id && LastOfKind(cs, k).Some? then LastOfKind(cs, k) else GetComponentMut(t, e, k)
    decreases |cs|
  {
    if cs != [] {
      AddAllLookup(Added(t, id, cs[0]), id, cs[1..], e, k);
      AddedLookup(t, id, cs[0], e, k);
    }
  }

  /** Adding a run of components keeps every table holding only its own kind. */
  lemma {:induction false} AddAllKeepsWellTyped(t: Tables, id: Entity, cs: seq<Component>)
    requires WellTyped(t)
    ensures WellTyped(AddAll(t, id, cs))
    decreases |cs|
  {
    if cs != [] {
      AddAllKeepsWellTyped(Added(t, id, cs[0]), id, cs[1..]);
    }
  }

  /** Adding one more component at the end of the run is one more `add_component`. */
  lemma {:induction false} AddAllSnoc(t: Tables, id: Entity, cs: seq<Component>, c: Component)
    ensures AddAll(t, id, cs + [c]) == Added(AddAll(t, id, cs), id, c)
    decreases |cs|
  {
    if cs == [] {
      assert AddAll(Added(t, id, c), id, []) == Added(t, id, c);
      assert [] + [c] == [c];
    } else {
      assert (cs + [c])[1..] == cs[1..] + [c];
      AddAllSnoc(Added(t, id, cs[0]), id, cs[1..], c);
    }
  }

  /** The prefix step of a loop that adds `cs` one by one. */
  lemma AddAllPrefixStep(t: Tables, id: Entity, cs: seq<Component>, i: nat, before: Tables, after: Tables)
    requires i < |cs| && before == AddAll(t, id, cs[..i]) && after == Added(before, id, cs[i])
    ensures after == AddAll(t, id, cs[..i + 1])
  {
    var prefix, c := cs[..i], cs[i];
    assert cs[..i + 1] == prefix + [c];
    AddAllSnoc(t, id, prefix, c);
  }

  /** The tables after `remove_component`; a missing table stays missing. */
  function Removed(t: Tables, e: Entity, k: K.Kind): (r: Tables)
    ensures !HasComponent(r, e, k)
    ensures r.Keys == t.Keys
    ensures forall k' | k' != k :: SameTable(t, r, k')
    ensures forall k', x | k' != k || x != e ::
      HasComponent(r, x, k') == HasComponent(t, x, k') &&
      (HasComponent(t, x, k') ==> r[k'][x] == t[k'][x])
    ensures WellTyped(t) ==> WellTyped(r)
  {
    if k in t then t[k := t[k] - {e}] else t
  }

  /** The tables after `kill_entity`: the entity is dropped from every table. */
  function Killed(t: Tables, e: Entity): (r: Tables)
    ensures r.Keys == t.Keys
    ensures forall k | k in r :: e !in r[k]
    ensures forall k, x | x != e ::
      HasComponent(r, x, k) == HasComponent(t, x, k) &&
      (HasComponent(t, x, k) ==> r[k][x] == t[k][x])
    ensures WellTyped(t) ==> WellTyped(r)
  {
    map k | k in t :: t[k] - {e}
  }

  /** A lookup after `Killed`: nothing for the killed entity, the old component for any other. */
  lemma KilledAt(t: Tables, e: Entity, k: K.Kind, x: Entity)
    ensures GetComponentMut(Killed(t, e), x, k) == if x == e then None else GetComponentMut(t, x, k)
  {
  }

  /** `Vec::remove_item`: drops the first occurrence of `x`, if any. */
  function RemoveFirst(s: seq<Entity>, x: Entity): (r: seq<Entity>)
    ensures multiset(r) == multiset(s) - multiset{x}
    ensures x !in s ==> r == s
  {
    if s == [] then []
    else
      assert s == [s[0]] + s[1..];
      if s[0] == x then s[1..] else [s[0]] + RemoveFirst(s[1..], x)
  }

  /** The ids `create_entity` hands out `count` times in a row from a live list of length n. */
  function Ids(n: nat, count: nat): (r: seq<Entity>)
    ensures |r| == count
  {
    seq(count, k => n + k)
  }

  /** One more fresh id extends the run handed out from a live list `e0`. */
  lemma IdsSnoc(e0: seq<Entity>, n: nat)
    ensures e0 + Ids(|e0|, n) + [|e0| + n] == e0 + Ids(|e0|, n + 1)
  {
    assert Ids(|e0|, n) + [|e0| + n] == Ids(|e0|, n + 1);
  }

  /** Two runs of ids, the second starting where the first stops, are one run. */
  lemma IdsAppend(n: nat, a: nat, b: nat)
    ensures Ids(n, a) + Ids(n + a, b) == Ids(n, a + b)
  {
    var ids := Ids(n, a) + Ids(n + a, b);
    forall i | 0 <= i < a + b
      ensures ids[i] == Ids(n, a + b)[i]
    {
    }
  }

  datatype Outcome<T> = Done(value: T) | Diverged

  /**
   * `get_prototype`: the Prototype component of `e`, read with the same
   * fallback as any other component. `fuel` bounds the recursion depth;
   * `Diverged` means the source's recursion would not have returned yet.
   */
  function GetPrototype(t: Tables, e: Entity, fuel: nat): Outcome<Option<Entity>>
    decreases fuel, 1
  {
    match GetComponent(t, e, K.Prototype, fuel)
    case Diverged => Diverged
    case Done(None) => Done(None)
    case Done(Some(c)) => if c.Prototype? then Done(Some(c.prototype)) else Done(None)
  }

  /**
   * `get_component`: when the kind's table exists, the table's own entry;
   * otherwise the same lookup on the entity's prototype. Whenever the
   * lookup returns at all, it returns exactly the direct table read, so the
   * prototype fallback can never produce a component.
   */
  function GetComponent(t: Tables, e: Entity, k: K.Kind, fuel: nat): (r: Outcome<Option<Component>>)
    ensures r.Done? ==> r.value == GetComponentMut(t, e, k)
    ensures fuel > 0 && k in t ==> r.Done?
    decreases fuel, 0
  {
    if fuel == 0 then Diverged
    else if k in t then Done(GetComponentMut(t, e, k))
    else
      match GetPrototype(t, e, fuel - 1)
      case Diverged => Diverged
      case Done(None) => Done(None)
      case Done(Some(p)) => GetComponent(t, p, k, fuel - 1)
  }

  /** The source's `get_component` call for `e` and `k` returns. */
  ghost predicate Resolves(t: Tables, e: Entity, k: K.Kind) {
    exists fuel: nat :: GetComponent(t, e, k, fuel).Done?
  }

  /**
   * With neither the kind's table nor a Prototype table, `get_component`
   * and `get_prototype` call each other without end.
   */
  lemma {:induction false} FallbackWithoutPrototypeTableDiverges(t: Tables, e: Entity, k: K.Kind, fuel: nat)
    requires k !in t && K.Prototype !in t
    ensures GetComponent(t, e, k, fuel).Diverged?
    decreases fuel
  {
    if fuel > 0 {
      FallbackWithoutPrototypeTableDiverges(t, e, K.Prototype, fuel - 1);
    }
  }

  lemma FallbackWithoutPrototypeTableNeverResolves(t: Tables, e: Entity, k: K.Kind)
    requires k !in t && K.Prototype !in t
    ensures !Resolves(t, e, k)
  {
    forall fuel: nat ensures GetComponent(t, e, k, fuel).Diverged? {
      FallbackWithoutPrototypeTableDiverges(t, e, k, fuel);
    }
  }

  /** An existing table always resolves, with one level of recursion. */
  lemma ExistingTableResolves(t: Tables, e: Entity, k: K.Kind)
    requires k in t
    ensures Resolves(t, e, k)
    ensures GetComponent(t, e, k, 1) == Done(GetComponentMut(t, e, k))
  {
    assert GetComponent(t, e, k, 1).Done?;
  }

  /** A lookup of kind `k` reads only the `k` table and the Prototype table. */
  lemma {:induction false} LookupReadsOnlyItsTables(t: Tables, t': Tables, e: Entity, k: K.Kind, fuel: nat)
    requires SameTable(t, t', k) && SameTable(t, t', K.Prototype)
    ensures GetComponent(t, e, k, fuel) == GetComponent(t', e, k, fuel)
    decreases fuel
  {
    if fuel > 0 && k !in t {
      LookupReadsOnlyItsTables(t, t', e, K.Prototype, fuel - 1);
      match GetPrototype(t, e, fuel - 1)
      case Done(Some(p)) => LookupReadsOnlyItsTables(t, t', p, k, fuel - 1);
      case _ =>
    }
  }

  /**
   * `kill_entity` only shortens prototype chains: a lookup that returned
   * before the kill still returns after it, with no more recursion.
   */
  lemma {:induction false} KillKeepsLookupReturning(t: Tables, x: Entity, e: Entity, k: K.Kind, fuel: nat)
    requires GetComponent(t, e, k, fuel).Done?
    ensures GetComponent(Killed(t, x), e, k, fuel).Done?
    decreases fuel
  {
    if fuel > 0 && k !in t {
      var t' := Killed(t, x);
      KillKeepsLookupReturning(t, x, e, K.Prototype, fuel - 1);
      match GetPrototype(t', e, fuel - 1)
      case Done(Some(p)) =>
        assert GetPrototype(t, e, fuel - 1) == Done(Some(p));
        KillKeepsLookupReturning(t, x, p, k, fuel - 1);
      case _ =>
    }
  }

  lemma KillKeepsResolving(t: Tables, x: Entity, e: Entity, k: K.Kind)
    requires Resolves(t, e, k)
    ensures Resolves(Killed(t, x), e, k)
  {
    var fuel: nat :| GetComponent(t, e, k, fuel).Done?;
    KillKeepsLookupReturning(t, x, e, k, fuel);
  }

  /**
   * Once ids have been handed out as 0 .. n-1, killing any entity but the
   * newest makes the next `create_entity` return an id that is still live.
   */
  lemma {:induction false} KillThenCreateReusesLiveId(n: nat, e: Entity)
    requires 0 <= e < n - 1
    ensures var after := RemoveFirst(Ids(0, n), e);
      |after| == n - 1 && n - 1 in after
  {
    var live := Ids(0, n);
    var after := RemoveFirst(live, e);
    assert e == live[e];
    assert multiset(live)[e] >= 1;
    assert |multiset(after)| == |multiset(live)| - 1;
    assert live[n - 1] == n - 1;
    assert multiset(live)[n - 1] >= 1;
    assert multiset(after)[n - 1] >= 1;
  }

  /** In a list without duplicates, removing an element removes it entirely. */
  lemma {:induction false} RemoveFirstOfDistinct(s: seq<Entity>, x: Entity)
    requires Distinct(s)
    ensures x !in RemoveFirst(s, x)
    decreases |s|
  {
    if s != [] && s[0] != x {
      assert Distinct(s[1..]) by {
        forall i, j | 0 <= i < j < |s[1..]| ensures s[1..][i] != s[1..][j] {
          assert s[1..][i] == s[i + 1] && s[1..][j] == s[j + 1];
        }
      }
      RemoveFirstOfDistinct(s[1..], x);
    } else if s != [] {
      forall i | 0 <= i < |s[1..]| ensures s[1..][i] != x {
        assert s[1..][i] == s[i + 1];
      }
    }
  }

  class EntityManager {
    /** The live list; ids are positions at creation time. */
    var entities: seq<Entity>
    var names: map<Entity, string>
    var tables: Tables

    ghost predicate Valid()
      reads this
    {
      WellTyped(tables)
    }

    constructor ()
      ensures Valid()
      ensures entities == [] && names == map[] && tables == map[]
    {
      entities := [];
      names := map[];
      tables := map[];
    }

    /** The new id is the current length of the live list. */
    method CreateEntity() returns (e: Entity)
      modifies this
      ensures e == |old(entities)|
      ensures entities == old(entities) + [e]
      ensures names == old(names) && tables == old(tables)
    {
      e := |entities|;
      entities := entities + [e];
    }

    method SetEntityName(e: Entity, name: string)
      modifies this
      ensures names == old(names)[e := name]
      ensures entities == old(entities) && tables == old(tables)
    {
      names := names[e := name];
    }

    /** Some entity carrying `name`, if there is one (which one is unspecified). */
    method GetEntityByName(name: string) returns (r: Option<(Entity, string)>)
      ensures r.Some? ==> r.value.0 in names && names[r.value.0] == name && r.value.1 == name
      ensures r.None? <==> forall e | e in names :: names[e] != name
    {
      if e :| e in names && names[e] == name {
        r := Some((e, names[e]));
      } else {
        r := None;
      }
    }

    /** `extend`: give `child` a Prototype component pointing at `prototype`. */
    method Extend(prototype: Entity, child: Entity)
      requires Valid()
      modifies this
      ensures Valid()
      ensures tables == Added(old(tables), child, Prototype(prototype))
      ensures entities == old(entities) && names == old(names)
    {
      AddComponent(child, Prototype(prototype));
    }

    method AddComponent(e: Entity, c: Component)
      requires Valid()
      modifies this
      ensures Valid()
      ensures tables == Added(old(tables), e, c)
      ensures entities == old(entities) && names == old(names)
    {
      AddedKeepsWellTyped(tables, e, c);
      tables := Added(tables, e, c);
    }

    /** Returns the prior value of that kind, if any. */
    method RemoveComponent(e: Entity, k: K.Kind) returns (r: Option<Component>)
      requires Valid()
      modifies this
      ensures Valid()
      ensures r == GetComponentMut(old(tables), e, k)
      ensures tables == Removed(old(tables), e, k)
      ensures entities == old(entities) && names == old(names)
    {
      r := GetComponentMut(tables, e, k);
      tables := Removed(tables, e, k);
    }

    /** The keys of the kind's table in iteration order; empty without a table. */
    method GetEntitiesWithComponents(k: K.Kind) returns (es: seq<Entity>)
      ensures IsEnumeration(es, TableOf(tables, k).Keys)
    {
      var keys := TableOf(tables, k).Keys;
      var rest := keys;
      es := [];
      while rest != {}
        invariant rest <= keys
        invariant Distinct(es)
        invariant forall x :: x in es <==> x in keys && x !in rest
        decreases |rest|
      {
        NonEmptyHasMember(rest);
        var y :| y in rest;
        es := es + [y];
        rest := rest - {y};
      }
    }

    /** The values of the kind's table, in the order of some key enumeration. */
    method GetAllComponentsOfType(k: K.Kind) returns (cs: seq<Component>)
      ensures exists es :: (IsEnumeration(es, TableOf(tables, k).Keys) &&
        |cs| == |es| && forall i | 0 <= i < |es| :: cs[i] == TableOf(tables, k)[es[i]])
    {
      var es := GetEntitiesWithComponents(k);
      var table := TableOf(tables, k);
      cs := [];
      var i := 0;
      while i < |es|
        invariant 0 <= i <= |es|
        invariant |cs| == i
        invariant forall j | 0 <= j < i :: cs[j] == table[es[j]]
      {
        cs := cs + [table[es[i]]];
        i := i + 1;
      }
    }

    /**
     * `kill_entity`: the tables lose the entity first, then the live list
     * loses its first occurrence. `ok` is false exactly where the source's
     * `unwrap` panics: the entity was not in the live list. Names are kept.
     */
    method KillEntity(e: Entity) returns (ok: bool)
      requires Valid()
      modifies this
      ensures Valid()
      ensures ok == (e in old(entities))
      ensures tables == Killed(old(tables), e)
      ensures entities == RemoveFirst(old(entities), e)
      ensures names == old(names)
    {
      tables := Killed(tables, e);
      ok := e in entities;
      entities := RemoveFirst(entities, e);
    }
  }

  /**
   * `test_create_entity`: two creations on a new store hand out two
   * different ids, 0 then 1, and the live list is exactly that run.
   */
  method CreateTwoEntities() returns (entity: Entity, entity2: Entity, live: seq<Entity>)
    ensures entity != entity2
    ensures entity == 0 && entity2 == 1
    ensures live == Ids(0, 2)
  {
    var em := new EntityManager();
    entity := em.CreateEntity();
    IdsSnoc([], 0);
    entity2 := em.CreateEntity();
    IdsSnoc([], 1);
    live := em.entities;
  }
}
