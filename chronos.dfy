/**
 * The first `Chronos`, the time keeper: a double-ended queue of time
 * travellers, each an energy value and an entity id string. Registering
 * pushes a traveller with the baseline energy at the back; releasing
 * removes the first traveller carrying the id.
 */
module ChronosQueue {
  import opened Common
  import opened Entities

  /** A queued traveller: its energy and its entity id. */
  type Traveler = (int, string)

  /** The energy every traveller is registered with. */
  const Baseline := -100

  /** `position`: the index of the first traveller with id `id`, if any. */
  function IndexOf(q: seq<Traveler>, id: string): (r: Option<nat>)
    ensures r.None? <==> forall i | 0 <= i < |q| :: q[i].1 != id
    ensures r.Some? ==> r.value < |q| && q[r.value].1 == id && forall i | 0 <= i < r.value :: q[i].1 != id
    decreases |q|
  {
    if q == [] then None
    else if q[0].1 == id then Some(0)
    else
      match IndexOf(q[1..], id)
      case None => None
      case Some(j) => Some(j + 1)
  }

  /** The first traveller with the id is the one at `i` when none before it has the id. */
  lemma IndexOfIsFirst(q: seq<Traveler>, id: string, i: nat)
    requires i < |q| && q[i].1 == id
    requires forall j | 0 <= j < i :: q[j].1 != id
    ensures IndexOf(q, id) == Some(i)
  {
    var r := IndexOf(q, id);
    assert r.Some?;
    assert r.value >= i;
  }

  /** The queue after `release(id)`: the first traveller with that id is gone. */
  function Released(q: seq<Traveler>, id: string): seq<Traveler> {
    match IndexOf(q, id)
    case None => q
    case Some(i) => q[..i] + q[i + 1..]
  }

  /** Releasing an id nobody carries leaves the queue as it was. */
  lemma ReleaseUnknownIsNoOp(q: seq<Traveler>, id: string)
    requires forall i | 0 <= i < |q| :: q[i].1 != id
    ensures Released(q, id) == q
  {
  }

  /** Cutting out index `i` drops exactly that element and shifts the later ones down by one. */
  lemma RemovedAt<T>(q: seq<T>, i: nat)
    requires i < |q|
    ensures |q[..i] + q[i + 1..]| == |q| - 1
    ensures multiset(q[..i] + q[i + 1..]) + multiset{q[i]} == multiset(q)
    ensures forall j | 0 <= j < i :: (q[..i] + q[i + 1..])[j] == q[j]
    ensures forall j | i < j < |q| :: (q[..i] + q[i + 1..])[j - 1] == q[j]
  {
    var a, b := q[..i], q[i + 1..];
    assert q == a + [q[i]] + b;
    assert multiset(q) == multiset(a) + multiset{q[i]} + multiset(b);
  }

  /**
   * Releasing a queued id removes exactly one traveller with that id, one
   * that no earlier traveller shares its id with, and keeps the others in
   * their order.
   */
  lemma ReleaseRemovesFirst(q: seq<Traveler>, id: string, i: nat)
    requires i < |q| && q[i].1 == id
    requires forall j | 0 <= j < i :: q[j].1 != id
    ensures |Released(q, id)| == |q| - 1
    ensures multiset(Released(q, id)) + multiset{q[i]} == multiset(q)
    ensures forall j | 0 <= j < i :: Released(q, id)[j] == q[j]
    ensures forall j | i < j < |q| :: Released(q, id)[j - 1] == q[j]
  {
    IndexOfIsFirst(q, id, i);
    assert Released(q, id) == q[..i] + q[i + 1..];
    RemovedAt(q, i);
  }

  /** A register followed by a release of the same, previously absent, id restores the queue. */
  lemma RegisterThenReleaseRestores(q: seq<Traveler>, id: string)
    requires forall i | 0 <= i < |q| :: q[i].1 != id
    ensures Released(q + [(Baseline, id)], id) == q
  {
    var q' := q + [(Baseline, id)];
    assert forall j | 0 <= j < |q| :: q'[j].1 != id;
    IndexOfIsFirst(q', id, |q|);
    assert q'[..|q|] == q;
  }

  /** Cutting out an index before the last element commutes with appending that element. */
  lemma CutBeforeLast<T>(q: seq<T>, i: nat, x: T)
    requires i < |q|
    ensures (q + [x])[..i] + (q + [x])[i + 1..] == (q[..i] + q[i + 1..]) + [x]
  {
    var a, b := q[..i], q[i + 1..];
    assert (q + [x])[..i] == a;
    assert (q + [x])[i + 1..] == b + [x];
  }

  /** With the id already queued, the release takes the earlier traveller and keeps the new one last. */
  lemma RegisterThenReleaseKeepsNewcomer(q: seq<Traveler>, id: string)
    requires exists i | 0 <= i < |q| :: q[i].1 == id
    ensures Released(q + [(Baseline, id)], id) == Released(q, id) + [(Baseline, id)]
  {
    var x := (Baseline, id);
    var q' := q + [x];
    var i := IndexOf(q, id).value;
    assert forall j | 0 <= j < i :: q'[j].1 != id by {
      forall j | 0 <= j < i ensures q'[j].1 != id {
        assert q'[j] == q[j];
      }
    }
    IndexOfIsFirst(q', id, i);
    CutBeforeLast(q, i, x);
  }

  class Chronos {
    var travelers: seq<Traveler>

    constructor ()
      ensures travelers == []
    {
      travelers := [];
    }

    method TravelersLen() returns (n: nat)
      ensures n == |travelers|
    {
      n := |travelers|;
    }

    method Register(id: string)
      modifies this
      ensures travelers == old(travelers) + [(Baseline, id)]
      ensures |travelers| == |old(travelers)| + 1
    {
      travelers := travelers + [(Baseline, id)];
    }

    /** Scans from the front for the id and removes that one index. */
    method Release(id: string)
      modifies this
      ensures travelers == Released(old(travelers), id)
    {
      var i := 0;
      while i < |travelers| && travelers[i].1 != id
        invariant 0 <= i <= |travelers|
        invariant forall j | 0 <= j < i :: travelers[j].1 != id
      {
        i := i + 1;
      }
      if i < |travelers| {
        travelers := travelers[..i] + travelers[i + 1..];
      }
    }

    /** `process` is empty: the store is left alone. */
    method Process(em: EntityManager)
      ensures unchanged(em)
    {
    }
  }
}

/**
 * The second `Chronos`, one of the system manager's systems: mounting it
 * creates the GameTime entity; processing does nothing.
 */
module ChronosSystem {
  import opened Common
  import opened Components
  import opened Entities

  /** The name `mount` gives the GameTime entity. */
  const GameTimeName := "GameTime"

  /**
   * `mount`: one new entity, the next id, carrying a GameTime component
   * and the name "GameTime"; nothing else changes.
   */
  method Mount(em: EntityManager)
    requires em.Valid()
    modifies em
    ensures em.Valid()
    ensures em.entities == old(em.entities) + [|old(em.entities)|]
    ensures em.tables == Added(old(em.tables), |old(em.entities)|, GameTime)
    ensures em.names == old(em.names)[|old(em.entities)| := GameTimeName]
  {
    var gametime := em.CreateEntity();
    em.AddComponent(gametime, GameTime);
    em.SetEntityName(gametime, GameTimeName);
  }

  /** `process` has only commented-out code: the store is left alone. */
  method Process(em: EntityManager)
    ensures unchanged(em)
  {
  }

  /** The module's test: after mounting on a fresh store, the GameTime entity is found by name. */
  method MountThenFind() returns (r: Option<(Entity, string)>)
    ensures r.Some? && r.value.1 == GameTimeName
  {
    var em := new EntityManager();
    Mount(em);
    r := em.GetEntityByName(GameTimeName);
    assert em.names[0] == GameTimeName;
  }
}
