/**
 * `Janitor`: removes the Event component of every entity that has one.
 */
module JanitorSystem {
  import opened Common
  import K = Kinds
  import opened Components
  import opened Entities

  function Run(t: Tables, order: seq<Entity>): Tables
    decreases |order|
  {
    if order == [] then t else Removed(Run(t, order[..|order| - 1]), order[|order| - 1], K.Event)
  }

  /**
   * The visited entities lose their Event; every other Event and every
   * table of another kind is kept, and no table appears or disappears.
   */
  lemma {:induction false} RunRemovesEvents(t: Tables, order: seq<Entity>)
    requires WellTyped(t)
    ensures var r := Run(t, order);
      WellTyped(r) &&
      (forall k | k != K.Event :: SameTable(t, r, k)) &&
      (K.Event in t <==> K.Event in r) &&
      (forall e :: HasComponent(r, e, K.Event) <==> HasComponent(t, e, K.Event) && e !in order) &&
      (forall e | HasComponent(r, e, K.Event) :: r[K.Event][e] == t[K.Event][e])
    decreases |order|
  {
    if order != [] {
      var prefix := order[..|order| - 1];
      RunRemovesEvents(t, prefix);
      var m := Run(t, prefix);
      forall k | k != K.Event ensures SameTable(t, Run(t, order), k) {
        assert SameTable(t, m, k) && SameTable(m, Run(t, order), k);
      }
      forall e ensures e in order <==> e in prefix || e == order[|order| - 1] {
        assert order == prefix + [order[|order| - 1]];
      }
    }
  }

  /** After a full pass no entity has an Event component. */
  lemma RunClearsAllEvents(t: Tables, order: seq<Entity>)
    requires WellTyped(t) && IsEnumeration(order, TableOf(t, K.Event).Keys)
    ensures forall e :: !HasComponent(Run(t, order), e, K.Event)
  {
    RunRemovesEvents(t, order);
  }

  /** A second pass, over whatever Event table is left, changes nothing. */
  lemma RunTwiceIsRunOnce(t: Tables, order: seq<Entity>, order2: seq<Entity>)
    requires WellTyped(t) && IsEnumeration(order, TableOf(t, K.Event).Keys)
    requires IsEnumeration(order2, TableOf(Run(t, order), K.Event).Keys)
    ensures Run(Run(t, order), order2) == Run(t, order)
  {
    RunClearsAllEvents(t, order);
    EmptyOrHasFirst(order2);
  }

  /** `Janitor::process`, visiting the Event table in the order `order`. */
  method Process(em: EntityManager, order: seq<Entity>)
    requires em.Valid()
    requires IsEnumeration(order, TableOf(em.tables, K.Event).Keys)
    modifies em
    ensures em.Valid()
    ensures em.tables == Run(old(em.tables), order)
    ensures em.entities == old(em.entities) && em.names == old(em.names)
  {
    ghost var t0 := em.tables;
    var i := 0;
    while i < |order|
      invariant 0 <= i <= |order|
      invariant em.Valid()
      invariant em.tables == Run(t0, order[..i])
      invariant em.entities == old(em.entities) && em.names == old(em.names)
    {
      var _ := em.RemoveComponent(order[i], K.Event);
      assert order[..i + 1][..i] == order[..i];
      i := i + 1;
    }
    assert order[..i] == order;
  }
}
