/**
 * The game's own `InputSystem`, which the game runs itself rather than
 * through the system manager: a received key is recorded in the history
 * and written into the `input` field of every Input component; when no key
 * arrived, 0 is written instead. The keyboard thread and the channel it
 * feeds are outside the model: the received key is a parameter.
 */
module InputBroadcast {
  import opened Common
  import K = Kinds
  import opened Components
  import opened Entities
  import opened Systems

  /** One iteration of `notify_input_components`: the entity's Input now holds `key`. */
  function Step(t: Tables, e: Entity, key: int): Tables {
    if GetComponentMutAs(t, e, K.Input).Some? then Added(t, e, Input(key)) else t
  }

  function Run(t: Tables, order: seq<Entity>, key: int): Tables
    decreases |order|
  {
    if order == [] then t else Step(Run(t, order[..|order| - 1], key), order[|order| - 1], key)
  }

  /** The key broadcast by `process_input_events`: the received one, or 0. */
  function Broadcast(received: Option<int>): (key: int)
    ensures received.Some? ==> key == received.value
    ensures received.None? ==> key == 0
  {
    if received.Some? then received.value else 0
  }

  /**
   * The Input components of the visited entities hold `key`; the others,
   * and every table of another kind, are left as they were.
   */
  lemma {:induction false} RunWritesKey(t: Tables, order: seq<Entity>, key: int)
    requires WellTyped(t)
    ensures var r := Run(t, order, key);
      WellTyped(r) &&
      (forall k | k != K.Input :: SameTable(t, r, k)) &&
      (K.Input in t <==> K.Input in r) &&
      (forall e :: HasComponent(r, e, K.Input) <==> HasComponent(t, e, K.Input)) &&
      forall e | HasComponent(t, e, K.Input) ::
        r[K.Input][e] == if e in order then Input(key) else t[K.Input][e]
    decreases |order|
  {
    if order != [] {
      var prefix, last := order[..|order| - 1], order[|order| - 1];
      RunWritesKey(t, prefix, key);
      var m := Run(t, prefix, key);
      forall k | k != K.Input ensures SameTable(t, Run(t, order, key), k) {
        assert SameTable(t, m, k) && SameTable(m, Run(t, order, key), k);
      }
      forall e ensures e in order <==> e in prefix || e == last {
        assert order == prefix + [last];
      }
    }
  }

  /** After a full pass over the Input table, every Input component holds `key`. */
  lemma RunBroadcastsToAll(t: Tables, order: seq<Entity>, key: int)
    requires WellTyped(t) && IsEnumeration(order, TableOf(t, K.Input).Keys)
    ensures forall e | HasComponent(Run(t, order, key), e, K.Input) ::
      Run(t, order, key)[K.Input][e] == Input(key)
  {
    RunWritesKey(t, order, key);
  }

  class InputSystem {
    /** Every key received so far, oldest first. */
    var history: seq<int>

    constructor ()
      ensures history == []
    {
      history := [];
    }

    /** `get_last_input`: the most recent key received, if any. */
    function GetLastInput(): (r: Option<int>)
      reads this
      ensures r.None? <==> history == []
      ensures r.Some? ==> r.value == history[|history| - 1]
    {
      if history == [] then None else Some(history[|history| - 1])
    }

    /** `notify_input_components`, visiting the Input table in the order `order`. */
    static method NotifyInputComponents(em: EntityManager, key: int, order: seq<Entity>)
      requires em.Valid()
      requires IsEnumeration(order, TableOf(em.tables, K.Input).Keys)
      modifies em
      ensures em.Valid()
      ensures em.tables == Run(old(em.tables), order, key)
      ensures em.entities == old(em.entities) && em.names == old(em.names)
    {
      ghost var t0 := em.tables;
      var i := 0;
      while i < |order|
        invariant 0 <= i <= |order|
        invariant em.Valid()
        invariant em.tables == Run(t0, order[..i], key)
        invariant em.entities == old(em.entities) && em.names == old(em.names)
      {
        var e := order[i];
        if GetComponentMutAs(em.tables, e, K.Input).Some? {
          em.AddComponent(e, Input(key));
        }
        assert order[..i + 1][..i] == order[..i];
        i := i + 1;
      }
      assert order[..i] == order;
    }

    /**
     * `process_input_events` (and `process`, which only calls it), with
     * `received` the key the blocking receive returned, or none when the
     * channel was closed.
     */
    method ProcessInputEvents(em: EntityManager, received: Option<int>, order: seq<Entity>)
      requires em.Valid()
      requires IsEnumeration(order, TableOf(em.tables, K.Input).Keys)
      modifies this, em
      ensures em.Valid()
      ensures history == old(history) + (if received.Some? then [received.value] else [])
      ensures em.tables == Run(old(em.tables), order, Broadcast(received))
      ensures em.entities == old(em.entities) && em.names == old(em.names)
      ensures received.Some? ==> GetLastInput() == received
      ensures received.None? ==> GetLastInput() == old(GetLastInput())
    {
      if received.Some? {
        history := history + [received.value];
        NotifyInputComponents(em, received.value, order);
      } else {
        NotifyInputComponents(em, 0, order);
      }
    }
  }
}
