/**
 * The `get_component!` macro and the `System` trait's default hooks.
 *
 * The macro's immutable form goes through `get_component` (with its
 * prototype fallback) and then downcasts to the requested component type;
 * the `mut` form goes through `get_component_mut` and downcasts. A downcast
 * succeeds exactly when the stored component is of the requested kind.
 */
module Systems {
  import opened Common
  import K = Kinds
  import opened Components
  import opened Entities

  /** `downcast_ref` / `downcast_mut` to the struct of kind `k`. */
  function Downcast(c: Option<Component>, k: K.Kind): Option<Component> {
    if c.Some? && KindOf(c.value) == k then c else None
  }

  /** The trait's default `mount`, `process`, `process_mut` and `unmount`. */
  method DefaultHook(em: EntityManager)
    ensures unchanged(em)
  {
  }

  /** `get_component!(em, e, T)`: fallback lookup, then downcast. */
  function GetComponentAs(t: Tables, e: Entity, k: K.Kind, fuel: nat): (r: Outcome<Option<Component>>)
    ensures r.Done? ==>
      (r.value.Some? <==> HasComponent(t, e, k) && KindOf(t[k][e]) == k)
    ensures r.Done? && r.value.Some? ==> r.value.value == t[k][e]
    ensures fuel > 0 && k in t ==> r.Done?
  {
    match GetComponent(t, e, k, fuel)
    case Diverged => Diverged
    case Done(c) => Done(Downcast(c, k))
  }

  /** `get_component!(mut, em, e, T)`: direct read, then downcast. */
  function GetComponentMutAs(t: Tables, e: Entity, k: K.Kind): Option<Component> {
    Downcast(GetComponentMut(t, e, k), k)
  }

  /** A Log lookup after `lines` were pushed onto it; anything else is left alone. */
  function Appended(log: Option<Component>, lines: seq<string>): Option<Component> {
    if log.Some? && log.value.Log? then Some(Log(log.value.history + lines)) else log
  }

  /** `player`'s Log gains `line`, when it has a Log; the tables are kept otherwise. */
  function Logged(t: Tables, player: Entity, line: string): (r: Tables)
    ensures WellTyped(t) ==> WellTyped(r)
    ensures forall k | k != K.Log :: SameTable(t, r, k)
  {
    var log := GetComponentMutAs(t, player, K.Log);
    if log.Some? then Added(t, player, Log(log.value.history + [line])) else t
  }

  /** Pushing two batches of lines is pushing them together. */
  lemma AppendedTwice(log: Option<Component>, a: seq<string>, b: seq<string>)
    ensures Appended(Appended(log, a), b) == Appended(log, a + b)
  {
    if log.Some? && log.value.Log? {
      assert log.value.history + a + b == log.value.history + (a + b);
    }
  }

  /** Pushing no lines changes nothing. */
  lemma AppendedNothing(log: Option<Component>)
    ensures Appended(log, []) == log
  {
    if log.Some? && log.value.Log? {
      assert log.value.history + [] == log.value.history;
    }
  }

  /** `Logged` pushes the line onto `player`'s Log lookup and leaves every other Log alone. */
  lemma LoggedAppends(t: Tables, player: Entity, line: string)
    ensures forall x ::
      GetComponentMut(Logged(t, player, line), x, K.Log) ==
      (if x == player then Appended(GetComponentMut(t, x, K.Log), [line]) else GetComponentMut(t, x, K.Log))
  {
  }

  /**
   * The `mut` form never falls back: without the kind's table it is None
   * even when the entity's prototype carries such a component.
   */
  lemma MutFormIgnoresPrototype(t: Tables, e: Entity, p: Entity, k: K.Kind)
    requires k !in t && K.Prototype in t && e in t[K.Prototype] && t[K.Prototype][e] == Prototype(p)
    ensures GetComponentMutAs(t, e, k).None?
  {
  }

  /** In a well-typed store the downcast of either form never fails. */
  lemma DowncastNeverFailsWhenWellTyped(t: Tables, e: Entity, k: K.Kind, fuel: nat)
    requires WellTyped(t)
    ensures GetComponentMutAs(t, e, k) == GetComponentMut(t, e, k)
    ensures GetComponentAs(t, e, k, fuel).Done? ==>
      GetComponentAs(t, e, k, fuel) == Done(GetComponentMut(t, e, k))
  {
  }
}
