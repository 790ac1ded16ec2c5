/**
 * The older, name-keyed component store: a map from a component's name to
 * the list of (entity id, component) pairs filed under it. Entity ids are
 * strings here.
 */
module ComponentManager {
  import opened Common
  import Consoles
  import LegacyEntities

  /** The component structs of this store. */
  datatype Component =
    | Position(x: int, y: int)
    | Velocity(dx: int, dy: int)
    | Glyph(glyph: char, fg: Consoles.Color, bg: Consoles.Color)
    | Physics(blocks: bool)
    | Health(maxHealth: int, health: int)
    | Prototype(entity: LegacyEntities.Entity)

  /** `Component::name` of each struct. */
  function Name(c: Component): string {
    match c
    case Position(_, _) => "position"
    case Velocity(_, _) => "velocity"
    case Glyph(_, _, _) => "glyph"
    case Physics(_) => "physics"
    case Health(_, _) => "health"
    case Prototype(_) => "prototype"
  }

  /** Two components share a name exactly when they are the same struct. */
  predicate SameStruct(a: Component, b: Component) {
    (a.Position? && b.Position?) || (a.Velocity? && b.Velocity?) || (a.Glyph? && b.Glyph?) ||
    (a.Physics? && b.Physics?) || (a.Health? && b.Health?) || (a.Prototype? && b.Prototype?)
  }

  /** Names are non-empty and tell the structs apart. */
  lemma NamesIdentifyStructs(a: Component, b: Component)
    ensures Name(a) != ""
    ensures Name(a) == Name(b) <==> SameStruct(a, b)
  {
    if !SameStruct(a, b) {
      // Differing names differ in their first or second letter.
      assert Name(a)[0] != Name(b)[0] || Name(a)[1] != Name(b)[1];
    }
  }

  /**
   * The `find` of `get_entity_component`: the component of the first pair
   * filed for `id`.
   */
  function FindFirst(list: seq<(string, Component)>, id: string): (r: Option<Component>)
    ensures r.None? <==> forall i | 0 <= i < |list| :: list[i].0 != id
    ensures r.Some? ==> exists i | 0 <= i < |list| ::
      list[i] == (id, r.value) && forall j | 0 <= j < i :: list[j].0 != id
    decreases |list|
  {
    if list == [] then None
    else if list[0].0 == id then Some(list[0].1)
    else
      var rest := FindFirst(list[1..], id);
      assert forall i | 1 <= i < |list| :: list[i] == list[1..][i - 1];
      rest
  }

  /** Appending a pair never changes what an earlier pair of the same id answers. */
  lemma {:induction false} FindFirstAppend(list: seq<(string, Component)>, id: string, c: Component, x: string)
    ensures FindFirst(list + [(id, c)], x) ==
      if FindFirst(list, x).Some? then FindFirst(list, x)
      else if x == id then Some(c) else None
    decreases |list|
  {
    if list != [] {
      assert (list + [(id, c)])[1..] == list[1..] + [(id, c)];
      FindFirstAppend(list[1..], id, c, x);
    }
  }

  class ComponentStore {
    var components: map<string, seq<(string, Component)>>

    /** Every list holds only components of the list's own name. */
    ghost predicate Filed()
      reads this
    {
      forall n, i | n in components && 0 <= i < |components[n]| :: Name(components[n][i].1) == n
    }

    /** `ComponentManager::new`: no lists at all. */
    constructor ()
      ensures components == map[]
      ensures Filed()
    {
      components := map[];
    }

    /**
     * `create_component`: appends to the list of the component's name when
     * that list exists; the branch that would create it is commented out,
     * so otherwise nothing is stored.
     */
    method CreateComponent(entityId: string, c: Component)
      modifies this
      ensures components.Keys == old(components).Keys
      ensures Name(c) in old(components) ==>
        components == old(components)[Name(c) := old(components)[Name(c)] + [(entityId, c)]]
      ensures Name(c) !in old(components) ==> components == old(components)
      ensures old(Filed()) ==> Filed()
    {
      var name := Name(c);
      if name in components {
        components := components[name := components[name] + [(entityId, c)]];
      }
    }

    /**
     * `get_entity_component`: the first component filed for the entity
     * under that name. A name without a list panics on its `unwrap`.
     */
    function GetEntityComponent(entityId: string, name: string): (r: Option<Component>)
      reads this
      requires name in components
      ensures r.None? <==> forall i | 0 <= i < |components[name]| :: components[name][i].0 != entityId
      ensures r.Some? ==> exists i | 0 <= i < |components[name]| ::
        components[name][i] == (entityId, r.value) && forall j | 0 <= j < i :: components[name][j].0 != entityId
      ensures Filed() && r.Some? ==> Name(r.value) == name
    {
      FindFirst(components[name], entityId)
    }
  }

  /**
   * Storing a component for an id the list does not mention yet makes it
   * that id's answer; an id already present keeps its first component.
   */
  lemma CreateThenGet(components: map<string, seq<(string, Component)>>, id: string, c: Component, x: string)
    requires Name(c) in components
    ensures var after := components[Name(c) := components[Name(c)] + [(id, c)]];
      FindFirst(after[Name(c)], x) ==
      if FindFirst(components[Name(c)], x).Some? then FindFirst(components[Name(c)], x)
      else if x == id then Some(c) else None
  {
    FindFirstAppend(components[Name(c)], id, c, x);
  }
}
