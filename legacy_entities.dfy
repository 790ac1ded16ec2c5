/**
 * The string-keyed entity container of the entities module: entities are
 * filed under an id string, and a key handler maps key codes to player
 * commands.
 */
module LegacyEntities {
  import opened Common
  import InputKeys

  /** `Entity`: an id and a name. */
  datatype Entity = Entity(id: string, name: string)

  /** `Entity::new(id)`: the given id and an empty name. */
  function NewEntity(id: string): (e: Entity)
    ensures e.id == id && e.name == ""
  {
    Entity(id, "")
  }

  /**
   * The container after `create_entity`: the id it uses is always the empty
   * string (the fresh UUID is drawn and then ignored), so the entry under
   * "" is replaced.
   */
  function Created(entities: map<string, Entity>): (r: map<string, Entity>)
    ensures r.Keys == entities.Keys + {""}
    ensures r[""] == NewEntity("")
    ensures forall id | id in entities && id != "" :: r[id] == entities[id]
  {
    entities["" := NewEntity("")]
  }

  /** A second `create_entity` changes nothing: there is only ever one created entity. */
  lemma CreatedIdempotent(entities: map<string, Entity>)
    ensures Created(Created(entities)) == Created(entities)
    ensures |Created(entities).Keys| <= |entities.Keys| + 1
  {
    assert Created(entities).Keys == entities.Keys + {""};
  }

  class EntityManager {
    var entities: map<string, Entity>

    /** `EntityManager::new`: no entities. */
    constructor ()
      ensures entities == map[]
    {
      entities := map[];
    }

    /** `create_entity`: files `Entity::new("")` under "" and returns "". */
    method CreateEntity() returns (id: string)
      modifies this
      ensures id == ""
      ensures entities == Created(old(entities))
    {
      id := "";
      var entity := NewEntity(id);
      entities := entities[id := entity];
    }
  }

  /** `InputType`: the commands a key can stand for. */
  datatype InputType = Move(dx: int, dy: int) | Pickup | ShowInventory | Exit

  /** `handle_key`: w, s, d, a move and q exits; nothing maps to Pickup or ShowInventory. */
  function HandleKey(key: int): (r: Option<InputType>)
    ensures r.Some? ==> !r.value.Pickup? && !r.value.ShowInventory?
    ensures r == Some(Exit) <==> key == 113
  {
    match key
    case 119 => Some(Move(0, -1))
    case 115 => Some(Move(0, 1))
    case 100 => Some(Move(1, 0))
    case 97 => Some(Move(-1, 0))
    case 113 => Some(Exit)
    case _ => None
  }

  /** `handle_key` maps every key as the legacy input system's `handle_input` does. */
  lemma HandleKeyAgreesWithInputSystem(key: int)
    ensures HandleKey(key).None? <==> InputKeys.HandleInput(key).None?
    ensures HandleKey(key) == Some(Exit) <==> InputKeys.HandleInput(key) == Some(InputKeys.Quit)
    ensures forall dx, dy ::
      HandleKey(key) == Some(Move(dx, dy)) <==> InputKeys.HandleInput(key) == Some(InputKeys.MovePlayer(dx, dy))
  {
  }
}

/**
 * The positioned entity of the entity module: a builder that ignores the
 * name it is given, and an entity whose position `_move` shifts in place.
 */
module EntityRecords {
  import opened Common
  import Consoles

  /** `EntityBuilder`: an optional name. */
  datatype EntityBuilder = EntityBuilder(name: Option<string>)

  /** `EntityBuilder::new`: no name yet. */
  function NewBuilder(): (b: EntityBuilder)
    ensures b.name.None?
  {
    EntityBuilder(None)
  }

  /** `EntityBuilder::name`: sets the name, replacing any earlier one. */
  function WithName(b: EntityBuilder, name: string): (r: EntityBuilder)
    ensures r.name == Some(name)
  {
    b.(name := Some(name))
  }

  class Entity {
    var x: int
    var y: int
    var glyph: char
    var color: Consoles.u8

    /** `Entity::new`: exactly the given fields. */
    constructor (x: int, y: int, glyph: char, color: Consoles.u8)
      ensures this.x == x && this.y == y && this.glyph == glyph && this.color == color
    {
      this.x := x;
      this.y := y;
      this.glyph := glyph;
      this.color := color;
    }

    /** `_move`: shifts the position by (dx, dy); glyph and colour stay. */
    method Move(dx: int, dy: int)
      modifies this
      ensures x == old(x) + dx && y == old(y) + dy
      ensures glyph == old(glyph) && color == old(color)
    {
      x := x + dx;
      y := y + dy;
    }
  }

  /**
   * `EntityBuilder::build`: the name (or its default "entity1") is computed
   * and dropped; every build is an entity at (0, 0) drawn as ' ' in colour 0.
   */
  method Build(b: EntityBuilder) returns (e: Entity)
    ensures fresh(e)
    ensures e.x == 0 && e.y == 0 && e.glyph == ' ' && e.color == 0
  {
    var name := if b.name.Some? then b.name.value else "entity1";
    e := new Entity(0, 0, ' ', 0);
  }
}
