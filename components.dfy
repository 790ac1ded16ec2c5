/**
 * The closed set of component kinds the store keys its tables by (the
 * `ComponentType` of each component struct).
 */
module Kinds {
  datatype Kind =
    | Position | Walk | Health | Damage | Energy | Speed | Log | Name | Event
    | Input | Render | Prototype | GameTime | Turn | Player | Collidable
    | RandomWalkAi | Item | Consumable
}

/**
 * Component values. Each constructor is one component struct of the game;
 * its fields are the ones the systems read and write.
 */
module Components {
  import opened Common
  import K = Kinds

  /** An entity is its integer id. */
  type Entity = int

  datatype RenderLayer = MapLayer | ItemLayer | PlayerLayer

  /**
   * The payload of an Event component. Only `Collision` is inspected by the
   * systems; every other event variant is represented by `OtherEvent`.
   */
  datatype EventKind = Collision(collider: Entity) | OtherEvent(tag: string)

  datatype Component =
    | Position(x: int, y: int)
    | Walk(dx: int, dy: int)
    | Health(health: int, maxHealth: int)
    | Damage(amount: int, target: Option<Entity>)
    | Energy(amount: int)
    | Speed(amount: int)
    | Log(history: seq<string>)
    | Name(name: string)
    | Event(event: EventKind)
    | Input(input: int)
    | Render(glyph: char, layer: RenderLayer)
    | Prototype(prototype: Entity)
    | GameTime
    | Turn
    | Player
    | Collidable
    | RandomWalkAi
    | Item
    | Consumable

  /**
   * The table a component is stored in (`Component::get_type`); the kind
   * determines the struct, which is what makes a downcast by kind safe.
   */
  function KindOf(c: Component): (r: K.Kind)
    ensures r == K.Position <==> c.Position?
    ensures r == K.Walk <==> c.Walk?
    ensures r == K.Health <==> c.Health?
    ensures r == K.Damage <==> c.Damage?
    ensures r == K.Energy <==> c.Energy?
    ensures r == K.Speed <==> c.Speed?
    ensures r == K.Log <==> c.Log?
    ensures r == K.Name <==> c.Name?
    ensures r == K.Event <==> c.Event?
    ensures r == K.Input <==> c.Input?
    ensures r == K.Render <==> c.Render?
    ensures r == K.Prototype <==> c.Prototype?
    ensures r == K.GameTime <==> c.GameTime?
    ensures r == K.Turn <==> c.Turn?
    ensures r == K.Player <==> c.Player?
    ensures r == K.Collidable <==> c.Collidable?
    ensures r == K.RandomWalkAi <==> c.RandomWalkAi?
    ensures r == K.Item <==> c.Item?
    ensures r == K.Consumable <==> c.Consumable?
  {
    match c
    case Position(_, _) => K.Position
    case Walk(_, _) => K.Walk
    case Health(_, _) => K.Health
    case Damage(_, _) => K.Damage
    case Energy(_) => K.Energy
    case Speed(_) => K.Speed
    case Log(_) => K.Log
    case Name(_) => K.Name
    case Event(_) => K.Event
    case Input(_) => K.Input
    case Render(_, _) => K.Render
    case Prototype(_) => K.Prototype
    case GameTime => K.GameTime
    case Turn => K.Turn
    case Player => K.Player
    case Collidable => K.Collidable
    case RandomWalkAi => K.RandomWalkAi
    case Item => K.Item
    case Consumable => K.Consumable
  }
}
