/**
 * The game's key maps. Three files each translate an ncurses key code
 * (an `i32`) into a command of their own type, and the config manager
 * names the movement keys; all of them agree with the Walk system's
 * key-to-delta table.
 */
module InputKeys {
  import opened Common
  import WalkSystem

  /** `InputEvent` of the legacy input system. */
  datatype InputEvent = MovePlayer(dx: int, dy: int) | Quit

  /** `handle_input` of the legacy input system: w, d, s, a move the player and q quits. */
  function HandleInput(input: int): (r: Option<InputEvent>)
    ensures r == Some(Quit) <==> input == 113
    ensures r.None? <==> input !in {119, 100, 115, 97, 113}
  {
    match input
    case 119 => Some(MovePlayer(0, -1))
    case 100 => Some(MovePlayer(1, 0))
    case 115 => Some(MovePlayer(0, 1))
    case 97 => Some(MovePlayer(-1, 0))
    case 113 => Some(Quit)
    case _ => None
  }

  /**
   * A key moves the player exactly when the Walk system gives it a
   * non-zero delta, and then by that delta.
   */
  lemma MovesAgreeWithWalk(input: int)
    ensures var r := HandleInput(input);
      (r.Some? && r.value.MovePlayer?) <==> WalkSystem.KeyDelta(input) != (0, 0)
    ensures var r := HandleInput(input);
      r.Some? && r.value.MovePlayer? ==> (r.value.dx, r.value.dy) == WalkSystem.KeyDelta(input)
  {
  }

  /** Every move is one cell along one axis. */
  lemma MovesAreUnitSteps(input: int)
    requires HandleInput(input).Some? && HandleInput(input).value.MovePlayer?
    ensures var m := HandleInput(input).value;
      (m.dx == 0) != (m.dy == 0) && -1 <= m.dx <= 1 && -1 <= m.dy <= 1
  {
  }
}

/**
 * `input_manager::handle_input`. The `Event` type lives in the client
 * module, which is not part of this model; only the two variants this map
 * produces are represented.
 */
module InputManager {
  import opened Common
  import InputKeys

  datatype Event = Move(dx: int, dy: int) | QuitEvent

  function HandleInput(input: int): (r: Option<Event>)
    ensures r == Some(QuitEvent) <==> input == 113
    ensures r.None? <==> input !in {119, 115, 100, 97, 113}
  {
    match input
    case 119 => Some(Move(0, -1))
    case 115 => Some(Move(0, 1))
    case 100 => Some(Move(1, 0))
    case 97 => Some(Move(-1, 0))
    case 113 => Some(QuitEvent)
    case _ => None
  }

  /** The command each event stands for in the legacy input system's terms. */
  function AsInputEvent(e: Event): InputKeys.InputEvent {
    match e
    case Move(dx, dy) => InputKeys.MovePlayer(dx, dy)
    case QuitEvent => InputKeys.Quit
  }

  /**
   * The input manager and the legacy input system map every key alike
   * (115 is "down" in both, whatever the comment beside it says).
   */
  lemma AgreesWithInputSystem(input: int)
    ensures HandleInput(input).None? <==> InputKeys.HandleInput(input).None?
    ensures HandleInput(input).Some? ==>
      InputKeys.HandleInput(input) == Some(AsInputEvent(HandleInput(input).value))
  {
  }
}

/**
 * `config_manager`: the `Key` enum with its explicit discriminants, and
 * the default key bindings.
 */
module ConfigKeys {
  import opened Common
  import WalkSystem

  /** `Key`: upper-case W and the four lower-case movement keys. */
  datatype Key = UpperW | LowerA | LowerD | LowerS | LowerW

  /** The key's discriminant: its ASCII code. */
  function Code(k: Key): (c: int)
    ensures 0 < c < 128
  {
    match k
    case UpperW => 87
    case LowerA => 97
    case LowerD => 100
    case LowerS => 115
    case LowerW => 119
  }

  /** Distinct keys have distinct discriminants. */
  lemma CodeInjective(k: Key, j: Key)
    ensures Code(k) == Code(j) <==> k == j
  {
  }

  /** The binding before the emptiness test of `Keybinds::get`. */
  function Binding(k: Key): string {
    match k
    case LowerW => "+forward"
    case LowerS => "+back"
    case LowerA => "+moveleft"
    case LowerD => "+moveright"
    case _ => ""
  }

  /** `Keybinds::get`: the bound command, or None for an empty binding. */
  function Get(k: Key): (r: Option<string>)
    ensures r.Some? ==> r.value != "" && r.value[0] == '+'
    ensures r.None? <==> k == UpperW
  {
    var bind := Binding(k);
    if bind == [] then None else Some(bind)
  }

  /**
   * Exactly the keys that move in the Walk system are bound, and each
   * binding names the direction of that key's delta.
   */
  lemma BoundKeysAreWalkKeys(k: Key)
    ensures Get(k).Some? <==> WalkSystem.KeyDelta(Code(k)) != (0, 0)
    ensures Get(k) == Some("+forward") <==> WalkSystem.KeyDelta(Code(k)) == (0, -1)
    ensures Get(k) == Some("+back") <==> WalkSystem.KeyDelta(Code(k)) == (0, 1)
    ensures Get(k) == Some("+moveleft") <==> WalkSystem.KeyDelta(Code(k)) == (-1, 0)
    ensures Get(k) == Some("+moveright") <==> WalkSystem.KeyDelta(Code(k)) == (1, 0)
  {
  }
}
