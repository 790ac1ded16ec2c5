/**
 * `GameStateManager`: a stack of game states of which only the top one is
 * updated, rendered and asked to handle events. A state's own hooks are
 * no-ops by default and the main menu's `render` only prints, so the
 * manager's observable effect is which hook it calls on which state: it is
 * recorded in `calls` as the hook and the state's position in the stack.
 */
module GameStates {

  datatype StateHook = UpdateHook | RenderHook | HandleEventsHook

  class GameStateManager<S> {
    var states: seq<S>
    /** The hook invocations made so far, oldest first, by stack position. */
    var calls: seq<(StateHook, nat)>

    /** Every recorded call went to a state that is on the stack. */
    ghost predicate Valid()
      reads this
    {
      forall i | 0 <= i < |calls| :: calls[i].1 < |states|
    }

    /** `GameStateManager::new`: no states. */
    constructor ()
      ensures states == [] && calls == []
      ensures Valid()
    {
      states := [];
      calls := [];
    }

    /** `get_current_state`: the top of the stack; it panics on an empty stack. */
    function GetCurrentState(): S
      reads this
      requires |states| > 0
    {
      states[|states| - 1]
    }

    /**
     * `change_state`: pushes; nothing is ever popped, so the pushed state
     * becomes current and every earlier one stays beneath it.
     */
    method ChangeState(state: S)
      modifies this
      ensures states == old(states) + [state]
      ensures calls == old(calls)
      ensures GetCurrentState() == state
      ensures |states| == |old(states)| + 1 && states[..|old(states)|] == old(states)
      ensures old(Valid()) ==> Valid()
    {
      states := states + [state];
    }

    /** `update`: the top state's `update`, or nothing on an empty stack. */
    method Update()
      modifies this
      ensures states == old(states)
      ensures |states| == 0 ==> calls == old(calls)
      ensures |states| > 0 ==> calls == old(calls) + [(UpdateHook, |states| - 1)]
      ensures old(Valid()) ==> Valid()
    {
      if |states| > 0 {
        calls := calls + [(UpdateHook, |states| - 1)];
      }
    }

    /** `render`: the current state's `render`; an empty stack panics. */
    method Render()
      requires |states| > 0
      modifies this
      ensures states == old(states)
      ensures calls == old(calls) + [(RenderHook, |states| - 1)]
      ensures old(Valid()) ==> Valid()
    {
      calls := calls + [(RenderHook, |states| - 1)];
    }

    /** `handle_events`: the current state's `handle_events`; an empty stack panics. */
    method HandleEvents()
      requires |states| > 0
      modifies this
      ensures states == old(states)
      ensures calls == old(calls) + [(HandleEventsHook, |states| - 1)]
      ensures old(Valid()) ==> Valid()
    {
      calls := calls + [(HandleEventsHook, |states| - 1)];
    }
  }
}
