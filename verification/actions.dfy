/**
 Actions exchanged between the agents and an episode.

 The action type itself is not part of this model; only the two kinds the
 agents create are, together with the empty action, and applying an action
 is the corresponding board operation.
 */
module Actions {
  import opened Board
  import opened Slides

  /** The empty action, a slide with an opcode, or a placement of a tile rank. */
  datatype Action = NoAction | SlideAction(op: int) | PlaceAction(pos: nat, tile: nat)

  /** Apply an action to a board. A rejected action, reward -1, never
      changes the board; an accepted one earns a non-negative reward. */
  function Perform(a: Action, b: Board): (t: Transition)
    ensures t.reward == -1 ==> t.board == b
    ensures t.reward != -1 ==> t.reward >= 0
    ensures a.NoAction? ==> t.reward == -1
  {
    match a
    case NoAction => Transition(b, -1)
    case SlideAction(op) => SlideLegality(b, op); Slide(b, op)
    case PlaceAction(pos, tile) => Place(b, pos, tile)
  }
}
