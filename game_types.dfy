/**
 * Value types of the game store: grid positions, input directions, facing,
 * the outcome of one turn, and the level description the store hard-codes.
 */
module GameTypes {

  /** An absent or present value; the store's `null`-able fields. */
  datatype Option<T> = None | Some(value: T)

  /** A grid cell; `row` grows downward and `col` grows rightward. */
  datatype Position = Position(row: int, col: int)

  /** The four inputs `movePlayer` accepts. */
  datatype Direction = Left | Right | Up | Down

  /** Which way an actor is drawn facing; only horizontal motion changes it. */
  datatype Facing = FacingLeft | FacingRight

  /**
   * What one call of `movePlayer` reports: `NoOp` is the bare `return`
   * (no message), the others stand for the fall-out loss, the collision
   * loss, the win at the altar and the "press the arrows" acknowledgement.
   */
  datatype Outcome = NoOp | FellOut | Collided | Won | Continue

  /**
   * The level constants the store keeps as state fields and never changes:
   * the side of the square grid, the mimic's delay and move budget, the
   * blocking cells, the exit (altar), the ground and ladder cells, and the
   * cell the player starts on and returns to on reset.
   */
  datatype Level = Level(
    gridSize: nat,
    mimicDelay: nat,
    mimicMoveLimit: nat,
    obstacles: seq<Position>,
    altar: Position,
    ground: seq<Position>,
    ladders: seq<Position>,
    spawn: Position
  )

  /** The one level the store ships with. */
  const DefaultLevel: Level := Level(
    gridSize := 7,
    mimicDelay := 3,
    mimicMoveLimit := 4,
    obstacles := [Position(2, 5), Position(5, 4)],
    altar := Position(2, 6),
    ground := [
      Position(6, 0), Position(6, 1), Position(6, 2), Position(6, 3),
      Position(6, 4), Position(6, 5), Position(6, 6), Position(4, 2),
      Position(4, 3), Position(2, 5), Position(2, 6)
    ],
    ladders := [
      Position(5, 1), Position(6, 1), Position(3, 4), Position(4, 4),
      Position(3, 6), Position(4, 6), Position(5, 6), Position(6, 6),
      Position(4, 1), Position(2, 4)
    ],
    spawn := Position(6, 0)
  )
}
