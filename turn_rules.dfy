/**
 * One turn of the store as a function of its state: the reference
 * semantics `Turn` that `GameStore.MovePlayer` is proved to implement, and
 * the rules of the game stated as lemmas about it.
 */
module TurnRules {
  import opened GameTypes
  import opened Grid
  import opened Mimic

  /** The store's mutable fields as one value. */
  datatype State = State(
    playerPos: Position,
    playerLastPos: Position,
    mimicLastPos: Option<Position>,
    playerFacing: Facing,
    mimicFacing: Facing,
    moveHistory: seq<Position>,
    moves: nat,
    mimicMoves: nat,
    gameOver: bool
  )

  /** A turn's new state and what the call reports. */
  datatype TurnResult = TurnResult(state: State, outcome: Outcome)

  /**
   * What the store keeps true between calls: one history entry per move
   * plus the spawn cell first, the mimic's budget respected, the mimic never
   * ahead of the moves made after its delay, and, while the game runs, the
   * player standing on the last history entry.
   */
  predicate Inv(lvl: Level, s: State)
  {
    && |s.moveHistory| == s.moves + 1
    && s.moveHistory[0] == lvl.spawn
    && s.mimicMoves <= lvl.mimicMoveLimit
    && (s.mimicMoves > 0 ==> s.mimicMoves + lvl.mimicDelay <= s.moves)
    && (!s.gameOver ==> s.playerPos == s.moveHistory[s.moves])
  }

  /** The initial state, which `resetGame` also restores. */
  function Initial(lvl: Level): (s: State)
    ensures Inv(lvl, s) && !s.gameOver
    ensures s.moves == 0 && s.mimicMoves == 0 && s.moveHistory == [lvl.spawn]
  {
    State(lvl.spawn, lvl.spawn, None, FacingRight, FacingRight, [lvl.spawn], 0, 0, false)
  }

  /** The facing a horizontal input sets. */
  function FacingOf(d: Direction): Facing
    requires d == Left || d == Right
  {
    if d == Left then FacingLeft else FacingRight
  }

  /** The cell an input aims at, one step from `pos`. */
  function Neighbour(pos: Position, d: Direction): Position
  {
    match d
    case Left => Position(pos.row, pos.col - 1)
    case Right => Position(pos.row, pos.col + 1)
    case Up => Position(pos.row - 1, pos.col)
    case Down => Position(pos.row + 1, pos.col)
  }

  /** The player's facing after the attempt, and the accepted target cell (if any). */
  datatype Attempt = Attempt(facing: Facing, target: Option<Position>)

  /** The bounds and obstacle rejection. */
  function Admit(lvl: Level, p: Position): Option<Position>
  {
    if p.row < 0 || p.row >= lvl.gridSize || p.col < 0 || p.col >= lvl.gridSize then None
    else if IsObstacle(lvl, p.row, p.col) then None
    else Some(p)
  }

  /** The move attempt: the requested step, the facing it sets, and its rejection. */
  function MoveAttempt(lvl: Level, pos: Position, facing: Facing, d: Direction): Attempt
  {
    match d
    case Left => Attempt(FacingLeft, Admit(lvl, Neighbour(pos, d)))
    case Right => Attempt(FacingRight, Admit(lvl, Neighbour(pos, d)))
    case Up =>
      if !IsLadder(lvl, pos.row, pos.col) then Attempt(facing, None)
      else if pos.row - 1 >= 0 && !IsLadder(lvl, pos.row - 1, pos.col) then Attempt(facing, None)
      else Attempt(facing, Admit(lvl, Neighbour(pos, d)))
    case Down =>
      if !IsLadder(lvl, pos.row, pos.col) then Attempt(facing, None)
      else if pos.row + 1 < lvl.gridSize && !IsLadder(lvl, pos.row + 1, pos.col) then Attempt(facing, None)
      else Attempt(facing, Admit(lvl, Neighbour(pos, d)))
  }

  /** Gravity: a ladder cell holds the player; anything else falls. */
  function Landing(lvl: Level, p: Position): Position
  {
    if IsLadder(lvl, p.row, p.col) then p else Settle(lvl, p)
  }

  /** The mimic's new facing: toward the new column, or unchanged when the column is the same. */
  function FaceToward(from: Position, to: Position, current: Facing): Facing
  {
    if to.col != from.col then (if to.col > from.col then FacingRight else FacingLeft) else current
  }

  /** The mimic step, run on the state after the history push and the move count. */
  function MimicStep(lvl: Level, s: State): State
  {
    if s.moves > lvl.mimicDelay && s.mimicMoves < lvl.mimicMoveLimit then
      var before := MimicPos(lvl, s.moves, s.mimicMoves, s.moveHistory);
      var s' := s.(mimicMoves := s.mimicMoves + 1);
      var after := MimicPos(lvl, s'.moves, s'.mimicMoves, s'.moveHistory);
      if before.Some? && after.Some? then
        s'.(mimicLastPos := before, mimicFacing := FaceToward(before.value, after.value, s.mimicFacing))
      else s'
    else s
  }

  /**
   * One call of `movePlayer`: nothing once the game is over; otherwise the
   * move attempt, then (for an accepted move) gravity and the fall-out
   * loss, the history push, the mimic step and the final checks.
   */
  function Turn(lvl: Level, s: State, d: Direction): TurnResult
  {
    if s.gameOver then TurnResult(s, NoOp)
    else
      var a := MoveAttempt(lvl, s.playerPos, s.playerFacing, d);
      match a.target
      case None => TurnResult(s.(playerFacing := a.facing), NoOp)
      case Some(p) => Commit(lvl, s.(playerFacing := a.facing), p)
  }

  /**
   * The accepted part of a turn, from gravity to the final checks, once
   * the move to `p` is accepted; `s.playerPos` is still the pre-move cell.
   * A fall off the board ends the game before anything is recorded;
   * otherwise the landing cell is appended and the mimic steps.
   */
  function Commit(lvl: Level, s: State, p: Position): TurnResult
  {
    var landed := Landing(lvl, p);
    if !IsLadder(lvl, p.row, p.col) && landed.row >= lvl.gridSize then
      TurnResult(s.(playerPos := landed, gameOver := true), FellOut)
    else
      Evaluate(lvl, MimicStep(lvl, Pushed(s, landed)), s.playerPos)
  }

  /** The history push: the landing cell is appended and the move is counted. */
  function Pushed(s: State, landed: Position): State
  {
    s.(playerPos := landed, moveHistory := s.moveHistory + [landed], moves := s.moves + 1)
  }

  /** The final checks: the collision check, then the altar check, from the pre-move cell `oldPos`. */
  function Evaluate(lvl: Level, s: State, oldPos: Position): TurnResult
  {
    if Collides(lvl, s.moves, s.mimicMoves, s.moveHistory, s.playerPos, oldPos) then
      TurnResult(s.(gameOver := true), Collided)
    else if s.playerPos.row == lvl.altar.row && s.playerPos.col == lvl.altar.col then
      TurnResult(s.(gameOver := true), Won)
    else
      TurnResult(s.(playerLastPos := oldPos), Continue)
  }

  /** The turns of a sequence of inputs, one after another. */
  function Run(lvl: Level, s: State, ds: seq<Direction>): State
    decreases |ds|
  {
    if ds == [] then s else Run(lvl, Turn(lvl, s, ds[0]).state, ds[1..])
  }

  /** An accepted turn that did not end in a fall: history grew and the mimic may have stepped. */
  predicate Settled(o: Outcome)
  {
    o == Collided || o == Won || o == Continue
  }
}
