/**
 * The game store: one object holding the level and the mutable play
 * state, with the actions that update it in place.
 */
module Store {
  import opened GameTypes
  import opened Grid
  import opened Mimic
  import opened TurnRules
  import TurnProperties

  class GameStore {
    /** The level constants; the store never changes them. */
    const level: Level

    var playerPos: Position
    var playerLastPos: Position
    var mimicLastPos: Option<Position>
    var playerFacing: Facing
    var mimicFacing: Facing
    var moveHistory: seq<Position>
    var moves: nat
    var mimicMoves: nat
    var gameOver: bool

    /** The play state as a value. */
    function Snapshot(): State
      reads this
    {
      State(playerPos, playerLastPos, mimicLastPos, playerFacing, mimicFacing,
            moveHistory, moves, mimicMoves, gameOver)
    }

    ghost predicate Valid()
      reads this
    {
      Inv(level, Snapshot())
    }

    /** The store's initial state for a level. */
    constructor (lvl: Level)
      ensures level == lvl
      ensures Snapshot() == Initial(lvl) && Valid() && mimicMoves == Lag(level, moves)
    {
      level := lvl;
      playerPos := lvl.spawn;
      playerLastPos := lvl.spawn;
      mimicLastPos := None;
      playerFacing := FacingRight;
      mimicFacing := FacingRight;
      moveHistory := [lvl.spawn];
      moves := 0;
      mimicMoves := 0;
      gameOver := false;
    }

    /** `resetGame`: back to the spawn cell with empty counters; the game runs again. */
    method ResetGame()
      modifies this
      ensures Snapshot() == Initial(level) && Valid() && mimicMoves == Lag(level, moves)
    {
      playerPos := level.spawn;
      playerLastPos := level.spawn;
      mimicLastPos := None;
      playerFacing := FacingRight;
      mimicFacing := FacingRight;
      moveHistory := [level.spawn];
      moves := 0;
      mimicMoves := 0;
      gameOver := false;
    }

    /**
     * `applyGravity`: scans down the column for the first supporting cell;
     * the result is `Settle`, so it keeps the column, stays put on a
     * support, and otherwise reaches the first support below or row
     * `gridSize`.
     */
    method ApplyGravity(pos: Position) returns (r: Position)
      ensures r == Settle(level, pos)
      ensures r.col == pos.col && (IsSupport(level, r.row, r.col) || r.row == level.gridSize)
    {
      var currentRow := pos.row;
      var currentCol := pos.col;
      if IsGround(level, currentRow, currentCol) || IsObstacle(level, currentRow, currentCol)
         || IsLadder(level, currentRow, currentCol) {
        return Position(currentRow, currentCol);
      }
      while currentRow < level.gridSize - 1
        invariant currentCol == pos.col
        invariant Fall(level, currentRow, currentCol) == Fall(level, pos.row, pos.col)
        decreases level.gridSize - currentRow
      {
        var nextRow := currentRow + 1;
        if IsGround(level, nextRow, currentCol) || IsObstacle(level, nextRow, currentCol)
           || IsLadder(level, nextRow, currentCol) {
          return Position(nextRow, currentCol);
        }
        currentRow := currentRow + 1;
      }
      return Position(level.gridSize, currentCol);
    }

    /**
     * The mimic's replay step inside `movePlayer`, run after the history
     * push: once past the delay and within budget, the mimic advances one
     * history entry, remembers the cell it left and turns toward a new column.
     */
    method StepMimic()
      modifies this
      ensures Snapshot() == MimicStep(level, old(Snapshot()))
    {
      ghost var before := Snapshot();
      if moves > level.mimicDelay && mimicMoves < level.mimicMoveLimit {
        var oldMimicPos := MimicPos(level, moves, mimicMoves, moveHistory);
        mimicMoves := mimicMoves + 1;
        var newMimicPos := MimicPos(level, moves, mimicMoves, moveHistory);
        if oldMimicPos.Some? && newMimicPos.Some? {
          mimicLastPos := oldMimicPos;
          if newMimicPos.value.col != oldMimicPos.value.col {
            mimicFacing := if newMimicPos.value.col > oldMimicPos.value.col then FacingRight else FacingLeft;
          }
          assert mimicFacing == FaceToward(oldMimicPos.value, newMimicPos.value, before.mimicFacing);
        }
        assert Snapshot() == MimicStep(level, before);
      }
    }

    /**
     * `movePlayer`: resolves one whole turn in place. Its effect and
     * report are those of `Turn`, and it keeps the store's invariant and
     * the mimic's exact lag.
     */
    method MovePlayer(direction: Direction) returns (outcome: Outcome)
      modifies this
      ensures Snapshot() == Turn(level, old(Snapshot()), direction).state
      ensures outcome == Turn(level, old(Snapshot()), direction).outcome
      ensures old(Valid()) ==> Valid()
      ensures old(Valid() && mimicMoves == Lag(level, moves)) ==> mimicMoves == Lag(level, moves)
    {
      if Valid() {
        TurnProperties.TurnPreservesInv(level, Snapshot(), direction);
        if mimicMoves == Lag(level, moves) {
          TurnProperties.TurnKeepsLag(level, Snapshot(), direction);
        }
      }
      if gameOver {
        return NoOp;
      }
      var target := AimMove(direction);
      if target.None? {
        return NoOp;
      }
      outcome := CommitMove(target.value);
    }

    /**
     * The first half of `movePlayer`: the requested step, the facing a
     * horizontal input sets, the ladder rule for vertical input, and the
     * bounds and obstacle rejection. Only `playerFacing` changes.
     */
    method AimMove(direction: Direction) returns (target: Option<Position>)
      modifies this`playerFacing
      ensures Attempt(playerFacing, target)
           == MoveAttempt(level, playerPos, old(playerFacing), direction)
    {
      var newRow := playerPos.row;
      var newCol := playerPos.col;

      if direction == Left {
        newCol := newCol - 1;
        playerFacing := FacingLeft;
      } else if direction == Right {
        newCol := newCol + 1;
        playerFacing := FacingRight;
      } else if direction == Up && IsLadder(level, playerPos.row, playerPos.col) {
        newRow := newRow - 1;
        if newRow >= 0 && !IsLadder(level, newRow, playerPos.col) {
          return None;
        }
      } else if direction == Down && IsLadder(level, playerPos.row, playerPos.col) {
        newRow := newRow + 1;
        if newRow < level.gridSize && !IsLadder(level, newRow, playerPos.col) {
          return None;
        }
      } else {
        return None;
      }

      if newRow < 0 || newRow >= level.gridSize || newCol < 0 || newCol >= level.gridSize {
        return None;
      }
      if IsObstacle(level, newRow, newCol) {
        return None;
      }
      return Some(Position(newRow, newCol));
    }

    /**
     * The second half of `movePlayer`, once the move to `target` passed the
     * bounds and obstacle checks: gravity and the fall-out loss, the
     * history push and move count, the mimic step, then the collision and
     * altar checks. Its effect and report are those of `Commit`.
     */
    method CommitMove(target: Position) returns (outcome: Outcome)
      modifies this
      ensures Snapshot() == Commit(level, old(Snapshot()), target).state
      ensures outcome == Commit(level, old(Snapshot()), target).outcome
    {
      ghost var before := Snapshot();
      var oldPlayerPos := playerPos;
      playerPos := target;
      if !IsLadder(level, playerPos.row, playerPos.col) {
        playerPos := ApplyGravity(playerPos);
        if playerPos.row >= level.gridSize {
          gameOver := true;
          return FellOut;
        }
      }

      moveHistory := moveHistory + [playerPos];
      moves := moves + 1;
      assert Snapshot() == Pushed(before, Landing(level, target));
      assert Commit(level, before, target) == Evaluate(level, MimicStep(level, Snapshot()), oldPlayerPos);
      StepMimic();
      outcome := Conclude(oldPlayerPos);
    }

    /**
     * The end of `movePlayer`: the collision check against the mimic, then
     * the altar check, each ending the game; otherwise the pre-move cell
     * becomes `playerLastPos` and the turn is acknowledged.
     */
    method Conclude(oldPlayerPos: Position) returns (outcome: Outcome)
      modifies this`gameOver, this`playerLastPos
      ensures Snapshot() == Evaluate(level, old(Snapshot()), oldPlayerPos).state
      ensures outcome == Evaluate(level, old(Snapshot()), oldPlayerPos).outcome
    {
      if Collides(level, moves, mimicMoves, moveHistory, playerPos, oldPlayerPos) {
        gameOver := true;
        return Collided;
      }

      if playerPos.row == level.altar.row && playerPos.col == level.altar.col {
        gameOver := true;
        return Won;
      }

      playerLastPos := oldPlayerPos;
      return Continue;
    }
  }
}
