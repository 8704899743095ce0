/**
 * The rules one turn obeys and the invariants every run keeps, proved
 * about the reference semantics `TurnRules.Turn`. The proofs go phase by
 * phase: the move attempt, the final checks (`Evaluate`), the mimic step,
 * the accepted part of a turn (`Commit`), then the whole turn.
 */
module TurnProperties {
  import opened GameTypes
  import opened Grid
  import opened Mimic
  import opened TurnRules

  // ---------------------------------------------------------------------
  // The move attempt

  /** An accepted target is the neighbouring cell, on the board and not an obstacle. */
  lemma AttemptTarget(lvl: Level, pos: Position, facing: Facing, d: Direction)
    ensures var a := MoveAttempt(lvl, pos, facing, d);
      a.target.Some? ==>
        && a.target.value == Neighbour(pos, d)
        && InBounds(lvl, a.target.value)
        && !IsObstacle(lvl, a.target.value.row, a.target.value.col)
  {
  }

  /**
   * Vertical input keeps the facing and is admitted exactly when both the
   * current cell and the cell above or below are ladders, the latter on
   * the board and not an obstacle.
   */
  lemma VerticalAttempt(lvl: Level, pos: Position, facing: Facing, d: Direction)
    requires d == Up || d == Down
    ensures var a := MoveAttempt(lvl, pos, facing, d); var dest := Neighbour(pos, d);
      && a.facing == facing
      && (a.target.Some? <==>
            && IsLadder(lvl, pos.row, pos.col)
            && IsLadder(lvl, dest.row, dest.col)
            && InBounds(lvl, dest)
            && !IsObstacle(lvl, dest.row, dest.col))
      && (a.target.Some? ==> a.target.value == dest)
  {
  }

  /**
   * Horizontal input sets the facing to its own direction and is admitted
   * exactly when the cell beside is on the board and not an obstacle.
   */
  lemma HorizontalAttempt(lvl: Level, pos: Position, facing: Facing, d: Direction)
    requires d == Left || d == Right
    ensures var a := MoveAttempt(lvl, pos, facing, d); var dest := Neighbour(pos, d);
      && a.facing == FacingOf(d)
      && (a.target.Some? <==> InBounds(lvl, dest) && !IsObstacle(lvl, dest.row, dest.col))
      && (a.target.Some? ==> a.target.value == dest)
  {
  }

  // ---------------------------------------------------------------------
  // The final checks

  /**
   * The final checks: a collision first, then the altar, each ending the
   * game; otherwise an ordinary turn that records the pre-move cell. Only
   * `gameOver` and `playerLastPos` change.
   */
  lemma EvaluateSummary(lvl: Level, s: State, oldPos: Position)
    ensures var e := Evaluate(lvl, s, oldPos);
      var hit := Collides(lvl, s.moves, s.mimicMoves, s.moveHistory, s.playerPos, oldPos);
      && e.state.(gameOver := s.gameOver, playerLastPos := s.playerLastPos) == s
      && Settled(e.outcome)
      && (e.outcome == Collided <==> hit)
      && (e.outcome == Won <==> !hit && s.playerPos == lvl.altar)
      && (e.outcome != Continue ==> e.state.gameOver && e.state.playerLastPos == s.playerLastPos)
      && (e.outcome == Continue ==> e.state.gameOver == s.gameOver && e.state.playerLastPos == oldPos)
  {
  }

  // ---------------------------------------------------------------------
  // The mimic step

  /**
   * The mimic step touches only the mimic's fields; it makes at most one
   * move, exactly when more than `mimicDelay` moves are made and the budget
   * is not spent, and otherwise changes nothing.
   */
  lemma MimicStepSummary(lvl: Level, s: State)
    ensures var r := MimicStep(lvl, s);
      && r.(mimicMoves := s.mimicMoves, mimicLastPos := s.mimicLastPos, mimicFacing := s.mimicFacing) == s
      && (r.mimicMoves == s.mimicMoves + 1 <==> s.moves > lvl.mimicDelay && s.mimicMoves < lvl.mimicMoveLimit)
      && (r.mimicMoves != s.mimicMoves + 1 ==> r == s)
  {
  }

  /**
   * One replay step on the state after the history push: either nothing
   * changes, or the mimic advances from history entry `mimicMoves` to the
   * next one, records the cell it left, and turns toward a new column.
   */
  lemma MimicStepRule(lvl: Level, s: State)
    requires |s.moveHistory| == s.moves + 1 && s.mimicMoves < s.moves
    ensures var r := MimicStep(lvl, s); var m := s.mimicMoves;
      if r.mimicMoves == m then r == s
      else
        && r.mimicMoves == m + 1
        && r == s.(mimicMoves := m + 1, mimicLastPos := Some(s.moveHistory[m]),
                   mimicFacing := FaceToward(s.moveHistory[m], s.moveHistory[m + 1], s.mimicFacing))
  {
    var m := s.mimicMoves;
    if MimicStep(lvl, s).mimicMoves != m {
      assert ReplayStep(m, s.moveHistory) == m;
      assert ReplayStep(m + 1, s.moveHistory) == m + 1;
    }
  }

  // ---------------------------------------------------------------------
  // The accepted part of a turn

  /**
   * An accepted move always reports something and never turns the
   * player; the player ends on the landing cell; a fall off the board is
   * reported as such and only ends the game; any other landing is pushed,
   * the mimic steps and the final checks run.
   */
  lemma CommitSummary(lvl: Level, s: State, p: Position)
    ensures var c := Commit(lvl, s, p); var landed := Landing(lvl, p);
      var fell := !IsLadder(lvl, p.row, p.col) && landed.row >= lvl.gridSize;
      && c.outcome != NoOp
      && c.state.playerPos == landed
      && c.state.playerFacing == s.playerFacing
      && (c.outcome == FellOut <==> fell)
      && (fell ==> c.state == s.(playerPos := landed, gameOver := true))
      && (!fell ==> c == Evaluate(lvl, MimicStep(lvl, Pushed(s, landed)), s.playerPos))
  {
    var landed := Landing(lvl, p);
    if !(!IsLadder(lvl, p.row, p.col) && landed.row >= lvl.gridSize) {
      var stepped := MimicStep(lvl, Pushed(s, landed));
      MimicStepSummary(lvl, Pushed(s, landed));
      EvaluateSummary(lvl, stepped, s.playerPos);
    }
  }

  /** On a cell of the board, the fall-out test of `movePlayer` is just "gravity left the board". */
  lemma FellExactly(lvl: Level, p: Position)
    requires InBounds(lvl, p)
    ensures (!IsLadder(lvl, p.row, p.col) && Landing(lvl, p).row >= lvl.gridSize)
        <==> Landing(lvl, p).row >= lvl.gridSize
  {
  }

  // ---------------------------------------------------------------------
  // A whole turn

  /** The three shapes of a turn: frozen, rejected, or accepted. */
  lemma TurnCases(lvl: Level, s: State, d: Direction)
    ensures var a := MoveAttempt(lvl, s.playerPos, s.playerFacing, d); var t := Turn(lvl, s, d);
      && (s.gameOver ==> t == TurnResult(s, NoOp))
      && (!s.gameOver && a.target.None? ==> t == TurnResult(s.(playerFacing := a.facing), NoOp))
      && (!s.gameOver && a.target.Some? ==> t == Commit(lvl, s.(playerFacing := a.facing), a.target.value))
  {
  }

  /** Once the game is over a turn reports nothing and changes nothing. */
  lemma GameOverFreezes(lvl: Level, s: State, d: Direction)
    requires s.gameOver
    ensures Turn(lvl, s, d) == TurnResult(s, NoOp)
  {
  }

  /** Once the game is over no sequence of inputs changes the state. */
  lemma {:induction false} GameOverIsFinal(lvl: Level, s: State, ds: seq<Direction>)
    requires s.gameOver
    ensures Run(lvl, s, ds) == s
    decreases |ds|
  {
    if ds != [] {
      GameOverFreezes(lvl, s, ds[0]);
      GameOverIsFinal(lvl, s, ds[1..]);
    }
  }

  /**
   * Vertical input: accepted exactly when the player stands on a ladder,
   * and the cell above or below is a ladder on the board and not an
   * obstacle; a rejected one changes nothing, an accepted one climbs
   * without falling, and neither touches the player's facing.
   */
  lemma VerticalMove(lvl: Level, s: State, d: Direction)
    requires !s.gameOver && (d == Up || d == Down)
    ensures var r := Turn(lvl, s, d); var dest := Neighbour(s.playerPos, d);
      && r.state.playerFacing == s.playerFacing
      && (r.outcome != NoOp <==>
            && IsLadder(lvl, s.playerPos.row, s.playerPos.col)
            && IsLadder(lvl, dest.row, dest.col)
            && InBounds(lvl, dest)
            && !IsObstacle(lvl, dest.row, dest.col))
      && (r.outcome == NoOp ==> r.state == s)
      && (r.outcome != NoOp ==> r.outcome != FellOut && r.state.playerPos == dest)
  {
    TurnCases(lvl, s, d);
    VerticalAttempt(lvl, s.playerPos, s.playerFacing, d);
    var a := MoveAttempt(lvl, s.playerPos, s.playerFacing, d);
    if a.target.Some? {
      CommitSummary(lvl, s.(playerFacing := a.facing), a.target.value);
    }
  }

  /**
   * Horizontal input always turns the player that way; it is rejected
   * exactly when the cell beside is off the board or an obstacle, and then
   * nothing else changes; otherwise the player lands where that cell settles.
   */
  lemma HorizontalMove(lvl: Level, s: State, d: Direction)
    requires !s.gameOver && (d == Left || d == Right)
    ensures var r := Turn(lvl, s, d); var dest := Neighbour(s.playerPos, d);
      && r.state.playerFacing == FacingOf(d)
      && (r.outcome == NoOp <==> !InBounds(lvl, dest) || IsObstacle(lvl, dest.row, dest.col))
      && (r.outcome == NoOp ==> r.state == s.(playerFacing := FacingOf(d)))
      && (r.outcome != NoOp ==> r.state.playerPos == Landing(lvl, dest))
  {
    TurnCases(lvl, s, d);
    HorizontalAttempt(lvl, s.playerPos, s.playerFacing, d);
    var a := MoveAttempt(lvl, s.playerPos, s.playerFacing, d);
    if a.target.Some? {
      CommitSummary(lvl, s.(playerFacing := a.facing), a.target.value);
    }
  }

  /**
   * A rejected move or a fall leaves the history and both counters alone;
   * a fall ends the game off the board; every other accepted move appends
   * the landing cell and counts one move. The history stays one longer
   * than the move count.
   */
  lemma HistoryAccounting(lvl: Level, s: State, d: Direction)
    ensures var r := Turn(lvl, s, d);
      && (r.outcome == NoOp || r.outcome == FellOut ==>
            && r.state.moveHistory == s.moveHistory
            && r.state.moves == s.moves
            && r.state.mimicMoves == s.mimicMoves)
      && (r.outcome == FellOut ==> r.state.gameOver && r.state.playerPos.row >= lvl.gridSize)
      && (Settled(r.outcome) ==>
            && r.state.moveHistory == s.moveHistory + [r.state.playerPos]
            && r.state.moves == s.moves + 1)
      && (|s.moveHistory| == s.moves + 1 ==> |r.state.moveHistory| == r.state.moves + 1)
  {
    TurnCases(lvl, s, d);
    var a := MoveAttempt(lvl, s.playerPos, s.playerFacing, d);
    if !s.gameOver && a.target.Some? {
      var faced := s.(playerFacing := a.facing);
      var landed := Landing(lvl, a.target.value);
      CommitSummary(lvl, faced, a.target.value);
      MimicStepSummary(lvl, Pushed(faced, landed));
      EvaluateSummary(lvl, MimicStep(lvl, Pushed(faced, landed)), faced.playerPos);
    }
  }

  /**
   * The terminal checks of an accepted move, in their fixed order: fall
   * out, then collision, then the altar. Each ends the game and keeps the
   * last position; only an ordinary turn records the pre-move position.
   */
  lemma OutcomeOrder(lvl: Level, s: State, d: Direction)
    requires !s.gameOver
    requires MoveAttempt(lvl, s.playerPos, s.playerFacing, d).target.Some?
    ensures var landed := Landing(lvl, MoveAttempt(lvl, s.playerPos, s.playerFacing, d).target.value);
      var r := Turn(lvl, s, d);
      var fell := landed.row >= lvl.gridSize;
      var hit := Collides(lvl, r.state.moves, r.state.mimicMoves, r.state.moveHistory, landed, s.playerPos);
      && r.state.playerPos == landed
      && (r.outcome == FellOut <==> fell)
      && (r.outcome == Collided <==> !fell && hit)
      && (r.outcome == Won <==> !fell && !hit && landed == lvl.altar)
      && (r.outcome == Continue <==> !fell && !hit && landed != lvl.altar)
      && (r.outcome != Continue ==> r.state.gameOver && r.state.playerLastPos == s.playerLastPos)
      && (r.outcome == Continue ==> !r.state.gameOver && r.state.playerLastPos == s.playerPos)
  {
    TurnCases(lvl, s, d);
    var a := MoveAttempt(lvl, s.playerPos, s.playerFacing, d);
    var p := a.target.value;
    var faced := s.(playerFacing := a.facing);
    var landed := Landing(lvl, p);
    AttemptTarget(lvl, s.playerPos, s.playerFacing, d);
    FellExactly(lvl, p);
    CommitSummary(lvl, faced, p);
    if landed.row < lvl.gridSize {
      var stepped := MimicStep(lvl, Pushed(faced, landed));
      MimicStepSummary(lvl, Pushed(faced, landed));
      EvaluateSummary(lvl, stepped, s.playerPos);
    }
  }

  /**
   * The mimic makes at most one move per turn, only on a turn that
   * appended to the history once more than `mimicDelay` moves are made,
   * and never beyond its budget.
   */
  lemma MimicCounter(lvl: Level, s: State, d: Direction)
    ensures var r := Turn(lvl, s, d);
      && (r.state.mimicMoves == s.mimicMoves || r.state.mimicMoves == s.mimicMoves + 1)
      && (r.state.mimicMoves == s.mimicMoves + 1 <==>
            Settled(r.outcome) && r.state.moves > lvl.mimicDelay && s.mimicMoves < lvl.mimicMoveLimit)
      && (s.mimicMoves <= lvl.mimicMoveLimit ==> r.state.mimicMoves <= lvl.mimicMoveLimit)
  {
    HistoryAccounting(lvl, s, d);
    TurnCases(lvl, s, d);
    var a := MoveAttempt(lvl, s.playerPos, s.playerFacing, d);
    if !s.gameOver && a.target.Some? {
      var faced := s.(playerFacing := a.facing);
      var landed := Landing(lvl, a.target.value);
      CommitSummary(lvl, faced, a.target.value);
      MimicStepSummary(lvl, Pushed(faced, landed));
      EvaluateSummary(lvl, MimicStep(lvl, Pushed(faced, landed)), faced.playerPos);
    }
  }

  // ---------------------------------------------------------------------
  // The invariant and the mimic's replay

  /**
   * In a consistent state the mimic is absent exactly before its delay and
   * otherwise stands on history entry `mimicMoves`, which is always in
   * range (so the getter's clamp never applies); its previous cell is the
   * entry before that, or entry 0.
   */
  lemma MimicReplay(lvl: Level, s: State)
    requires Inv(lvl, s)
    ensures s.mimicMoves < |s.moveHistory|
    ensures MimicPos(lvl, s.moves, s.mimicMoves, s.moveHistory).None? <==> s.moves < lvl.mimicDelay
    ensures s.moves >= lvl.mimicDelay ==>
      MimicPos(lvl, s.moves, s.mimicMoves, s.moveHistory) == Some(s.moveHistory[s.mimicMoves])
    ensures s.moves >= lvl.mimicDelay ==>
      PrevMimicPos(lvl, s.moves, s.mimicMoves, s.moveHistory)
        == Some(s.moveHistory[if s.mimicMoves == 0 then 0 else s.mimicMoves - 1])
  {
    assert ReplayStep(s.mimicMoves, s.moveHistory) == s.mimicMoves;
  }

  /** The mimic only ever stands on a cell the player settled on. */
  lemma MimicOnHistory(lvl: Level, s: State)
    requires Inv(lvl, s)
    requires MimicPos(lvl, s.moves, s.mimicMoves, s.moveHistory).Some?
    ensures MimicPos(lvl, s.moves, s.mimicMoves, s.moveHistory).value in s.moveHistory
  {
    MimicReplay(lvl, s);
  }

  /**
   * In a consistent state a collision is exactly: past the delay, and the
   * player lands on the mimic's replay cell, or lands on the one before it
   * while leaving the mimic's cell (the swap).
   */
  lemma CollisionExact(lvl: Level, s: State, newPos: Position, oldPos: Position)
    requires Inv(lvl, s)
    ensures s.mimicMoves < |s.moveHistory|
    ensures var h := s.moveHistory; var m := s.mimicMoves; var prev := if m == 0 then 0 else m - 1;
      Collides(lvl, s.moves, s.mimicMoves, s.moveHistory, newPos, oldPos) <==>
        s.moves >= lvl.mimicDelay && (newPos == h[m] || (newPos == h[prev] && oldPos == h[m]))
  {
    MimicReplay(lvl, s);
    CollidesViaGetter(lvl, s.moves, s.mimicMoves, s.moveHistory, newPos, oldPos);
  }

  /** Every turn keeps the store's invariant. */
  lemma TurnPreservesInv(lvl: Level, s: State, d: Direction)
    requires Inv(lvl, s)
    ensures Inv(lvl, Turn(lvl, s, d).state)
  {
    var r := Turn(lvl, s, d);
    HistoryAccounting(lvl, s, d);
    MimicCounter(lvl, s, d);
    if Settled(r.outcome) {
      assert r.state.moveHistory[..|s.moveHistory|] == s.moveHistory;
    }
  }

  /** Every sequence of inputs keeps the store's invariant. */
  lemma {:induction false} RunPreservesInv(lvl: Level, s: State, ds: seq<Direction>)
    requires Inv(lvl, s)
    ensures Inv(lvl, Run(lvl, s, ds))
    decreases |ds|
  {
    if ds != [] {
      TurnPreservesInv(lvl, s, ds[0]);
      RunPreservesInv(lvl, Turn(lvl, s, ds[0]).state, ds[1..]);
    }
  }

  /**
   * From a fresh or reset store, after any inputs, the mimic's budget is
   * respected and its replay index is in range.
   */
  lemma ReachableBounds(lvl: Level, ds: seq<Direction>)
    ensures var s := Run(lvl, Initial(lvl), ds);
      && |s.moveHistory| == s.moves + 1
      && s.mimicMoves <= lvl.mimicMoveLimit
      && s.mimicMoves < |s.moveHistory|
  {
    RunPreservesInv(lvl, Initial(lvl), ds);
  }

  /**
   * A turn keeps the mimic exactly `Lag` steps into the history: it steps
   * on every settled turn past the delay until its budget is spent, and
   * rejected moves and falls count neither a move nor a mimic step.
   */
  lemma TurnKeepsLag(lvl: Level, s: State, d: Direction)
    requires Inv(lvl, s) && s.mimicMoves == Lag(lvl, s.moves)
    ensures var r := Turn(lvl, s, d).state;
      Inv(lvl, r) && r.mimicMoves == Lag(lvl, r.moves)
  {
    TurnPreservesInv(lvl, s, d);
    HistoryAccounting(lvl, s, d);
    MimicCounter(lvl, s, d);
    LagStep(lvl, s.moves);
  }

  /** Every sequence of inputs keeps the mimic exactly `Lag` steps in. */
  lemma {:induction false} RunKeepsLag(lvl: Level, s: State, ds: seq<Direction>)
    requires Inv(lvl, s) && s.mimicMoves == Lag(lvl, s.moves)
    ensures var r := Run(lvl, s, ds);
      Inv(lvl, r) && r.mimicMoves == Lag(lvl, r.moves)
    decreases |ds|
  {
    if ds != [] {
      TurnKeepsLag(lvl, s, ds[0]);
      RunKeepsLag(lvl, Turn(lvl, s, ds[0]).state, ds[1..]);
    }
  }

  /**
   * From a fresh or reset store, after any inputs, the mimic has made
   * exactly `Lag` steps, and once visible it stands on history entry
   * `min(mimicMoves, moves - mimicDelay)`: `mimicDelay` moves behind the
   * player until its budget is spent, then at its last replayed cell.
   */
  lemma ReachableMimic(lvl: Level, ds: seq<Direction>)
    ensures var s := Run(lvl, Initial(lvl), ds);
      && s.mimicMoves == Lag(lvl, s.moves)
      && s.mimicMoves < |s.moveHistory|
      && (s.moves >= lvl.mimicDelay ==>
            var i := if s.mimicMoves <= s.moves - lvl.mimicDelay then s.mimicMoves else s.moves - lvl.mimicDelay;
            MimicPos(lvl, s.moves, s.mimicMoves, s.moveHistory) == Some(s.moveHistory[i]))
  {
    var s := Run(lvl, Initial(lvl), ds);
    RunKeepsLag(lvl, Initial(lvl), ds);
    MimicReplay(lvl, s);
  }

  /**
   * The mimic's step within a turn: when it moves, its last position is
   * its cell before the step (history entry `mimicMoves` of the old
   * state) and it turns toward the new cell only if the column changed;
   * when it does not move, its facing and last position stay.
   */
  lemma MimicFacingRule(lvl: Level, s: State, d: Direction)
    requires Inv(lvl, s)
    ensures Inv(lvl, Turn(lvl, s, d).state)
    ensures var r := Turn(lvl, s, d).state;
      if r.mimicMoves == s.mimicMoves then
        r.mimicFacing == s.mimicFacing && r.mimicLastPos == s.mimicLastPos
      else
        && r.mimicLastPos == Some(r.moveHistory[s.mimicMoves])
        && r.mimicFacing == FaceToward(r.moveHistory[s.mimicMoves], r.moveHistory[r.mimicMoves], s.mimicFacing)
  {
    TurnPreservesInv(lvl, s, d);
    TurnCases(lvl, s, d);
    var a := MoveAttempt(lvl, s.playerPos, s.playerFacing, d);
    if !s.gameOver && a.target.Some? {
      CommitMimicRule(lvl, s.(playerFacing := a.facing), a.target.value);
    }
  }

  /** `MimicFacingRule` for the accepted part of a turn. */
  lemma CommitMimicRule(lvl: Level, s: State, p: Position)
    requires |s.moveHistory| == s.moves + 1
    requires s.mimicMoves > 0 ==> s.mimicMoves + lvl.mimicDelay <= s.moves
    ensures var r := Commit(lvl, s, p).state;
      r.mimicMoves != s.mimicMoves ==> r.mimicMoves < |r.moveHistory|
    ensures var r := Commit(lvl, s, p).state;
      if r.mimicMoves == s.mimicMoves then
        r.mimicFacing == s.mimicFacing && r.mimicLastPos == s.mimicLastPos
      else
        && r.mimicLastPos == Some(r.moveHistory[s.mimicMoves])
        && r.mimicFacing == FaceToward(r.moveHistory[s.mimicMoves], r.moveHistory[r.mimicMoves], s.mimicFacing)
  {
    var landed := Landing(lvl, p);
    CommitSummary(lvl, s, p);
    if !(!IsLadder(lvl, p.row, p.col) && landed.row >= lvl.gridSize) {
      MimicStepRule(lvl, Pushed(s, landed));
      EvaluateSummary(lvl, MimicStep(lvl, Pushed(s, landed)), s.playerPos);
    }
  }

  /**
   * The collision rule as the turn applies it: a settled move ends in a
   * collision exactly when, past the delay, the player lands on the mimic
   * after its step, or swaps cells with it.
   */
  lemma TurnCollision(lvl: Level, s: State, d: Direction)
    requires Inv(lvl, s)
    requires Settled(Turn(lvl, s, d).outcome)
    ensures Inv(lvl, Turn(lvl, s, d).state)
    ensures var r := Turn(lvl, s, d).state; var h := r.moveHistory;
      var m := r.mimicMoves; var prev := if m == 0 then 0 else m - 1;
      Turn(lvl, s, d).outcome == Collided <==>
        r.moves >= lvl.mimicDelay
        && (r.playerPos == h[m] || (r.playerPos == h[prev] && s.playerPos == h[m]))
  {
    TurnPreservesInv(lvl, s, d);
    TurnCases(lvl, s, d);
    var r := Turn(lvl, s, d);
    assert MoveAttempt(lvl, s.playerPos, s.playerFacing, d).target.Some?;
    OutcomeOrder(lvl, s, d);
    CollisionExact(lvl, r.state, r.state.playerPos, s.playerPos);
  }
}
