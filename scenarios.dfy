/**
 * Concrete plays of the store, worked out by the verifier from the
 * reference semantics `TurnRules.Turn`.
 */
module Scenarios {
  import opened GameTypes
  import opened Grid
  import opened Mimic
  import opened TurnRules

  /**
   * An accepted move onto a supporting cell that does not step the mimic,
   * does not collide with it and does not reach the altar is an ordinary turn.
   */
  lemma QuietStep(lvl: Level, s: State, d: Direction, p: Position)
    requires !s.gameOver
    requires MoveAttempt(lvl, s.playerPos, s.playerFacing, d).target == Some(p)
    requires IsSupport(lvl, p.row, p.col)
    requires s.moves + 1 <= lvl.mimicDelay || s.mimicMoves >= lvl.mimicMoveLimit
    requires !Collides(lvl, s.moves + 1, s.mimicMoves, s.moveHistory + [p], p, s.playerPos)
    requires p != lvl.altar
    ensures Turn(lvl, s, d) == TurnResult(
      s.(playerFacing := MoveAttempt(lvl, s.playerPos, s.playerFacing, d).facing,
         playerPos := p, moveHistory := s.moveHistory + [p], moves := s.moves + 1,
         playerLastPos := s.playerPos),
      Continue)
  {
  }

  /** The state after an ordinary turn onto `p` with the given facing. */
  function Advance(s: State, p: Position, facing: Facing): State
  {
    s.(playerFacing := facing, playerPos := p, moveHistory := s.moveHistory + [p],
       moves := s.moves + 1, playerLastPos := s.playerPos)
  }

  // Positions along the bottom row and up the ladder in column 1 of the shipped level.
  const Cell60: Position := Position(6, 0)
  const Cell61: Position := Position(6, 1)
  const Cell62: Position := Position(6, 2)
  const Cell63: Position := Position(6, 3)
  const Cell51: Position := Position(5, 1)
  const Cell41: Position := Position(4, 1)

  const Start: State := Initial(DefaultLevel)
  const WalkedRight: State := Advance(Start, Cell61, FacingRight)

  lemma StepOntoLadder()
    ensures Turn(DefaultLevel, Start, Right) == TurnResult(WalkedRight, Continue)
  {
    assert IsLadder(DefaultLevel, 6, 1) by { assert DefaultLevel.ladders[1] == Cell61; }
    QuietStep(DefaultLevel, Start, Right, Cell61);
  }

  const Walked2: State := Advance(WalkedRight, Cell62, FacingRight)
  const Walked3: State := Advance(Walked2, Cell63, FacingRight)

  lemma WalkStep2()
    ensures Turn(DefaultLevel, WalkedRight, Right) == TurnResult(Walked2, Continue)
  {
    assert IsGround(DefaultLevel, 6, 2) by { assert DefaultLevel.ground[2] == Cell62; }
    QuietStep(DefaultLevel, WalkedRight, Right, Cell62);
  }

  lemma WalkStep3()
    ensures Turn(DefaultLevel, Walked2, Right) == TurnResult(Walked3, Continue)
  {
    assert IsGround(DefaultLevel, 6, 3) by { assert DefaultLevel.ground[3] == Cell63; }
    assert Walked2.moveHistory == [Cell60, Cell61, Cell62];
    QuietStep(DefaultLevel, Walked2, Right, Cell63);
  }

  /** On the shipped level, three steps right along the bottom row are ordinary turns. */
  lemma WalkAlongGround()
    ensures var t1 := Turn(DefaultLevel, Start, Right);
      var t2 := Turn(DefaultLevel, t1.state, Right);
      var t3 := Turn(DefaultLevel, t2.state, Right);
      && t1.outcome == Continue && t2.outcome == Continue && t3.outcome == Continue
      && t3.state.playerPos == Position(6, 3)
      && t3.state.moves == 3 && t3.state.mimicMoves == 0
      && t3.state.moveHistory == [Position(6, 0), Position(6, 1), Position(6, 2), Position(6, 3)]
  {
    StepOntoLadder();
    WalkStep2();
    WalkStep3();
    WalkedHistory();
  }

  /** The history after the three steps right. */
  lemma WalkedHistory()
    ensures Walked3.moveHistory == [Cell60, Cell61, Cell62, Cell63]
  {
    assert Start.moveHistory == [Cell60];
    assert Walked2.moveHistory == [Cell60, Cell61, Cell62];
  }

  const Back1: State := Advance(WalkedRight, Cell60, FacingLeft)
  const Forth2: State := Advance(Back1, Cell61, FacingRight)

  lemma SwapStep2()
    ensures Turn(DefaultLevel, WalkedRight, Left) == TurnResult(Back1, Continue)
  {
    assert IsGround(DefaultLevel, 6, 0) by { assert DefaultLevel.ground[0] == Cell60; }
    QuietStep(DefaultLevel, WalkedRight, Left, Cell60);
  }

  lemma SwapStep3()
    ensures Turn(DefaultLevel, Back1, Right) == TurnResult(Forth2, Continue)
  {
    assert IsLadder(DefaultLevel, 6, 1) by { assert DefaultLevel.ladders[1] == Cell61; }
    assert Back1.moveHistory == [Cell60, Cell61, Cell60];
    QuietStep(DefaultLevel, Back1, Right, Cell61);
  }

  /** The fourth turn: the mimic wakes and steps right while the player steps left. */
  const Swapped: State := Forth2.(
    playerFacing := FacingLeft, playerPos := Cell60,
    moveHistory := Forth2.moveHistory + [Cell60], moves := 4,
    mimicMoves := 1, mimicLastPos := Some(Cell60), mimicFacing := FacingRight,
    gameOver := true)

  lemma SwapStep4()
    ensures Turn(DefaultLevel, Forth2, Left) == TurnResult(Swapped, Collided)
    ensures MimicPos(DefaultLevel, Swapped.moves, Swapped.mimicMoves, Swapped.moveHistory) == Some(Cell61)
  {
    var lvl := DefaultLevel;
    assert IsGround(lvl, 6, 0) by { assert lvl.ground[0] == Cell60; }
    assert Forth2.moveHistory == [Cell60, Cell61, Cell60, Cell61];
    assert MoveAttempt(lvl, Cell61, FacingRight, Left) == Attempt(FacingLeft, Some(Cell60));
    var pushed := Forth2.(playerFacing := FacingLeft, playerPos := Cell60,
                          moveHistory := Forth2.moveHistory + [Cell60], moves := 4);
    assert MimicPos(lvl, 4, 0, pushed.moveHistory) == Some(Cell60);
    assert MimicPos(lvl, 4, 1, pushed.moveHistory) == Some(Cell61);
    assert MimicStep(lvl, pushed) == Swapped.(gameOver := false);
    assert Collides(lvl, 4, 1, pushed.moveHistory, Cell60, Cell61);
  }

  /**
   * On the shipped level, right, left, right, left: on the fourth turn the
   * mimic steps from (6,0) to (6,1) while the player steps from (6,1) to
   * (6,0). They never share a cell, yet the swap is a collision.
   */
  lemma SwapIsCollision()
    ensures var s3 := Run(DefaultLevel, Start, [Right, Left, Right]);
      var t4 := Turn(DefaultLevel, s3, Left);
      && s3.playerPos == Position(6, 1) && !s3.gameOver
      && t4.state.playerPos == Position(6, 0)
      && MimicPos(DefaultLevel, t4.state.moves, t4.state.mimicMoves, t4.state.moveHistory) == Some(Position(6, 1))
      && t4.outcome == Collided && t4.state.gameOver
      && t4.state.mimicFacing == FacingRight && t4.state.mimicLastPos == Some(Position(6, 0))
  {
    SwapRun();
    SwapStep4();
  }

  lemma SwapRun()
    ensures Run(DefaultLevel, Start, [Right, Left, Right]) == Forth2
  {
    StepOntoLadder();
    SwapStep2();
    SwapStep3();
    assert [Right, Left, Right][1..] == [Left, Right];
    assert [Left, Right][1..] == [Right];
    assert [Right][1..] == [];
  }

  /** A level with one ledge at (2,5) and nothing under column 6. */
  const Ledge: Level := Level(
    gridSize := 7, mimicDelay := 3, mimicMoveLimit := 4,
    obstacles := [], altar := Position(0, 0),
    ground := [Position(2, 5)], ladders := [], spawn := Position(2, 5)
  )

  /**
   * Stepping off the ledge into an empty column falls out of the grid:
   * the player ends at row 7, the game is over, nothing is recorded, and
   * a further input reports nothing and changes nothing.
   */
  lemma FallOutOfGrid()
    ensures var t1 := Turn(Ledge, Initial(Ledge), Right);
      && t1.outcome == FellOut
      && t1.state.playerPos == Position(7, 6)
      && t1.state.gameOver
      && t1.state.moves == 0 && t1.state.moveHistory == [Position(2, 5)]
      && Turn(Ledge, t1.state, Left) == TurnResult(t1.state, NoOp)
  {
    assert !IsSupport(Ledge, 2, 6);
    assert Fall(Ledge, 2, 6) == 7 by {
      assert !IsSupport(Ledge, 3, 6) && !IsSupport(Ledge, 4, 6);
      assert !IsSupport(Ledge, 5, 6) && !IsSupport(Ledge, 6, 6);
      assert Fall(Ledge, 6, 6) == 7;
    }
  }

  /** A floor along row 6 with the altar at (6,2). */
  const Corridor: Level := Level(
    gridSize := 7, mimicDelay := 3, mimicMoveLimit := 4,
    obstacles := [], altar := Position(6, 2),
    ground := [Position(6, 0), Position(6, 1), Position(6, 2), Position(6, 3)],
    ladders := [], spawn := Position(6, 0)
  )

  /** Two steps right reach the altar: the second turn is a win and ends the game. */
  lemma ReachAltar()
    ensures var t1 := Turn(Corridor, Initial(Corridor), Right);
      var t2 := Turn(Corridor, t1.state, Right);
      && t1.outcome == Continue
      && t2.outcome == Won && t2.state.gameOver
      && t2.state.playerPos == Corridor.altar
  {
    assert IsGround(Corridor, 6, 1) by { assert Corridor.ground[1] == Position(6, 1); }
    assert IsGround(Corridor, 6, 2) by { assert Corridor.ground[2] == Position(6, 2); }
  }

  /** The altar on the spawn cell, and a mimic that follows after one move. */
  const HomeAltar: Level := Level(
    gridSize := 7, mimicDelay := 1, mimicMoveLimit := 4,
    obstacles := [], altar := Position(6, 0),
    ground := [Position(6, 0), Position(6, 1)],
    ladders := [], spawn := Position(6, 0)
  )

  /**
   * Right, then back left onto the altar while the mimic steps right: the
   * turn is both a swap with the mimic and a landing on the altar, and the
   * collision, checked first, decides it.
   */
  lemma CollisionBeatsAltar()
    ensures var t1 := Turn(HomeAltar, Initial(HomeAltar), Right);
      var t2 := Turn(HomeAltar, t1.state, Left);
      && t1.outcome == Continue
      && t2.state.playerPos == HomeAltar.altar
      && t2.outcome == Collided
  {
    assert IsGround(HomeAltar, 6, 0) by { assert HomeAltar.ground[0] == Position(6, 0); }
    assert IsGround(HomeAltar, 6, 1) by { assert HomeAltar.ground[1] == Position(6, 1); }
  }

  const Climbed1: State := Advance(WalkedRight, Cell51, FacingRight)
  const Climbed2: State := Advance(Climbed1, Cell41, FacingRight)

  lemma ClimbStep1()
    ensures Turn(DefaultLevel, WalkedRight, Up) == TurnResult(Climbed1, Continue)
  {
    assert IsLadder(DefaultLevel, 6, 1) by { assert DefaultLevel.ladders[1] == Cell61; }
    assert IsLadder(DefaultLevel, 5, 1) by { assert DefaultLevel.ladders[0] == Cell51; }
    QuietStep(DefaultLevel, WalkedRight, Up, Cell51);
  }

  lemma ClimbStep2()
    ensures Turn(DefaultLevel, Climbed1, Up) == TurnResult(Climbed2, Continue)
  {
    assert IsLadder(DefaultLevel, 5, 1) by { assert DefaultLevel.ladders[0] == Cell51; }
    assert IsLadder(DefaultLevel, 4, 1) by { assert DefaultLevel.ladders[8] == Cell41; }
    assert Climbed1.moveHistory == [Cell60, Cell61, Cell51];
    QuietStep(DefaultLevel, Climbed1, Up, Cell41);
  }

  lemma ClimbRefused()
    ensures Turn(DefaultLevel, Climbed2, Up) == TurnResult(Climbed2, NoOp)
  {
    assert IsLadder(DefaultLevel, 4, 1) by { assert DefaultLevel.ladders[8] == Cell41; }
    assert !IsLadder(DefaultLevel, 3, 1);
  }

  /**
   * On the shipped level the ladder at column 1 is climbed from (6,1) to
   * (4,1); climbing on to (3,1), which is not a ladder, is refused and
   * changes nothing, not even the facing.
   */
  lemma ClimbLadder()
    ensures var s := Run(DefaultLevel, Start, [Right, Up, Up]);
      && s.playerPos == Position(4, 1) && s.moves == 3
      && Turn(DefaultLevel, s, Up) == TurnResult(s, NoOp)
  {
    StepOntoLadder();
    ClimbStep1();
    ClimbStep2();
    ClimbRefused();
    assert Run(DefaultLevel, Start, [Right, Up, Up]) == Climbed2 by {
      assert [Right, Up, Up][1..] == [Up, Up];
      assert [Up, Up][1..] == [Up];
      assert [Up][1..] == [];
    }
  }
}
