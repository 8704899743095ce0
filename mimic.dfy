/**
 * The mimic as a function of the store's counters and move history: the
 * `mimicPos` getter and the `checkCollision` test.
 */
module Mimic {
  import opened GameTypes

  /**
   * The replay index both the getter and `checkCollision` compute:
   * `mimicMoves`, clamped to the last index of the history.
   */
  function ReplayStep(mimicMoves: nat, history: seq<Position>): (r: nat)
    ensures r <= mimicMoves
    ensures history != [] ==> r < |history|
    ensures history == [] ==> r == 0
    ensures mimicMoves < |history| ==> r == mimicMoves
    ensures r < mimicMoves ==> r == 0 == |history| || r == |history| - 1
  {
    var last := if |history| - 1 < 0 then 0 else |history| - 1;
    if mimicMoves < last then mimicMoves else last
  }

  /**
   * How many replay steps the mimic has made after `moves` player moves:
   * none up to the delay, then one per move, until the budget is spent.
   * The mimic thus trails the player by exactly `mimicDelay` moves while
   * it has budget left.
   */
  function Lag(lvl: Level, moves: nat): (r: nat)
    ensures r <= lvl.mimicMoveLimit
    ensures moves <= lvl.mimicDelay ==> r == 0
    ensures moves > lvl.mimicDelay ==> r + lvl.mimicDelay <= moves
    ensures r < lvl.mimicMoveLimit ==> r == if moves <= lvl.mimicDelay then 0 else moves - lvl.mimicDelay
  {
    if moves <= lvl.mimicDelay then 0
    else if moves - lvl.mimicDelay < lvl.mimicMoveLimit then moves - lvl.mimicDelay
    else lvl.mimicMoveLimit
  }

  /** One more move advances the lag by one, exactly while it is past the delay and within budget. */
  lemma LagStep(lvl: Level, moves: nat)
    ensures Lag(lvl, moves + 1) ==
      if moves + 1 > lvl.mimicDelay && Lag(lvl, moves) < lvl.mimicMoveLimit then Lag(lvl, moves) + 1
      else Lag(lvl, moves)
  {
  }

  /**
   * The `mimicPos` getter: absent while fewer than `mimicDelay` moves have
   * been made, otherwise the history entry at the replay index (absent
   * only if that index falls outside an empty history).
   */
  function MimicPos(lvl: Level, moves: nat, mimicMoves: nat, history: seq<Position>): (r: Option<Position>)
    ensures r.None? <==> moves < lvl.mimicDelay || history == []
    ensures r.Some? ==> r.value == history[ReplayStep(mimicMoves, history)]
  {
    if moves < lvl.mimicDelay then None
    else
      var step := ReplayStep(mimicMoves, history);
      if step < |history| then Some(history[step]) else None
  }

  /**
   * The cell the mimic occupied one replay step earlier, clamped at index
   * 0; present exactly when the mimic is.
   */
  function PrevMimicPos(lvl: Level, moves: nat, mimicMoves: nat, history: seq<Position>): (r: Option<Position>)
    ensures r.Some? <==> MimicPos(lvl, moves, mimicMoves, history).Some?
    ensures r.Some? && ReplayStep(mimicMoves, history) == 0 ==> r == MimicPos(lvl, moves, mimicMoves, history)
    ensures r.Some? && ReplayStep(mimicMoves, history) > 0 ==>
              r.value == history[ReplayStep(mimicMoves, history) - 1]
  {
    match MimicPos(lvl, moves, mimicMoves, history)
    case None => None
    case Some(m) =>
      var step := ReplayStep(mimicMoves, history);
      var prev := if step - 1 < 0 then 0 else step - 1;
      if prev < |history| then Some(history[prev]) else Some(m)
  }

  /**
   * `checkCollision(newPlayerPos, oldPlayerPos)`: the player lands on the
   * mimic, or the two swapped cells (the player lands where the mimic was
   * one replay step earlier while leaving the mimic's current cell).
   */
  predicate Collides(lvl: Level, moves: nat, mimicMoves: nat, history: seq<Position>,
                     newPos: Position, oldPos: Position): (r: bool)
    ensures moves < lvl.mimicDelay ==> !r
  {
    if moves < lvl.mimicDelay then false
    else
      var step := ReplayStep(mimicMoves, history);
      if step >= |history| then false
      else
        var m := history[step];
        var prevStep := if step - 1 < 0 then 0 else step - 1;
        var prev := if prevStep < |history| then history[prevStep] else m;
        (newPos.row == m.row && newPos.col == m.col)
        || (newPos.row == prev.row && newPos.col == prev.col && oldPos.row == m.row && oldPos.col == m.col)
  }

  /**
   * `checkCollision` recomputes the getter's mimic cell: it holds exactly
   * when the mimic is present and the player lands on it, or lands on its
   * previous cell while leaving its current one.
   */
  lemma CollidesViaGetter(lvl: Level, moves: nat, mimicMoves: nat, history: seq<Position>,
                          newPos: Position, oldPos: Position)
    ensures Collides(lvl, moves, mimicMoves, history, newPos, oldPos) <==>
      match MimicPos(lvl, moves, mimicMoves, history)
      case None => false
      case Some(m) =>
        newPos == m || (Some(newPos) == PrevMimicPos(lvl, moves, mimicMoves, history) && oldPos == m)
  {
  }
}
