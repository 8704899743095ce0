/**
 * Cell classification and gravity: which cells are ground, ladder or
 * obstacle, and where a position comes to rest when it falls.
 */
module Grid {
  import opened GameTypes

  // The store's `.some()` searches compare row and column; positions are
  // values, so each search is membership of the cell in its list.

  /** `isGround`: the cell is one of the ground cells. */
  predicate IsGround(lvl: Level, row: int, col: int)
  {
    Position(row, col) in lvl.ground
  }

  /** `isLadder`: the cell is one of the ladder cells. */
  predicate IsLadder(lvl: Level, row: int, col: int)
  {
    Position(row, col) in lvl.ladders
  }

  /** The obstacle search of `movePlayer` and `applyGravity`. */
  predicate IsObstacle(lvl: Level, row: int, col: int)
  {
    Position(row, col) in lvl.obstacles
  }

  /**
   * The searches match a cell's row and column field by field; for
   * positions that is exactly membership of the cell in the list.
   */
  lemma SearchIsMembership(cells: seq<Position>, row: int, col: int)
    ensures Position(row, col) in cells
        <==> exists i :: 0 <= i < |cells| && cells[i].row == row && cells[i].col == col
  {
    if exists i :: 0 <= i < |cells| && cells[i].row == row && cells[i].col == col {
      var i :| 0 <= i < |cells| && cells[i].row == row && cells[i].col == col;
      assert cells[i] == Position(row, col);
    }
  }

  /** A cell that stops a fall: ground, obstacle or ladder. */
  predicate IsSupport(lvl: Level, row: int, col: int)
  {
    IsGround(lvl, row, col) || IsObstacle(lvl, row, col) || IsLadder(lvl, row, col)
  }

  /** Inside the `gridSize` by `gridSize` board. */
  predicate InBounds(lvl: Level, p: Position)
  {
    0 <= p.row < lvl.gridSize && 0 <= p.col < lvl.gridSize
  }

  /**
   * The downward scan of `applyGravity`, started from `row`: the first row
   * below `row` whose cell in column `col` is a support, or `gridSize`
   * when the scan runs off the bottom of the board.
   */
  function Fall(lvl: Level, row: int, col: int): (r: int)
    decreases lvl.gridSize - row
    ensures r == lvl.gridSize || (row < r < lvl.gridSize && IsSupport(lvl, r, col))
    ensures row < lvl.gridSize ==> row < r
    ensures forall k :: row < k < r ==> !IsSupport(lvl, k, col)
  {
    if row >= lvl.gridSize - 1 then lvl.gridSize
    else if IsSupport(lvl, row + 1, col) then row + 1
    else Fall(lvl, row + 1, col)
  }

  /**
   * `applyGravity` as a value: a supported position stays put; otherwise
   * the position drops, in its own column, to the first support below it,
   * or to row `gridSize` (off the board) when there is none.
   */
  function Settle(lvl: Level, pos: Position): (r: Position)
    ensures r.col == pos.col
    ensures IsSupport(lvl, pos.row, pos.col) ==> r == pos
    ensures IsSupport(lvl, r.row, r.col) || r.row == lvl.gridSize
    ensures pos.row <= lvl.gridSize ==> pos.row <= r.row
    ensures r != pos ==> r.row <= lvl.gridSize
    ensures forall k :: pos.row <= k < r.row ==> !IsSupport(lvl, k, pos.col)
  {
    if IsSupport(lvl, pos.row, pos.col) then pos
    else Position(Fall(lvl, pos.row, pos.col), pos.col)
  }

  /** Settling is idempotent: a settled position settles to itself. */
  lemma SettleIdempotent(lvl: Level, pos: Position)
    ensures Settle(lvl, Settle(lvl, pos)) == Settle(lvl, pos)
  {
    var r := Settle(lvl, pos);
    if !IsSupport(lvl, r.row, r.col) {
      assert r.row == lvl.gridSize;
      assert Fall(lvl, r.row, r.col) == lvl.gridSize;
    }
  }

  /**
   * From a row on the board, a position falls out exactly when no cell of
   * its column, from its own row to the bottom row, is a support.
   */
  lemma FallsOutExactly(lvl: Level, pos: Position)
    requires pos.row < lvl.gridSize
    ensures Settle(lvl, pos).row >= lvl.gridSize
        <==> forall k :: pos.row <= k < lvl.gridSize ==> !IsSupport(lvl, k, pos.col)
  {
    var r := Settle(lvl, pos);
    if r.row < lvl.gridSize {
      assert IsSupport(lvl, r.row, pos.col) && pos.row <= r.row;
    }
  }
}
