# Holo Doppelganger game store — a verified model

This models the turn engine of the Holo Doppelganger grid puzzle. That engine is the Pinia store `useGameStore` in `stores/game.ts`.

A player walks and climbs on a square grid of ground, ladder and obstacle cells. Gravity settles the player after every move that does not end on a ladder. A *mimic* replays the player's recorded path: it starts after `MIMIC_DELAY` moves and makes at most `MIMIC_MOVE_LIMIT` steps. A turn ends in one of four ways:

- the player falls off the board (a loss);
- the player meets the mimic, or swaps cells with it (a loss);
- the player reaches the altar (a win);
- or it is an ordinary turn.

The modules:

- `GameTypes` holds the positions, directions, facings and outcomes. It also holds `Level`, the level's constants, and `DefaultLevel`, the values the store ships with.
- `Grid` holds the `isGround` and `isLadder` searches and the obstacle search. `Fall` and `Settle` are the gravity scan of `applyGravity` as functions.
- `Mimic` holds the `mimicPos` getter (`MimicPos`), the previous replay cell used by `checkCollision` (`PrevMimicPos`), and `checkCollision` itself (`Collides`).
- `TurnRules` holds the store's fields as one value (`State`) and the invariant the store keeps (`Inv`). `Turn` is one call of `movePlayer` as a function; it is built from its phases, `MoveAttempt`, `Commit`, `Pushed`, `MimicStep` and `Evaluate`.
- `TurnProperties` holds the rules of a turn and the invariants of a run, proved about `Turn`.
- `Store` holds the class `GameStore`. It has the store's fields and its actions `movePlayer`, `resetGame` and `applyGravity`, with the same loops and in-place updates as the source. Each action is proved to have exactly the effect of the reference functions.
- `Scenarios` holds concrete plays worked out by the verifier: walking along the ground, climbing the ladder in column 1, the swap collision, falling off a ledge, reaching the altar, and a collision that takes precedence over the altar.

What `movePlayer` returns is modelled as `Outcome`:

- `NoOp` stands for a bare `return`;
- `FellOut`, `Collided`, `Won` and `Continue` stand for the four message strings.

## Model

| member | source | states |
|---|---|---|
| Grid.SearchIsMembership | stores/game.ts:121-127 | The row/column search that `isGround`, `isLadder` and the obstacle test perform holds exactly when the cell is in the list; `IsGround`, `IsLadder` and `IsObstacle` are that membership. |
| Grid.Fall | stores/game.ts:137-144 | The downward scan gives either `GRID_SIZE` or the first supporting row strictly below the start. For a start on the board it lies below the start; no cell it passed over is a support. |
| Grid.Settle | stores/game.ts:129-145 | `applyGravity` keeps the column. A supported cell stays put. The result is a support or row `GRID_SIZE`, and a moved cell is never below row `GRID_SIZE`. For a start at or above row `GRID_SIZE`, the result is never above the start and every cell from the start to the result is unsupported. |
| Grid.SettleIdempotent | stores/game.ts:129-145 | Applying gravity twice gives the same cell as applying it once. |
| Grid.FallsOutExactly | stores/game.ts:62-67 | Starting on the board, gravity ends off the board exactly when no cell of the column, from the start down to the last row, is a support. |
| Mimic.ReplayStep | stores/game.ts:149 | The clamped replay index never exceeds `mimicMoves`. It is 0 on an empty history and a valid history index otherwise. It equals `mimicMoves` when that is in range, and is otherwise the last index. |
| Mimic.MimicPos | stores/game.ts:166-170 | The getter is absent exactly before the delay or on an empty history. Otherwise it is the history entry at the clamped replay index. |
| Mimic.PrevMimicPos | stores/game.ts:153-154 | The previous replay cell is present exactly when the mimic is. It is history entry "replay index minus one", or the mimic's own cell when the replay index is 0. |
| Mimic.Lag | stores/game.ts:72-74 | The number of mimic steps after a given number of moves: 0 up to `MIMIC_DELAY`, then `moves - MIMIC_DELAY`, capped at `MIMIC_MOVE_LIMIT`. |
| Mimic.LagStep | stores/game.ts:72-74 | One more move advances the lag by one exactly when it is past the delay and the budget is not spent. |
| Mimic.Collides | stores/game.ts:147-148 | No collision is possible before the delay. |
| Mimic.CollidesViaGetter | stores/game.ts:147-162 | `checkCollision` is true exactly when the getter gives a cell and either the new cell is the mimic's cell, or the new cell is the previous replay cell while the old cell is the mimic's cell (the swap). |
| TurnRules.Initial | stores/game.ts:4-29 | The initial state satisfies the store's invariant. The game is running, both counters are 0, and the history holds only the spawn cell. |
| TurnProperties.AttemptTarget | stores/game.ts:58-59 | An accepted target is the neighbouring cell in the input's direction. It is on the board and is not an obstacle. |
| TurnProperties.VerticalAttempt | stores/game.ts:48-59 | Up or down keeps the facing. It is accepted exactly when the current cell and the cell above or below are both ladders and that cell is on the board and not an obstacle; the target is then that cell. |
| TurnProperties.HorizontalAttempt | stores/game.ts:40-47 | Left or right always sets the facing to that side. It is accepted exactly when the cell beside is on the board and not an obstacle. |
| TurnProperties.EvaluateSummary | stores/game.ts:83-93 | Only `gameOver` and `playerLastPos` change. The turn is `Collided` exactly on a collision and `Won` exactly on the altar without a collision; both end the game and keep `playerLastPos`. `Continue` records the pre-move cell. |
| TurnProperties.MimicStepSummary | stores/game.ts:72-81 | Only the mimic's fields change. The mimic advances by exactly one exactly when `moves > MIMIC_DELAY` and the budget is not spent; otherwise nothing changes. |
| TurnProperties.MimicStepRule | stores/game.ts:72-81 | When the mimic advances, `mimicLastPos` becomes history entry `mimicMoves`, and the mimic turns toward the next entry's column, keeping its facing if the column is the same. |
| TurnProperties.CommitSummary | stores/game.ts:61-93 | An accepted move never reports `NoOp` and never changes the facing. The player ends on the landing cell. `FellOut` is reported exactly on a fall off the board, which changes only the position and `gameOver`. Any other move is pushed onto the history, then the mimic steps, then the final checks run. |
| TurnProperties.FellExactly | stores/game.ts:62-64 | For a target on the board, the fall test of `movePlayer` amounts to "the landing row is off the board": a ladder target stays on the board. |
| TurnProperties.TurnCases | stores/game.ts:33-59 | A turn either is frozen (game over), or is rejected with only the facing updated, or commits the accepted target. |
| TurnProperties.GameOverFreezes | stores/game.ts:34 | Once the game is over a turn reports nothing and changes nothing. |
| TurnProperties.GameOverIsFinal | stores/game.ts:34 | Once the game is over, no sequence of inputs changes the state. |
| TurnProperties.VerticalMove | stores/game.ts:48-68 | Vertical input never changes the facing. It has an effect exactly under the ladder rule; a rejected one changes nothing. An accepted one lands on the cell above or below and never falls out. |
| TurnProperties.HorizontalMove | stores/game.ts:40-47 | Horizontal input sets the facing even when the move is rejected. It is rejected exactly when the cell beside is off the board or an obstacle, and then nothing else changes. Otherwise the player lands where that cell settles. |
| TurnProperties.HistoryAccounting | stores/game.ts:61-71 | A rejection or a fall leaves the history and both counters unchanged, and a fall ends the game off the board. Every other accepted move appends the landing cell and counts one move. The history stays one entry longer than `moves`. |
| TurnProperties.OutcomeOrder | stores/game.ts:61-93 | The checks run in fixed order: fall out, then collision, then altar, then ordinary turn. Each outcome holds exactly when its condition holds and the earlier ones do not. Terminal outcomes keep `playerLastPos`; only `Continue` sets it to the pre-move cell. |
| TurnProperties.MimicCounter | stores/game.ts:72-74 | `mimicMoves` grows by 0 or 1 per turn. It grows exactly on a settled turn with `moves > MIMIC_DELAY` and the budget not spent, so it never passes `MIMIC_MOVE_LIMIT`. |
| TurnProperties.MimicReplay | stores/game.ts:166-170 | In a consistent state the getter's clamp never applies. The mimic is absent exactly before the delay, and otherwise stands on history entry `mimicMoves`; its previous cell is the entry before that, or entry 0. |
| TurnProperties.MimicOnHistory | stores/game.ts:166-170 | The mimic only ever stands on a cell the player settled on. |
| TurnProperties.CollisionExact | stores/game.ts:147-162 | In a consistent state there is a collision exactly when, past the delay, the player lands on history entry `mimicMoves`, or lands on the entry before it while leaving entry `mimicMoves`. |
| TurnProperties.TurnPreservesInv | stores/game.ts:33-107 | Every turn keeps the store's invariant. |
| TurnProperties.RunPreservesInv | stores/game.ts:33-107 | Every sequence of turns keeps the store's invariant. |
| TurnProperties.ReachableBounds | stores/game.ts:26-28 | From the initial state, after any inputs, the history has `moves + 1` entries, `mimicMoves` is within its budget, and the replay index is in range. |
| TurnProperties.TurnKeepsLag | stores/game.ts:61-81 | A turn from a consistent state where `mimicMoves` equals `Lag(moves)` keeps both. |
| TurnProperties.RunKeepsLag | stores/game.ts:33-107 | Every sequence of turns keeps the invariant and `mimicMoves == Lag(moves)`. |
| TurnProperties.ReachableMimic | stores/game.ts:166-170 | From the initial state, after any inputs, `mimicMoves == Lag(moves)`. Once visible, the mimic stands on history entry `min(mimicMoves, moves - MIMIC_DELAY)`: exactly `MIMIC_DELAY` moves behind the player until its budget is spent. |
| TurnProperties.MimicFacingRule | stores/game.ts:72-81 | A mimic that does not move keeps its facing and last position. One that moves records history entry `mimicMoves` as its last position and faces the new entry's column, unchanged on the same column. |
| TurnProperties.CommitMimicRule | stores/game.ts:61-81 | The same rule for the accepted part of a turn. |
| TurnProperties.TurnCollision | stores/game.ts:83-86 | A settled turn is `Collided` exactly when, past the delay, the player lands on the mimic's cell after its step, or swaps cells with it. |
| Store.GameStore.constructor | stores/game.ts:4-29 | A new store has the level's constants and exactly the initial state, which satisfies the invariant and has `mimicMoves == Lag(moves)`. |
| Store.GameStore.ResetGame | stores/game.ts:109-119 | `resetGame` restores exactly the initial state, the invariant and `mimicMoves == Lag(moves)`. |
| Store.GameStore.ApplyGravity | stores/game.ts:129-145 | The loop computes `Settle`: the same column, on a support or at row `GRID_SIZE`. |
| Store.GameStore.StepMimic | stores/game.ts:72-81 | The in-place mimic update has exactly the effect of `MimicStep`. |
| Store.GameStore.MovePlayer | stores/game.ts:33-107 | `movePlayer` changes the store exactly as `Turn` does, reports `Turn`'s outcome, and keeps the invariant and `mimicMoves == Lag(moves)`. |
| Store.GameStore.AimMove | stores/game.ts:36-59 | The bounds, obstacle and ladder checks give `MoveAttempt`'s target and facing; only `playerFacing` changes. |
| Store.GameStore.CommitMove | stores/game.ts:61-106 | Gravity, the fall-out loss, the history push, the mimic step and the final checks have exactly the effect and report of `Commit`. |
| Store.GameStore.Conclude | stores/game.ts:83-106 | The collision, altar and ordinary-turn endings have exactly the effect and report of `Evaluate`. |
| Scenarios.QuietStep | stores/game.ts:61-106 | An accepted move onto a support is an ordinary turn when it does not step the mimic, does not collide with it and does not reach the altar. It appends the cell, counts the move and records the pre-move cell. |
| Scenarios.WalkAlongGround | stores/game.ts:11-15 | On the shipped level, three steps right from the spawn are ordinary turns ending at (6,3), with history (6,0),(6,1),(6,2),(6,3). |
| Scenarios.SwapIsCollision | stores/game.ts:156-161 | On the shipped level, right, left, right, left: on the fourth turn the mimic steps from (6,0) to (6,1) facing right while the player steps from (6,1) to (6,0), and that swap is a collision. |
| Scenarios.FallOutOfGrid | stores/game.ts:62-67 | Stepping off a ledge into an empty column lands at row `GRID_SIZE`. The game ends with `FellOut`, nothing is recorded, and a further input is a no-op. |
| Scenarios.ReachAltar | stores/game.ts:88-91 | Reaching the altar cell is a win and ends the game. |
| Scenarios.CollisionBeatsAltar | stores/game.ts:83-91 | When a turn both swaps with the mimic and lands on the altar, the collision decides it. |
| Scenarios.ClimbLadder | stores/game.ts:48-51 | On the shipped level the ladder in column 1 is climbed from (6,1) to (4,1). The further climb to (3,1), which is not a ladder, is refused and changes nothing. |

The parts of the model:

- **Level constants.** The constants `GRID_SIZE`, `MIMIC_DELAY`, `MIMIC_MOVE_LIMIT`, `obstacles`, `altarPos`, `groundCells` and `ladderCells` (lines 5-20) never change. The model moves them out of the state into the immutable `Level` value. The spawn cell (6,0), written out in the initial state and in `resetGame`, becomes `Level.spawn`. `DefaultLevel` holds the shipped values, so every lemma holds for any level and the scenarios run on the shipped one.
- **Mimic facing.** The source compares the getter's value after `mimicMoves++` with its value before. That earlier value is the one it then stores in `mimicLastPos`. The model follows this code; it does not follow a rule that compares against the old `mimicLastPos`.
- **Consistent state.** `Inv` is what the store keeps between calls. It is proved to hold from the initial state onward. `GameStore.MovePlayer` keeps it by `TurnPreservesInv`.

## Left out

- Doors and buttons: this store has none, so they are not part of this model. They appear only in type declarations (`types/level.ts`, `types/tLevel.ts`) and in other drafts of the store.
- Loading and validating a level: this store has no load operation and works on its built-in constants. The model takes any `Level` value and does not require it to be well formed.
- `CELL_SIZE` (line 8): a rendering constant that no rule reads.
- The `console.log` of the state (lines 95-104): output only.
- The message strings returned by `movePlayer`: modelled as the `Outcome` values, not as text.
- Pinia's reactivity and the `useGameStore` wiring: the store is modelled as a plain object whose actions run one at a time.
- `nuxt.config.ts` and `types/tGame.ts`: configuration and type declarations with no behaviour.
- Mimic.Collides: its own contract states only the delay guard. Its exact meaning is stated by `Mimic.CollidesViaGetter` and, in a consistent state, by `TurnProperties.CollisionExact`.
