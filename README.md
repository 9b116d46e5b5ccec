# Tic-tac-toe `Game`: a verified model

This project models the game logic of a React tic-tac-toe component
(`src/index.js`). It covers four parts:

- the winner calculation `calculateWinner`;
- the state of the `Game` component: the move history, the current step,
  whose turn it is and the display order of the move list;
- the component's three state transitions `handleClick`, `jumpTo` and
  `handleChange`;
- what `Game.render` derives from that state: the status line, the
  descriptor of each history entry and the order of the move list.

It is made of three modules.

- `Rules` (`rules.dfy`) defines the values of the game:
  - a `Cell` is `Empty`, `X` or `O`, where `Empty` stands for the `null` of a fresh board;
  - a `Board` is exactly nine cells;
  - `Lines` holds the eight index triples in the source's order.

  The for loop of `calculateWinner` is the method `CalculateWinner`. It is
  proved equal to the recursive scan `WinnerOf`. The lemmas state what the
  scan means: a winner is reported exactly when some line holds three equal
  marks, and the line reported is the first such line.
- `GameLogic` (`game_logic.dfy`) holds the history entry (a board snapshot
  plus the cell just played) and the four state fields as a value, `GameState`.
  The transitions are pure functions on that value: `Play`, `Jump` and
  `ToggleOrder`. The class `Game` holds the same four fields as mutable
  fields. Its methods `HandleClick`, `JumpTo` and `HandleChange` update them in
  place, as the `setState` calls do. Each method is proved to agree with its
  pure transition. `HandleClick` copies the current board into a fresh array
  and marks the cell on the copy, as `slice()` does, so earlier snapshots are
  never touched. The invariant `ValidState` holds in every reachable state:
  - the history starts with the empty board;
  - every later snapshot adds one mark, X after an even number of moves and O
    after an odd one, in an empty cell of a board without a winner;
  - the step points into the history;
  - `xIsNext` is the parity of the step.

  Every transition preserves it.
- `GameView` (`game_view.dfy`) models the status line (`Winner`, `Draw` or
  `NextPlayer`). It also models the column/row label and the button text of
  each history entry, and the move list in ascending or reversed order. Two
  complete example games are proved: X wins on the top row, and a full
  board ends in a draw.

Two behaviours of the source are worth noting:
- The draw test only looks at the step number (`stepNumber === 9`). The model
  proves that in a reachable state this means the board is full (`DrawMeansFullBoard`).
- Clicks 0, 4, 1, 2, 7 from the start (X first) do not give X the top row:
  cell 2 receives an O. A top-row win for X needs, for example, 0, 3, 1, 4, 2
  (`XWinsTopRow`).

`GameLogic.Current` (the snapshot `history[stepNumber]`, src/index.js:87) and
`GameLogic.Accepts` (the acceptance test of src/index.js:60) are predicates
and helpers without contracts of their own; what they mean is stated by the
contracts of `Play`, `StatusOf` and the lemmas that use them.

## Model

| member | source | states |
|---|---|---|
| `Rules.MarkFor` | src/index.js:63 | the mark placed is never empty, and it is X exactly when `xIsNext` |
| `Rules.CalculateWinner` | src/index.js:137-155 | the loop over the eight lines returns exactly what the first-match scan `WinnerOf` reports |
| `Rules.WinnerFromCorrect` | src/index.js:148-154 | scanning from line `k` reports a winner iff some line at or after `k` is won; the reported value is the mark and the triple of the first such line; otherwise `{winner: null, lines: []}` |
| `Rules.CalculateWinnerCorrect` | src/index.js:137-154 | a winner is reported iff one of the 8 triples holds three equal non-empty marks; the first won triple in the order rows, columns, diagonals is the one reported, with its mark; with no won triple the result is no winner and no line |
| `Rules.WinnerHoldsItsLine` | src/index.js:149-151 | a reported winner is X or O, the reported line is one of the eight triples, and all three of its cells hold the winner |
| `Rules.EmptyBoardHasNoWinner` | src/index.js:154 | the all-empty board yields no winner and no line |
| `GameLogic.Initial` | src/index.js:45-53 | the initial history is the single entry with the empty board and no played cell; the step is 0, X moves first and the list is ascending |
| `GameLogic.Play` | src/index.js:56-72 | a click on an occupied cell or after a win leaves the whole state unchanged; an accepted click keeps the first `stepNumber + 1` snapshots and appends exactly one entry; that entry records cell `i` holding the mover's mark and every other cell as before; the step advances by one, the turn flips and the order flag is kept |
| `GameLogic.Jump` | src/index.js:74-79 | the step becomes `step` and `xIsNext` becomes `step % 2 == 0`; history and order flag are kept |
| `GameLogic.ToggleOrder` | src/index.js:81-83 | the order flag flips and history, step and turn are kept |
| `GameLogic.InitialIsValid` | src/index.js:45-53 | the initial state satisfies the state invariant |
| `GameLogic.PlayPreservesValid` | src/index.js:56-72 | accepted and rejected clicks keep the state invariant (well-formed history, step in range, `xIsNext` equal to step parity) |
| `GameLogic.JumpPreservesValid` | src/index.js:74-79 | a jump to an existing step keeps the state invariant |
| `GameLogic.ToggleOrderPreservesValid` | src/index.js:81-83 | toggling the order keeps the state invariant |
| `GameLogic.ToggleOrderTwice` | src/index.js:81-83 | toggling twice restores the original state |
| `GameLogic.JumpToCurrentStepIsNoOp` | src/index.js:74-79 | in a reachable state, jumping to the current step changes nothing |
| `GameLogic.JumpThenPlayPrunes` | src/index.js:57-71 | after a jump back to step `k`, an accepted click discards every snapshot after `k`; it appends board `k` with X (even `k`) or O (odd `k`) in the clicked cell, sets the step to `k + 1` and passes the turn |
| `GameLogic.PlaySequenceCounts` | src/index.js:57-71 | from the end of the history, `N` accepted clicks advance the step by `N`, grow the history by `N`, keep the earlier snapshots and flip the turn `N` times |
| `GameLogic.PlaysFromStart` | src/index.js:45-71 | after `N` accepted clicks from the start the step is `N` and the history has `N + 1` entries, the first being the empty board |
| `GameLogic.SnapshotMarks` | src/index.js:59-70 | snapshot `k` of a reachable history holds `(k+1)/2` X marks, `k/2` O marks and `9 - k` empty cells |
| `GameLogic.HistoryHoldsAtMostTenBoards` | src/index.js:56-72 | a reachable history has at most 10 entries, so the step never exceeds 9 |
| `GameLogic.NoMoveAfterWin` | src/index.js:60-62 | no snapshot before the last one of a reachable history has a winner |
| `GameLogic.Game.constructor` | src/index.js:43-54 | the new component holds the initial state and satisfies the invariant |
| `GameLogic.Game.HandleClick` | src/index.js:56-72 | the fields change exactly as `Play` says: unchanged on rejection; otherwise the truncated history plus the marked copy, the step plus one, the turn negated and the order flag kept |
| `GameLogic.Game.JumpTo` | src/index.js:74-79 | the step becomes `step`, `xIsNext` becomes `step % 2 == 0`, and history and order flag are unchanged |
| `GameLogic.Game.HandleChange` | src/index.js:81-83 | `historyIsAsc` is negated and nothing else changes |
| `GameView.StatusOf` | src/index.js:105-112 | the status is `Winner` exactly when the current board has a winner, carrying that mark; otherwise it is `Draw` exactly when the step is 9; otherwise it is `NextPlayer` with X or O according to `xIsNext` |
| `GameView.WonGameIgnoresClicks` | src/index.js:60-62 | while the status names a winner every click leaves the state unchanged |
| `GameView.DrawMeansFullBoard` | src/index.js:108-109 | in a reachable state a `Draw` status means all nine cells are marked and every click is ignored |
| `GameView.NextPlayerCanMove` | src/index.js:110-111 | in a reachable state a `NextPlayer` status means some click is accepted and every accepted click places exactly the announced mark; the announced mark is X on even steps and O on odd ones |
| `GameView.LabelOf` | src/index.js:93-94 | an entry without a played cell has no label; for cell `s` in 0..8 the column `s % 3 + 1` and row `s / 3 + 1` are both in 1..3 and together give `s` back |
| `GameView.DescriptionOf` | src/index.js:90-92 | entry 0 is "Go to game start", every other entry `n` is "Go to move #n" |
| `GameView.Moves` | src/index.js:89-103 | one descriptor per history entry, in history order, each carrying its index, its button text and that entry's label |
| `GameView.OrderedMoves` | src/index.js:104 | when ascending the shown list is the history's descriptor list itself; the descending case is stated by `OrderedMovesCorrect` |
| `GameView.LabelsOfReachableHistory` | src/index.js:93-94 | in a reachable history only entry 0 lacks a label, and the label of entry `k` names the one cell that entry `k` changed |
| `GameView.OrderedMovesCorrect` | src/index.js:104 | the shown list has position `k` holding entry `k` when ascending and entry `n - 1 - k` otherwise, and is a permutation of the history's descriptors |
| `GameView.ToggleOrderReversesList` | src/index.js:81-83 | toggling the order shows exactly the reverse of the current list |
| `GameView.XWinsTopRow` | src/index.js:56-72 | clicks 0, 3, 1, 4, 2 from the start are all accepted and end at step 5 with winner X on line [0, 1, 2] and status "Winner: X" |
| `GameView.FullBoardDraw` | src/index.js:105-112 | clicks 0, 1, 2, 3, 5, 4, 6, 8, 7 from the start are all accepted and end at step 9 with status "Draw" |

## Left out

- Rendering: `Square`, `Board` and the JSX built in `Game.render` (buttons, list items, the bold class of the current move, the highlight of the winning cells) only build view elements.
- The `ReactDOM.render` mount call, the Material-UI `Switch` and the CSS import are host and library code.
- `setState` is modelled as a synchronous replacement of the listed fields; React's batching and scheduling are not modelled.
- Strings are not modelled literally. The status, labels and button texts are datatypes carrying the mark or numbers that the source concatenates into text. JavaScript truthiness of a cell is modelled as "not `Empty`".
- The centralized-store (reducer) variant of the game is not part of this model.
- GameLogic.Game.HandleClick: requires `i < 9`. The only caller, `Board.renderSquare`, passes `row * 3 + col` in 0..8; an index outside the board, which in JavaScript would grow the array, is not modelled.
- GameLogic.Game.JumpTo: requires `step < |history|`. The source does no bounds check, but its only callers, the move-list buttons, pass existing history indices; an out-of-range step is not modelled.
- GameLogic.Game.HandleChange: requires the state invariant `Valid()`, as the other two methods do. It holds from the constructor on and every method keeps it.
