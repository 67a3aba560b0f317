# Knucklebones board (astragalus) in Dafny

A model of `KnucklebonesBoard`, the board of the dice game Knucklebones from
the astragalus library, with proofs about it.

A board has two grids: board 0 for the protagonist and board 1 for the
antagonist. Each grid has three columns of three cells. A cell holds 0 when it
is empty and a die face otherwise. The board also holds `turn`, with
`True` meaning the protagonist is to move, and a stack of the moves made.
The operations are:

- the legal moves: the columns of the mover's grid that still have room.
- the end-of-game test.
- `push`: place a die in the lowest empty cell of a column, cancel every equal
  die in the opposing column with the same index, pass the turn, and record
  the move.
- `pop`: undo the last move.
- `scores`: per grid, the sum over its columns of `value * count * count` over
  the distinct values of each column.
- `load`: build a board from a flat state.

The project has four modules:

- `Scoring` (scoring.dfy) defines the score of one column in two ways and
  proves them equal:
  - the counter's sum over distinct values (`CounterScore`);
  - the doc comment's die-by-die reading (`DieScore`).

  It also proves that the score ignores the order of the cells, gives its
  bounds, and checks the documented examples.
- `Rules` (rules.dfy) holds the rules as functions on the 18 cells, flattened
  with cell `r` of column `c` of board `b` at `b * 9 + c * 3 + r`, which is
  the order `load` reads them in. It defines:
  - the legal moves and the end of game;
  - the cell updates of a push (`PushCells`) and of an undo (`PopCells`);
  - the cancelled positions (`Matches`);
  - the refill loop of the undo (`FillZeros`).
- `History` (history.dfy) states what an undo can rely on. `Contents` is the
  turn plus the multiset of each column. A move stack is valid when a
  `Chain` of contents explains it, one entry before each move.
  - An undo gives back the contents a move started from.
  - An undo never fails on a stacked move: it always finds the die and
    enough zeros.
  - Push followed by pop gives back the scores, the legal moves and the
    end-of-game verdict. It does not always give back the cells themselves.
- `Game` (game.dfy) is the board as a `class`:
  - an `array<int>` of 18 cells updated in place;
  - `turn` and the move stack `moves`;
  - a ghost `history`.

  Its methods are proved against the functions of `Rules`. The class
  invariant `Valid()` says the history explains the move stack, so a chain
  of pushes and pops keeps `Valid()`.

Three points where the code and its comments disagree. The model follows the
code in the first two and the documentation in the third:

- Starting player: the comment beside the starting position says the
  antagonist starts. The constructor sets `turn` to the protagonist
  (astragalus/game.py:72), so `Game.Board.constructor` does the same.
- What `pop` restores: its doc comment promises the previous board position.
  The code zeroes the first cell holding the die and refills the lowest zeros
  of the opposing column. That gives back what each column holds, not
  always where. `History.PopDoesNotRestoreCells` exhibits the difference and
  `History.PushThenPopRestoresContents` proves what does hold.
- End of game: the doc comment says the game is over when either board is
  full. The code's test holds on every board (see "## Findings"). The as-written
  test is `Rules.IsGameOverAsWritten`. The class method
  `Game.Board.IsGameOver` uses the documented test, `Rules.IsGameOver`.

## Model

| member | source | states |
|---|---|---|
| Rules.BoardOf | astragalus/game.py:86 | the mover's grid is one of the two boards, board 0 exactly when the protagonist is to move (also lines 76 and 114) |
| Rules.Opponent | astragalus/game.py:87 | the opposing grid is a board other than the mover's (also line 115) |
| Rules.OpponentIsNext | astragalus/game.py:86-87 | the opposing board is `(b + 1) % 2`, differs from the mover's board, and opposing twice gives the mover's board back |
| Rules.CellIndexEnumerates | astragalus/game.py:170-175 | visiting boards, then columns, then cells with index `b * 9 + c * 3 + r` visits 0..9n-1 in order, each position once; for two boards exactly 0..17, as tests/test_astragalus.py expects |
| Rules.FirstIndex | astragalus/game.py:91 | `list.index`: the position found holds the value and no earlier position does |
| Rules.Matches | astragalus/game.py:96-98 | the cancelled positions are ascending, each holds the die, and every position holding the die is among them |
| Rules.MatchesCount | astragalus/game.py:96-98 | there is one cancelled position per copy of the die in the opposing column |
| Rules.CancelledBy | astragalus/game.py:96-98 | the positions a push records: `Matches` of the opposing column with the same index, for the die |
| Rules.Cancel | astragalus/game.py:101-102 | after cancellation each cell that held the die is 0 and every other cell is unchanged |
| Rules.CancelMultiset | astragalus/game.py:101-102 | cancellation removes every copy of the die from the column's multiset and adds as many zeros |
| Rules.FillZeros | astragalus/game.py:125-126 | the refill loop as a function: `k` times, the lowest 0 of the column becomes the die; for a die other than 0 it needs at least `k` zeros, as `index(0)` raises otherwise (see "## Left out" for a die of 0), and it keeps the column's length |
| Rules.FillZerosSnoc | astragalus/game.py:125-126 | each round of the refill loop finds a 0 while rounds remain and writes the die over the lowest 0 |
| Rules.FillZerosMultiset | astragalus/game.py:125-126 | `k` rounds of the refill take `k` zeros out of the column and put `k` copies of the die in |
| Rules.LegalMoves | astragalus/game.py:74-77 | the legal moves are ascending, and a column `x` is one of them exactly when `x` is in 1..3 and column `x` of the mover's grid holds a 0 |
| Rules.NoLegalMovesIffFull | astragalus/game.py:74-81 | a player has no legal move exactly when that player's grid has no 0 in any column |
| Rules.GridFullCells | astragalus/game.py:79-81 | a grid has no 0 in any column exactly when none of its nine cells is 0 |
| Rules.IsGameOver | astragalus/game.py:79-81 | the documented test: the game is over exactly when all nine cells of board 0, or all nine cells of board 1, hold a die |
| Rules.GameOverIffNoLegalMoves | astragalus/game.py:74-81 | the game is over exactly when the protagonist or the antagonist has no legal move |
| Rules.IsGameOverAsWritten | astragalus/game.py:81 | the test as the code writes it: some grid has every one of its column lists non-empty |
| Rules.ColumnsNonEmpty | astragalus/game.py:81 | `all(board)` over a grid's list of three column lists: every column list is non-empty |
| Rules.IsGameOverAsWrittenAlwaysTrue | astragalus/game.py:81 | the test as written, `any(all(board))` over lists of columns, holds of every state, while the documented test is false on the empty board |
| Rules.GridScore | astragalus/game.py:133-142 | a grid's score: the sum of the scores of its three columns |
| Rules.GridScoreBounds | astragalus/game.py:128-143 | with every cell in 0..6, a grid scores between 0 and 162 |
| Rules.CanPush | astragalus/game.py:85-91 | what push needs in order not to raise: the column is in 1..3 and the mover's column holds a 0 |
| Rules.PushCells | astragalus/game.py:85-102 | the cells after a push: the mover's column with its lowest 0 set to the die, then the opposing column with the same index with every copy of the die set to 0; its properties are in `Rules.PushPlacesLowest` and `Rules.PushCancelsAllMatches` |
| Rules.CanPop | astragalus/game.py:110-126 | what pop needs in order not to raise: the column is in 1..3, the mover's column holds the die, and, for a die other than 0, the opposing column holds a 0 per cancelled position (see "## Left out" for a die of 0) |
| Rules.PopCells | astragalus/game.py:114-126 | the cells after undoing a move while `turn` is to move, so that the move was made by `!turn`: the first cell of the mover's column holding the die set to 0, then `FillZeros` of the opposing column once per cancelled position; its properties are in `History.PopUndoesStep` and `History.PopDoesNotRestoreCells` |
| Rules.PushPlacesLowest | astragalus/game.py:85-91 | push writes the die exactly into the lowest 0 of the mover's column, leaves that column's other cells alone, and leaves the mover's other columns unchanged |
| Rules.PushCancelsAllMatches | astragalus/game.py:93-102 | push turns every cell of the opposing column that held the die into 0, all at once, and leaves its other cells alone; the recorded positions are exactly those cells; the opposing grid's other columns are unchanged |
| Rules.PushKeepsRange | astragalus/game.py:83-106 | a push of a die face keeps every cell in 0..6 |
| Rules.PopKeepsRange | astragalus/game.py:108-126 | an undo keeps every cell in 0..6 |
| History.AbsPush | astragalus/game.py:83-106 | a push is a step of the contents: the mover's column trades one 0 for the die, the opposing column trades every copy of the die for a 0, the turn passes, and one position is recorded per cancelled copy |
| History.StepAllowsPop | astragalus/game.py:117-126 | after a step, the undo finds the die in the mover's column and at least one 0 per cancelled position in the opposing column, so neither `index` call fails |
| History.PopUndoesStep | astragalus/game.py:108-126 | undoing a step gives back the contents it started from: the turn and the multiset of every column |
| History.PushExtendsChain | astragalus/game.py:83-106 | a push on a board whose move stack is explained by a history leaves a board explained by that history extended with the contents before the push |
| History.ChainAllowsPop | astragalus/game.py:108-126 | on a board whose move stack is explained by a history, the last move can be undone |
| History.PopShortensChain | astragalus/game.py:108-126 | undoing the last move of an explained stack gives back the contents before it and leaves the shorter stack explained |
| History.PushThenPopRestoresContents | astragalus/game.py:83-126 | push followed by pop can always undo, and gives back the turn and the multiset of every column |
| History.SameContentsSameOutcome | astragalus/game.py:74-143 | states with the same contents have the same scores, the same legal moves and the same end-of-game verdict |
| History.PushThenPopRestoresOutcome | astragalus/game.py:74-143 | push followed by pop gives back both scores, the legal moves and the end-of-game verdict |
| History.PopDoesNotRestoreCells | astragalus/game.py:108-126 | with the protagonist's first column `[4, 0, 0]` and no 4 opposite, pushing 4 and popping leaves `[0, 4, 0]`, not the starting cells |
| Scoring.CounterScore | astragalus/game.py:136-141 | the code's column score: `value * count * count` summed over the distinct values of the column, with counts from its multiset |
| Scoring.DieScore | astragalus/game.py:129-131 | the doc comment's column score: over every die, its value times the number of dice of that value in the column |
| Scoring.Distinct | astragalus/game.py:139 | the counter's keys: exactly the values of the column, with no repeats |
| Scoring.CounterScoreIsDieScore | astragalus/game.py:128-143 | the counter's sum of `value * count * count` equals the doc comment's sum, over every die, of its value times the number of dice of that value in the column |
| Scoring.ScoreIsOrderFree | astragalus/game.py:128-143 | a column's score, in both readings, is the same for any order of its cells |
| Scoring.ColumnScoreBounds | astragalus/game.py:128-143 | a three-cell column with cells in 0..6 scores between 0 and 54 |
| Scoring.ScoreExamples | astragalus/game.py:129-131 | 1-2-3 scores 6 and 4-1-4 scores 17, as documented; an empty column scores 0 |
| Game.Board.constructor | astragalus/game.py:65-72 | a fresh board has every cell 0, the protagonist to move, no moves, and is valid |
| Game.Board.Load | astragalus/game.py:165-177 | a loaded board holds entry `b * 9 + c * 3 + r` of the state in cell `(b, c, r)` and the turn `state[-1] != 0`, has no moves, and is valid |
| Game.Board.GenerateLegalMoves | astragalus/game.py:74-77 | the board's legal moves are ascending and are exactly the columns of the mover's grid holding a 0 |
| Game.Board.IsGameOver | astragalus/game.py:79-81 | the documented test `Rules.IsGameOver`, not the always-true code (see "## Findings"): the board's game is over exactly when one of the players has no legal move |
| Game.Board.SetFirst | astragalus/game.py:91 | the first cell of a column holding a value is overwritten and nothing else changes |
| Game.Board.CancelMatches | astragalus/game.py:96-102 | the loop zeroes exactly the matching cells of the opposing column and returns their positions |
| Game.Board.Refill | astragalus/game.py:123-126 | the loop writes the die over the lowest 0 of the opposing column once per cancelled position, and changes nothing else |
| Game.Board.Place | astragalus/game.py:85-102 | the cells after the placement and cancellation are `PushCells` of the cells before, and the returned positions are the cancelled ones |
| Game.Board.Record | astragalus/game.py:104-106 | the turn flips, exactly one record is appended, and the board stays valid |
| Game.Board.Push | astragalus/game.py:83-106 | push leaves the cells `PushCells` describes, flips the turn, appends one record holding the column, the die and the cancelled positions, and keeps the board valid |
| Game.Board.Unplace | astragalus/game.py:114-126 | the cells after lifting the die and refilling are `PopCells` of the cells before |
| Game.Board.Unrecord | astragalus/game.py:110-112 | the last record is dropped, the turn flips back, and the board stays valid with the contents from before the undone move |
| Game.Board.Pop | astragalus/game.py:108-126 | on a valid board with a move, pop never fails, leaves the cells `PopCells` describes, drops the last record, flips the turn back, keeps the board valid, and gives back the contents from before that move |
| Game.Board.ColumnScore | astragalus/game.py:136-141 | the counter sum of one column equals its per-die score |
| Game.Board.BoardScore | astragalus/game.py:133-142 | the loop over a grid's columns sums to that grid's score |
| Game.Board.Scores | astragalus/game.py:128-143 | the scores are `[score of board 0, score of board 1]` |

## Left out

- `KnucklebonesGame` (astragalus/game.py:36-61) is left out. It is a thin
  wrapper over the board, and its `make_move`, `undo_move` and `copy` call
  members that do not exist.
- `state()` (astragalus/game.py:145-163) is left out. Its comprehension copies
  the nested lists, and `float` of a list raises, so no working serializer
  exists to pair with `load`.
- Game.Board.Load: the entries of the state are integers in the model.
  - The code applies `int` to each cell entry and `bool` to the last entry of
    whatever sequence it is given; floating point is not modelled.
  - A string state is not modelled. `bool` of any one-character string is
    true, `'0'` included.
  - A state shorter than 18 entries makes the code raise `IndexError`. The
    model requires at least 18.
- Game.Board.Push:
  - The model requires `column` in 1..3. The code also accepts `column` in
    -2..0, which Python's negative indexing maps to columns 1, 2 and 3. It
    raises `IndexError` above 3.
  - The model requires the column to still hold a 0. Otherwise `index(0)`
    raises `ValueError`.
  - Raised exceptions are modelled as preconditions.
- Game.Board.Push: a record is the datatype `Move(column, roll, cancelled)`
  rather than the list `[column, dice_roll, *cancelled_positions]`. The two
  carry the same information.
- Game.Board.Push does not check that the die is in 1..6, and neither does the
  code. The range lemmas take it as a hypothesis.
- Rules.FillZeros and Rules.CanPop require at least one 0 in the opposing
  column per cancelled position. For a die of 0 the code needs only one 0:
  each round then rewrites the same lowest 0, so `[0, 3, 3]` with two rounds
  completes and is left unchanged. The model does not cover that case. The
  stronger requirement does hold at every pop of a stacked move
  (`History.ChainAllowsPop`): a push of 0 records one position per 0 of the
  opposing column.
- Game.Board.Pop: on an empty move stack `list.pop` raises `IndexError`. This
  is modelled as a precondition, `|moves| > 0`.
- The board's cells are one flat array of 18 rather than nested lists. The
  nested lists are never shared, so in-place updates and aliasing are the same.
- `collections.Counter` is not modelled as a library. Its behaviour is
  written out:
  - its keys are `Scoring.Distinct`, in order of first appearance;
  - its counts are the multiset of the column.
- The player-name constants and literals (astragalus/game.py:11-12) are for
  display only and are not modelled.
- The LON layout comments (astragalus/game.py:14-33) are not modelled.
- setup.py is packaging and I/O, and is not part of this model.
- The test's helper `relative_positon_to_raw_board_position` is not part of
  this model. Only the layout the test expects is used, in
  `Rules.CellIndexEnumerates`.

## Findings

| source | as written | input that shows it | evidently intended | confidence | as-written member | corrected member |
|---|---|---|---|---|---|---|
| astragalus/game.py:81 | `any(all(board) for board in self.boards)` applies `all` to a grid's list of three column lists; a non-empty list is truthy, so the test holds on every board | the empty board: the test says the game is over before any move | the game is over when either grid is full, meaning all nine of its cells hold a die (`Rules.GameOverIffNoLegalMoves`: exactly when a player has no legal move) | not executed | Rules.IsGameOverAsWrittenAlwaysTrue | Rules.IsGameOver |
