# Tic-tac-toe board logic, verified in Dafny

This project models the terminal tic-tac-toe game in
`cpp-adventures/hello-world/main.cpp`. It covers three parts:

- `TicTacBoardLogic`: the 3×3 board tracker. Nine integer cells hold 0 (empty), 1 (Player 1) or -1 (Player 2), plus whose turn it is. It offers a move operation that accepts or rejects a move, and `getGameState`, which encodes the state as 0 (playing), 1 (Player 1 won), 2 (Player 2 won) or 3 (draw).
- `GameUI`: the character shown for a cell and the position-list text `"[v0,...,v8]\n"`.
- `main`'s loop: play moves while the game is still being played.

Files:

- `wrappers.dfy` — module `Wrappers`: the `Option` type.
- `board_logic.dfy` — module `BoardLogic`. The value-level specification comes first:
  - `Board`, the result of one move (`Play`), and the game state as a closed form (`GameStateOf`): the first complete line in the order R1, R2, R3, C1, C2, C3, principal diagonal, secondary diagonal decides the winner; with no complete line, a full board is a draw.
  - The lemmas that characterise these.
  - `class TicTacBoardLogic`, which keeps the cells in an `array<int>` as the source does. Its methods are proved against that specification.
- `game_ui.dfy` — module `GameView`:
  - `GameUI` as a value, because its fields never change after construction;
  - the cell marker and its inverse;
  - `to_string` as decimal text, plus a parser that reads it back;
  - the loop that builds the position list, and the parser that reads the list back.
- `game_loop.dfy` — module `GameLoop`:
  - `Run` is the specification of `main`'s loop over a finite sequence of moves;
  - `PlayGame` runs that loop on a fresh `TicTacBoardLogic` object.

The board is proved to behave as follows:

- A rejected move changes nothing.
- An accepted move writes the mover's value into exactly one empty cell and toggles the turn.
- Every cell stays in {-1, 0, 1}.
- `getGameState`'s two loops compute exactly the closed form.
- The four states exclude each other.

Under alternating play two further facts hold:

- A move can only complete lines of the player who made it. So no reachable board has complete lines of both players, and the order in which the lines are checked never changes the result.
- The winner is always the player who moved last.

A printed position list parses back to exactly the printed values.

The moves 0,1,2,3,4,5,7,6,8 (Player 1 first) fill the board but are not a draw: Player 1 then holds cells 0, 4 and 8, so `getGameState` reports a Player 1 win on the principal diagonal (`GameLoop.FullBoardWinExample`). A real draw is 0,1,2,4,3,5,7,6,8 (`GameLoop.DrawExample`).

## Model

All source paths are in `cpp-adventures/hello-world/main.cpp`.

| member | source | states |
|---|---|---|
| BoardLogic.Other | cpp-adventures/hello-world/main.cpp:36-41 | the toggled player differs from the current one, and its stored cell value is the negation of the current one's |
| BoardLogic.OtherInvolutive | cpp-adventures/hello-world/main.cpp:36-41 | toggling twice gives the original player back |
| BoardLogic.FilledUpdate | cpp-adventures/hello-world/main.cpp:70-75 | writing a mark into an empty cell raises the number of filled cells by exactly one |
| BoardLogic.FilledBound | cpp-adventures/hello-world/main.cpp:119-124 | at most 9 cells are filled; all are filled exactly when no cell is 0; none is filled exactly when every cell is 0 |
| BoardLogic.PlayerValue | cpp-adventures/hello-world/main.cpp:7-10 | the value stored for a player: 1 for Player 1, -1 for Player 2; always 1 or -1, so never the empty cell |
| BoardLogic.Initial | cpp-adventures/hello-world/main.cpp:44-56 | the board a constructor produces: nine cells, all 0, with the given player to move (InitialBoard adds validity, no filled cell and state 0) |
| BoardLogic.Play | cpp-adventures/hello-world/main.cpp:64-86 | one move as a value: accepted exactly when the index is in 0..8 and its cell is 0; a rejected move returns the board unchanged. PlayRejectsOutOfRange, PlayRejectsOccupied, PlayAccepts and PlayPreservesValid below state the new cells and turn |
| BoardLogic.PlayRejectsOutOfRange | cpp-adventures/hello-world/main.cpp:67-68 | an index below 0 or at least 9 is rejected and the board (cells and turn) is unchanged |
| BoardLogic.PlayRejectsOccupied | cpp-adventures/hello-world/main.cpp:70-71 | an index whose cell is non-zero is rejected and the board is unchanged |
| BoardLogic.PlayAccepts | cpp-adventures/hello-world/main.cpp:72-80 | a move to an empty cell in range is accepted; that cell gets the mover's value, every other cell keeps its value, and the turn passes to the other player |
| BoardLogic.PlayTurnAlternates | cpp-adventures/hello-world/main.cpp:64-86 | the turn changes if and only if the move is accepted |
| BoardLogic.PlayNeverOverwrites | cpp-adventures/hello-world/main.cpp:70-71 | no move, accepted or not, changes a non-empty cell |
| BoardLogic.PlayTwiceRejected | cpp-adventures/hello-world/main.cpp:64-86 | repeating an accepted move's index at once is rejected and changes nothing |
| BoardLogic.PlayPreservesValid | cpp-adventures/hello-world/main.cpp:64-86 | cells stay in {-1,0,1}; the filled count rises by 1 on an accepted move and by 0 on a rejected one |
| BoardLogic.LineCells | cpp-adventures/hello-world/main.cpp:100-117 | each of the 8 lines (slots 0..7 of the sums table) is three distinct cells in increasing order |
| BoardLogic.FirstCompleteLine | cpp-adventures/hello-world/main.cpp:127-133 | the result is the first complete line at or after the start; no line is complete when it returns None |
| BoardLogic.GameStateOf | cpp-adventures/hello-world/main.cpp:95-140 | the closed form of `getGameState`: the state is one of 0, 1, 2, 3; a draw is reported only for a full board and "playing" only for one with an empty cell. The lemmas Player1WonIff, Player2WonIff, DrawIff and PlayingIff below characterise each state in both directions |
| BoardLogic.GameStateOfFirstLine | cpp-adventures/hello-world/main.cpp:127-133 | the first complete line alone decides the result: 1 if its sum is 3, else 2 |
| BoardLogic.GameStateNoLine | cpp-adventures/hello-world/main.cpp:134-139 | with no complete line the state is 3 for a full board and 0 otherwise |
| BoardLogic.Player1WonIff | cpp-adventures/hello-world/main.cpp:129-130 | state 1 if and only if the first complete line sums to 3 |
| BoardLogic.Player2WonIff | cpp-adventures/hello-world/main.cpp:131-132 | state 2 if and only if the first complete line sums to -3 |
| BoardLogic.DrawIff | cpp-adventures/hello-world/main.cpp:123-139 | state 3 if and only if no line is complete and no cell is empty |
| BoardLogic.PlayingIff | cpp-adventures/hello-world/main.cpp:134-137 | state 0 if and only if no line is complete and some cell is empty |
| BoardLogic.WinBeatsFullBoard | cpp-adventures/hello-world/main.cpp:126-139 | a board with a complete line reports a win even when it is full |
| BoardLogic.AccumulateCell | cpp-adventures/hello-world/main.cpp:102-117 | one pass of the loop body adds cell i to the sums of exactly the lines through it, and leaves slot 8 alone |
| BoardLogic.PartialSumOfAll | cpp-adventures/hello-world/main.cpp:100-122 | after all nine passes, a slot holds the sum of the contributions of the nine cells |
| BoardLogic.AccumulatedSums | cpp-adventures/hello-world/main.cpp:100-122 | slots 0..7 end as the row sums R1..R3, the column sums C1..C3 and the two diagonal sums |
| BoardLogic.NoEmptyBeforeAll | cpp-adventures/hello-world/main.cpp:119-121 | the running flag is true after n cells if and only if none of them is 0 |
| BoardLogic.MoveCompletesOnlyOwnLines | cpp-adventures/hello-world/main.cpp:64-86 | from a board with no complete line, an accepted move completes only the mover's lines; the board never has complete lines of both players and is never reported as a win of the opponent |
| BoardLogic.InitialBoard | cpp-adventures/hello-world/main.cpp:44-56 | a new board is valid, starts with the given player, has no filled cell and is in state 0 |
| BoardLogic.TicTacBoardLogic.constructor | cpp-adventures/hello-world/main.cpp:44-56 | all nine cells are 0 and the given player is to move |
| BoardLogic.TicTacBoardLogic.GetAmountOfPositions | cpp-adventures/hello-world/main.cpp:58-60 | the number of cells of the board, 9 |
| BoardLogic.TicTacBoardLogic.GetCurrentPlayerPlaying | cpp-adventures/hello-world/main.cpp:62 | the player whose turn it is |
| BoardLogic.TicTacBoardLogic.GetCurrentPositions | cpp-adventures/hello-world/main.cpp:142-144 | a copy of the nine cells, each in {-1,0,1} |
| BoardLogic.TicTacBoardLogic.ToggleCurrentPlayer | cpp-adventures/hello-world/main.cpp:36-41 | the turn passes to the other player; the cells are untouched |
| BoardLogic.TicTacBoardLogic.PlayAtPosition | cpp-adventures/hello-world/main.cpp:64-86 | the result and the new cells and turn are exactly those of `Play` on the old board; the board stays valid |
| BoardLogic.TicTacBoardLogic.AccumulateLineSums | cpp-adventures/hello-world/main.cpp:96-122 | the first loop leaves the eight line sums in slots 0..7 and 0 in slot 8, and the flag says whether no cell is empty |
| BoardLogic.TicTacBoardLogic.GetGameState | cpp-adventures/hello-world/main.cpp:95-140 | the returned code equals the closed-form game state of the current cells |
| GameView.DigitValue | cpp-adventures/hello-world/main.cpp:243 | a digit character reads back as the digit it shows |
| GameView.NatToString | cpp-adventures/hello-world/main.cpp:243 | the decimal text is non-empty and all digits; it has two or more digits exactly from 10 upwards |
| GameView.IntToString | cpp-adventures/hello-world/main.cpp:243 | the text of `to_string`: non-empty, and it starts with '-' exactly for negative values. ParseIntToString and IntToStringInjective below show that it reads back as the value |
| GameView.IntToStringHasNoComma | cpp-adventures/hello-world/main.cpp:240-243 | a decimal text never contains the list separator ',' |
| GameView.ParseNat | cpp-adventures/hello-world/main.cpp:243 | the reader accepts exactly the non-empty runs of digits |
| GameView.ParseNatToString | cpp-adventures/hello-world/main.cpp:243 | the text of every natural number reads back as that number |
| GameView.ParseIntToString | cpp-adventures/hello-world/main.cpp:243 | the text of every integer, negative ones included, reads back as that integer |
| GameView.IntToStringInjective | cpp-adventures/hello-world/main.cpp:243 | different integers print differently |
| GameView.Join | cpp-adventures/hello-world/main.cpp:238-246 | the values' texts separated by ','; empty exactly for an empty list. JoinAppend and ParseJoin below carry its properties |
| GameView.JoinAppend | cpp-adventures/hello-world/main.cpp:240-244 | appending a value to a list appends ',' and the value's text |
| GameView.ParseJoin | cpp-adventures/hello-world/main.cpp:240-244 | splitting a non-empty printed list on ',' and reading each field gives back the values |
| GameView.PositionListText | cpp-adventures/hello-world/main.cpp:238-246 | the whole printed list: '[' first, "]\n" last, the joined values in between (three characters longer than them). PositionListRoundTrip below shows it parses back to the values |
| GameView.PositionListRoundTrip | cpp-adventures/hello-world/main.cpp:238-246 | the printed position list of any values parses back to exactly those values |
| GameView.ListStep | cpp-adventures/hello-world/main.cpp:240-244 | one pass of the list loop extends the output by the next value, preceded by ',' except at the start |
| GameView.GameUI.PlayerMarker | cpp-adventures/hello-world/main.cpp:249-256 | the shown character is the Player 1 marker, the Player 2 marker or '-' |
| GameView.GameUI.MarkerValue | cpp-adventures/hello-world/main.cpp:249-256 | the cell value a shown character stands for is in {-1,0,1} |
| GameView.GameUI.MarkerRoundTrip | cpp-adventures/hello-world/main.cpp:249-256 | with markers distinct from each other and from '-', the shown character determines the cell value |
| GameView.GameUI.PrintPositionList | cpp-adventures/hello-world/main.cpp:238-246 | the built string is "[", then the first amountOfPositions cells separated by ',', then "]\n"; none are listed when that count is negative |
| GameLoop.Run | cpp-adventures/hello-world/main.cpp:267-282 | the loop reads at most as many moves as it is given |
| GameLoop.RunStopsAtFinish | cpp-adventures/hello-world/main.cpp:267 | the loop stops before the moves run out only at a final state |
| GameLoop.RunKeepsMarks | cpp-adventures/hello-world/main.cpp:267-282 | over a game, cells stay valid, no mark is overwritten, and each move read fills at most one cell |
| GameLoop.RunSingleWinner | cpp-adventures/hello-world/main.cpp:267-282 | from a board with no complete line, the final board never has lines of both players, and it is never a win of the player whose turn it is |
| GameLoop.PlayGame | cpp-adventures/hello-world/main.cpp:259-287 | playing the moves on a fresh object gives the final cells and turn, the read count and the final state of `Run`; it stops before the moves run out only at a final state; the final board never has complete lines of both players, and the winner is never the player left to move |
| GameLoop.TopRowExample | cpp-adventures/hello-world/main.cpp:129-130 | the board after 0,3,1,4,2 is a Player 1 win |
| GameLoop.DrawExample | cpp-adventures/hello-world/main.cpp:136-139 | the full board after 0,1,2,4,3,5,7,6,8 has no line and is a draw |
| GameLoop.FullBoardWinExample | cpp-adventures/hello-world/main.cpp:126-139 | the full board after 0,1,2,3,4,5,7,6,8 is a Player 1 win, not a draw |

## Left out

- `setRandomPlayer` (lines 26-34) seeds the C library's random generator from the clock. The model leaves it out: the constructor takes the starting player as a parameter, as the one-argument constructor (lines 53-56) does.
- The terminal output is not modelled, for it is I/O only:
  - the cursor and clearing helpers (lines 162-172);
  - `printBoard` (lines 193-224);
  - `printFinalState` (lines 226-235);
  - the printing of the position list. `PrintPositionList` returns the string instead of writing it.
- `readMoveFromPlayer` (lines 175-191) reads a line from standard input and converts it with `stoi`. It is not modelled: a game's moves are an arbitrary sequence of integers, with -1 standing for an unreadable line. The overflow of `number - 1` is not modelled either.
- `getPositionRow` (lines 88-90) prints a value and falls off the end of a non-void function, which is undefined behaviour. No caller uses it.
- The `try`/`catch` in `playAtPosition` (lines 65, 82-85) is not modelled: nothing in its body throws.
- `getCurrentPositions` returns a pointer to the internal array, so callers could write through it. The model gives a read-only copy of the cells instead.
- `sums` in `getGameState` is a local array that nothing else can see. It is a local `seq<int>` value in the model.
- The first loop of `getGameState` is the separate method `AccumulateLineSums`.
- `incompleteLinesCount` (line 126) is never used, so it is not modelled.
- `gameRunning` (line 265) is always true, so it is not modelled. `output` (line 263) is never read, so it is not modelled.
- GameLoop.PlayGame and GameLoop.Run: the real loop blocks on standard input until the game ends. The model ends the game when it reaches a final state or its finite move sequence is exhausted.
- C++ `int` width is not modelled. Cells stay in -1..1, line sums in -3..3, game states in 0..3 and accepted indices in 0..8. An index that is not validated (`stoi(line) - 1`, lines 184-185, passed on at lines 272-275) is only compared with 0 and 9, so the width of `int` does not change any result.
- GameLoop.TopRowExample, GameLoop.DrawExample and GameLoop.FullBoardWinExample state the game state of each example's final board, written out as a literal. That `Run` from a fresh board reaches exactly those boards is not proved: each intermediate board would need its own proof that no line is complete.
