/**
 * The main loop: while the game is still being played, ask for a move and
 * try to play it.  The moves the players type are given as a finite
 * sequence of already-converted indices (an unreadable line arrives as -1);
 * the game ends when the board reaches a final state or the moves run out.
 */
module GameLoop {
  import opened BoardLogic

  /**
   * The board the loop ends on, starting from `b` and reading `moves` in
   * order, and how many moves it read.
   */
  function Run(b: Board, moves: seq<int>): (r: (Board, nat))
    requires |b.cells| == AmountOfPositions
    ensures |r.0.cells| == AmountOfPositions && r.1 <= |moves|
    decreases |moves|
  {
    if GameStateOf(b.cells) != Playing || |moves| == 0 then (b, 0)
    else
      var next := Play(b, moves[0]).1;
      var rest := Run(next, moves[1..]);
      (rest.0, rest.1 + 1)
  }

  /** Reading stops early only at a finished game. */
  lemma {:induction false} RunStopsAtFinish(b: Board, moves: seq<int>)
    requires |b.cells| == AmountOfPositions
    ensures Run(b, moves).1 < |moves| ==> GameStateOf(Run(b, moves).0.cells) != Playing
    decreases |moves|
  {
    if GameStateOf(b.cells) == Playing && |moves| > 0 {
      RunStopsAtFinish(Play(b, moves[0]).1, moves[1..]);
    }
  }

  /**
   * Over the whole game every cell stays in {-1, 0, 1}, no mark is ever
   * overwritten, and each move read fills at most one cell.
   */
  lemma {:induction false} RunKeepsMarks(b: Board, moves: seq<int>)
    requires b.Valid()
    ensures Run(b, moves).0.Valid()
    ensures forall j :: 0 <= j < AmountOfPositions && b.cells[j] != 0 ==> Run(b, moves).0.cells[j] == b.cells[j]
    ensures Filled(b.cells) <= Filled(Run(b, moves).0.cells) <= Filled(b.cells) + Run(b, moves).1
    decreases |moves|
  {
    if GameStateOf(b.cells) == Playing && |moves| > 0 {
      var next := Play(b, moves[0]).1;
      PlayPreservesValid(b, moves[0]);
      PlayNeverOverwrites(b, moves[0]);
      RunKeepsMarks(next, moves[1..]);
    }
  }

  /**
   * Played from a board with no complete line, the game never ends with
   * complete lines of both players, and the winner, if any, is the player
   * who moved last (never the one whose turn it now is).
   */
  lemma {:induction false} RunSingleWinner(b: Board, moves: seq<int>)
    requires b.Valid() && NoCompleteLine(b.cells)
    ensures OneSided(Run(b, moves).0.cells)
    ensures GameStateOf(Run(b, moves).0.cells) != WinFor(Run(b, moves).0.current)
    decreases |moves|
  {
    if GameStateOf(b.cells) == Playing && |moves| > 0 {
      var p := Play(b, moves[0]);
      PlayPreservesValid(b, moves[0]);
      if p.0 {
        MoveCompletesOnlyOwnLines(b, moves[0]);
        OtherInvolutive(b.current);
        if GameStateOf(p.1.cells) == Playing {
          PlayingIff(p.1.cells);
          RunSingleWinner(p.1, moves[1..]);
        }
      } else {
        RunSingleWinner(p.1, moves[1..]);
      }
    } else {
      GameStateNoLine(b.cells);
    }
  }

  /**
   * Plays a game with a fresh board, as main does; returns the final cells,
   * the player to move, the final state and how many moves were read.
   */
  method PlayGame(startingPlayer: PlayerId, moves: seq<int>) returns (finalCells: seq<int>, finalPlayer: PlayerId, finalState: int, consumed: nat)
    ensures Run(Initial(startingPlayer), moves).0 == Board(finalCells, finalPlayer)
    ensures consumed == Run(Initial(startingPlayer), moves).1
    ensures finalState == GameStateOf(finalCells)
    ensures consumed < |moves| ==> finalState != Playing
    ensures OneSided(finalCells) && finalState != WinFor(finalPlayer)
  {
    InitialBoard(startingPlayer);
    PlayingIff(Initial(startingPlayer).cells);
    RunSingleWinner(Initial(startingPlayer), moves);
    RunStopsAtFinish(Initial(startingPlayer), moves);
    var board := new TicTacBoardLogic(startingPlayer);
    ghost var goal := Run(Initial(startingPlayer), moves);
    consumed := 0;
    var state := board.GetGameState();
    while state == Playing && consumed < |moves|
      invariant board.Valid() && fresh(board.positions) && consumed <= |moves|
      invariant state == GameStateOf(board.Model().cells)
      invariant Run(board.Model(), moves[consumed..]).0 == goal.0
      invariant consumed + Run(board.Model(), moves[consumed..]).1 == goal.1
      decreases |moves| - consumed
    {
      ghost var rest := moves[consumed..];
      assert rest[1..] == moves[consumed + 1..];
      var move := moves[consumed];
      var _ := board.PlayAtPosition(move);
      consumed := consumed + 1;
      state := board.GetGameState();
    }
    finalCells := board.GetCurrentPositions();
    finalPlayer := board.GetCurrentPlayerPlaying();
    finalState := board.GetGameState();
  }

  // ---------------------------------------------------------------------
  // Example games.

  /** Final board of the game 0,3,1,4,2 started by Player 1: the top row. */
  lemma TopRowExample()
    ensures GameStateOf([1, 1, 1, -1, -1, 0, 0, 0, 0]) == Player1Won
  {
  }

  /** Final board of the game 0,1,2,4,3,5,7,6,8 started by Player 1: no line. */
  lemma DrawExample()
    ensures GameStateOf([1, -1, 1, 1, -1, -1, -1, 1, 1]) == Draw
  {
    var c := [1, -1, 1, 1, -1, -1, -1, 1, 1];
    assert FirstCompleteLine(c, 0).None?;
  }

  /**
   * Final board of the game 0,1,2,3,4,5,7,6,8 started by Player 1: the last
   * move completes the principal diagonal, so the full board is a win.
   */
  lemma FullBoardWinExample()
    ensures GameStateOf([1, -1, 1, -1, 1, -1, -1, 1, 1]) == Player1Won
  {
  }
}
