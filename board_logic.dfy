/**
 * The board-state tracker of the tic-tac-toe game.
 *
 * The board is 9 integer cells numbered row-major
 *
 *     0 | 1 | 2
 *     3 | 4 | 5
 *     6 | 7 | 8
 *
 * where 0 is an empty cell, +1 a mark of Player1 and -1 a mark of Player2,
 * together with the player whose turn it is. The value-level definitions
 * (Board, Play, GameStateOf) say what the operations mean; the class
 * TicTacBoardLogic is the in-place implementation, proved against them.
 */
module BoardLogic {
  import opened Wrappers

  const AmountOfPositions := 9

  /** Slots of the line-sum table: R1,R2,R3, C1,C2,C3, D-primary, D-secondary, IsBoardFull. */
  const SumsSize := 9

  /** Number of winning lines (3 rows, 3 columns, 2 diagonals). */
  const LineCount := 8

  // The encoded game states, as getGameState returns them.
  const Playing := 0
  const Player1Won := 1
  const Player2Won := 2
  const Draw := 3

  datatype PlayerId = Player1 | Player2

  /** The integer a player's mark is stored as in a cell. */
  function PlayerValue(p: PlayerId): (v: int)
    ensures v == 1 || v == -1
  {
    match p
    case Player1 => 1
    case Player2 => -1
  }

  /** The player who moves after `p`. */
  function Other(p: PlayerId): (q: PlayerId)
    ensures q != p
    ensures PlayerValue(q) == -PlayerValue(p)
  {
    if p == Player1 then Player2 else Player1
  }

  /** Toggling the turn twice gives the turn back. */
  lemma OtherInvolutive(p: PlayerId)
    ensures Other(Other(p)) == p
  {}

  /** The encoded state that announces a win of `p`. */
  function WinFor(p: PlayerId): int {
    if p == Player1 then Player1Won else Player2Won
  }

  predicate IsCell(v: int) {
    v == -1 || v == 0 || v == 1
  }

  /** Nine cells, each empty or marked by one of the two players. */
  predicate WellFormed(cells: seq<int>) {
    |cells| == AmountOfPositions && forall i :: 0 <= i < |cells| ==> IsCell(cells[i])
  }

  predicate IsFull(cells: seq<int>) {
    forall i :: 0 <= i < |cells| ==> cells[i] != 0
  }

  /** Number of non-empty cells. */
  function Filled(cells: seq<int>): nat {
    if cells == [] then 0 else (if cells[0] != 0 then 1 else 0) + Filled(cells[1..])
  }

  lemma {:induction false} FilledUpdate(cells: seq<int>, i: nat, v: int)
    requires i < |cells| && cells[i] == 0 && v != 0
    ensures Filled(cells[i := v]) == Filled(cells) + 1
  {
    if i == 0 {
      assert cells[i := v][1..] == cells[1..];
    } else {
      assert cells[i := v][1..] == cells[1..][i - 1 := v];
      FilledUpdate(cells[1..], i - 1, v);
    }
  }

  /** At most every cell is filled, and all are exactly when the board is full. */
  lemma {:induction false} FilledBound(cells: seq<int>)
    ensures Filled(cells) <= |cells|
    ensures Filled(cells) == |cells| <==> IsFull(cells)
    ensures Filled(cells) == 0 <==> forall i :: 0 <= i < |cells| ==> cells[i] == 0
  {
    if cells != [] {
      FilledBound(cells[1..]);
      assert forall i :: 1 <= i < |cells| ==> cells[i] == cells[1..][i - 1];
    }
  }

  /** The abstract state of the tracker: the cells and whose turn it is. */
  datatype Board = Board(cells: seq<int>, current: PlayerId) {
    predicate Valid() {
      WellFormed(cells)
    }
  }

  /** The board a constructor produces: every cell empty. */
  function Initial(startingPlayer: PlayerId): (b: Board)
    ensures |b.cells| == AmountOfPositions && b.current == startingPlayer
    ensures forall j :: 0 <= j < |b.cells| ==> b.cells[j] == 0
  {
    Board(seq(AmountOfPositions, _ => 0), startingPlayer)
  }

  /**
   * One attempt to play at `positionIndex`: whether it is accepted, and the
   * board afterwards.
   */
  function Play(b: Board, positionIndex: int): (r: (bool, Board))
    requires |b.cells| == AmountOfPositions
    ensures |r.1.cells| == AmountOfPositions
    ensures r.0 <==> 0 <= positionIndex < AmountOfPositions && b.cells[positionIndex] == 0
    ensures !r.0 ==> r.1 == b
  {
    if positionIndex < 0 || positionIndex >= AmountOfPositions then (false, b)
    else if b.cells[positionIndex] != 0 then (false, b)
    else (true, Board(b.cells[positionIndex := PlayerValue(b.current)], Other(b.current)))
  }

  lemma PlayRejectsOutOfRange(b: Board, positionIndex: int)
    requires |b.cells| == AmountOfPositions
    requires positionIndex < 0 || positionIndex >= AmountOfPositions
    ensures Play(b, positionIndex) == (false, b)
  {}

  lemma PlayRejectsOccupied(b: Board, positionIndex: int)
    requires |b.cells| == AmountOfPositions
    requires 0 <= positionIndex < AmountOfPositions && b.cells[positionIndex] != 0
    ensures Play(b, positionIndex) == (false, b)
  {}

  lemma PlayAccepts(b: Board, positionIndex: int)
    requires |b.cells| == AmountOfPositions
    requires 0 <= positionIndex < AmountOfPositions && b.cells[positionIndex] == 0
    ensures Play(b, positionIndex).0
    ensures Play(b, positionIndex).1.cells[positionIndex] == PlayerValue(b.current)
    ensures forall j :: 0 <= j < AmountOfPositions && j != positionIndex ==>
              Play(b, positionIndex).1.cells[j] == b.cells[j]
    ensures Play(b, positionIndex).1.current == Other(b.current)
  {}

  /** The turn changes exactly on an accepted move. */
  lemma PlayTurnAlternates(b: Board, positionIndex: int)
    requires |b.cells| == AmountOfPositions
    ensures Play(b, positionIndex).0 <==> Play(b, positionIndex).1.current != b.current
    ensures Play(b, positionIndex).1.current == b.current || Play(b, positionIndex).1.current == Other(b.current)
  {}

  /** A mark, once placed, is never overwritten. */
  lemma PlayNeverOverwrites(b: Board, positionIndex: int)
    requires |b.cells| == AmountOfPositions
    ensures forall j :: 0 <= j < AmountOfPositions && b.cells[j] != 0 ==>
              Play(b, positionIndex).1.cells[j] == b.cells[j]
  {}

  /** Playing the same index again right after an accepted move is rejected and changes nothing. */
  lemma PlayTwiceRejected(b: Board, positionIndex: int)
    requires |b.cells| == AmountOfPositions
    requires Play(b, positionIndex).0
    ensures Play(Play(b, positionIndex).1, positionIndex) == (false, Play(b, positionIndex).1)
  {}

  /** Every cell stays in {-1, 0, 1}; an accepted move fills exactly one more cell, a rejected one none. */
  lemma PlayPreservesValid(b: Board, positionIndex: int)
    requires b.Valid()
    ensures Play(b, positionIndex).1.Valid()
    ensures Filled(Play(b, positionIndex).1.cells) == Filled(b.cells) + (if Play(b, positionIndex).0 then 1 else 0)
  {
    if Play(b, positionIndex).0 {
      FilledUpdate(b.cells, positionIndex, PlayerValue(b.current));
    }
  }

  // ---------------------------------------------------------------------
  // Lines and the game state, as closed forms.

  /** The three cells of line `k`: R1,R2,R3 (0..2), C1,C2,C3 (3..5), principal diagonal (6), secondary diagonal (7). */
  function LineCells(k: nat): (t: (nat, nat, nat))
    requires k < LineCount
    ensures t.0 < t.1 < t.2 < AmountOfPositions
  {
    [(0, 1, 2), (3, 4, 5), (6, 7, 8), (0, 3, 6), (1, 4, 7), (2, 5, 8), (0, 4, 8), (2, 4, 6)][k]
  }

  function LineSum(cells: seq<int>, k: nat): int
    requires |cells| == AmountOfPositions && k < LineCount
  {
    var t := LineCells(k);
    cells[t.0] + cells[t.1] + cells[t.2]
  }

  /** Line `k` is held entirely by one player. */
  predicate Complete(cells: seq<int>, k: nat)
    requires |cells| == AmountOfPositions && k < LineCount
  {
    LineSum(cells, k) == 3 * PlayerValue(Player1) || LineSum(cells, k) == 3 * PlayerValue(Player2)
  }

  /** Line `k` is complete and is the first complete one in the order R1,R2,R3,C1,C2,C3,D1,D2. */
  predicate FirstComplete(cells: seq<int>, k: nat)
    requires |cells| == AmountOfPositions
  {
    k < LineCount && Complete(cells, k) && forall j :: 0 <= j < k ==> !Complete(cells, j)
  }

  predicate NoCompleteLine(cells: seq<int>)
    requires |cells| == AmountOfPositions
  {
    forall k :: 0 <= k < LineCount ==> !Complete(cells, k)
  }

  /** The first complete line at or after `from`, if any. */
  function FirstCompleteLine(cells: seq<int>, from: nat): (r: Option<nat>)
    requires |cells| == AmountOfPositions && from <= LineCount
    ensures r.Some? ==> from <= r.value < LineCount && Complete(cells, r.value)
    ensures r.Some? ==> forall j :: from <= j < r.value ==> !Complete(cells, j)
    ensures r.None? ==> forall j :: from <= j < LineCount ==> !Complete(cells, j)
    decreases LineCount - from
  {
    if from == LineCount then None
    else if Complete(cells, from) then Some(from)
    else FirstCompleteLine(cells, from + 1)
  }

  /**
   * The encoded game state of a board: the first complete line decides the
   * winner; with none, a full board is a draw and any other is still playing.
   */
  function GameStateOf(cells: seq<int>): (r: int)
    requires |cells| == AmountOfPositions
    ensures Playing <= r <= Draw
    ensures r == Draw ==> IsFull(cells)
    ensures r == Playing ==> !IsFull(cells)
  {
    match FirstCompleteLine(cells, 0)
    case Some(k) => if LineSum(cells, k) == 3 * PlayerValue(Player1) then Player1Won else Player2Won
    case None => if IsFull(cells) then Draw else Playing
  }

  /** The first complete line alone decides the result. */
  lemma GameStateOfFirstLine(cells: seq<int>, k: nat)
    requires |cells| == AmountOfPositions && FirstComplete(cells, k)
    ensures GameStateOf(cells) == if LineSum(cells, k) == 3 then Player1Won else Player2Won
  {
    var r := FirstCompleteLine(cells, 0);
    assert r.Some? && FirstComplete(cells, r.value);
  }

  lemma GameStateNoLine(cells: seq<int>)
    requires |cells| == AmountOfPositions && NoCompleteLine(cells)
    ensures GameStateOf(cells) == if IsFull(cells) then Draw else Playing
  {
    var r := FirstCompleteLine(cells, 0);
    assert r.None?;
  }

  lemma Player1WonIff(cells: seq<int>)
    requires |cells| == AmountOfPositions
    ensures GameStateOf(cells) == Player1Won <==> exists k: nat :: FirstComplete(cells, k) && LineSum(cells, k) == 3
  {
    var r := FirstCompleteLine(cells, 0);
    if r.Some? {
      assert FirstComplete(cells, r.value);
    }
  }

  lemma Player2WonIff(cells: seq<int>)
    requires |cells| == AmountOfPositions
    ensures GameStateOf(cells) == Player2Won <==> exists k: nat :: FirstComplete(cells, k) && LineSum(cells, k) == -3
  {
    var r := FirstCompleteLine(cells, 0);
    if r.Some? {
      assert FirstComplete(cells, r.value);
    }
  }

  lemma DrawIff(cells: seq<int>)
    requires |cells| == AmountOfPositions
    ensures GameStateOf(cells) == Draw <==> NoCompleteLine(cells) && IsFull(cells)
  {
    var r := FirstCompleteLine(cells, 0);
    if r.Some? {
      assert !NoCompleteLine(cells) by { assert Complete(cells, r.value); }
    }
  }

  lemma PlayingIff(cells: seq<int>)
    requires |cells| == AmountOfPositions
    ensures GameStateOf(cells) == Playing <==> NoCompleteLine(cells) && !IsFull(cells)
  {
    var r := FirstCompleteLine(cells, 0);
    if r.Some? {
      assert !NoCompleteLine(cells) by { assert Complete(cells, r.value); }
    }
  }

  /** A complete line is reported as a win even when the board is also full. */
  lemma WinBeatsFullBoard(cells: seq<int>, k: nat)
    requires |cells| == AmountOfPositions && k < LineCount && Complete(cells, k)
    ensures GameStateOf(cells) == Player1Won || GameStateOf(cells) == Player2Won
  {
    assert FirstCompleteLine(cells, 0).Some?;
  }

  // ---------------------------------------------------------------------
  // The accumulation loop of getGameState.

  /** A cell in row `row` and column `col` contributes to slot `k` of the sums table. */
  predicate OnLineAt(k: nat, row: int, col: int) {
    if k < 3 then row == k
    else if k < 6 then col + 3 == k
    else if k == 6 then row == col
    else k == 7 && row + col == 2
  }

  /** Cell `i` contributes to slot `k` of the sums table. */
  predicate OnLine(k: nat, i: nat) {
    OnLineAt(k, i / 3, i % 3)
  }

  /** What cell `i` adds to slot `k`. */
  function Contribution(cells: seq<int>, k: nat, i: nat): int
    requires i < |cells|
  {
    if OnLine(k, i) then cells[i] else 0
  }

  /** Slot `k` of the sums table after the first `n` cells are accumulated. */
  function PartialSum(cells: seq<int>, k: nat, n: nat): int
    requires n <= |cells|
  {
    if n == 0 then 0 else PartialSum(cells, k, n - 1) + Contribution(cells, k, n - 1)
  }

  lemma PartialSumOfAll(cells: seq<int>, k: nat)
    requires |cells| == AmountOfPositions
    ensures PartialSum(cells, k, 9) ==
            Contribution(cells, k, 0) + Contribution(cells, k, 1) + Contribution(cells, k, 2) +
            Contribution(cells, k, 3) + Contribution(cells, k, 4) + Contribution(cells, k, 5) +
            Contribution(cells, k, 6) + Contribution(cells, k, 7) + Contribution(cells, k, 8)
  {
    assert PartialSum(cells, k, 1) == Contribution(cells, k, 0);
    assert PartialSum(cells, k, 2) == PartialSum(cells, k, 1) + Contribution(cells, k, 1);
    assert PartialSum(cells, k, 3) == PartialSum(cells, k, 2) + Contribution(cells, k, 2);
    assert PartialSum(cells, k, 4) == PartialSum(cells, k, 3) + Contribution(cells, k, 3);
    assert PartialSum(cells, k, 5) == PartialSum(cells, k, 4) + Contribution(cells, k, 4);
    assert PartialSum(cells, k, 6) == PartialSum(cells, k, 5) + Contribution(cells, k, 5);
    assert PartialSum(cells, k, 7) == PartialSum(cells, k, 6) + Contribution(cells, k, 6);
    assert PartialSum(cells, k, 8) == PartialSum(cells, k, 7) + Contribution(cells, k, 7);
  }

  /**
   * One pass of the accumulation loop's body: adding cell `i` (in row `row`
   * and column `col`) to its row slot, its column slot and the diagonal slots
   * it lies on turns the sums of the first `i` cells into those of the first
   * `i + 1`, and leaves the board-full slot alone.
   */
  lemma AccumulateCell(cells: seq<int>, i: nat, value: int, s0: seq<int>, s1: seq<int>, s2: seq<int>, s3: seq<int>, s4: seq<int>)
    requires |cells| == AmountOfPositions && i < |cells| && value == cells[i]
    requires |s0| == SumsSize
    requires forall k: nat :: k < LineCount ==> s0[k] == PartialSum(cells, k, i)
    requires s1 == s0[i / 3 := s0[i / 3] + value]
    requires s2 == s1[i % 3 + 3 := s1[i % 3 + 3] + value]
    requires s3 == if i / 3 == i % 3 then s2[6 := s2[6] + value] else s2
    requires s4 == if i / 3 + i % 3 == 2 then s3[7 := s3[7] + value] else s3
    ensures |s4| == SumsSize && s4[8] == s0[8]
    ensures forall k: nat :: k < LineCount ==> s4[k] == PartialSum(cells, k, i + 1)
  {
  }

  /** None of the first `n` cells is empty. */
  predicate NoEmptyBefore(cells: seq<int>, n: nat)
    requires n <= |cells|
  {
    n == 0 || (NoEmptyBefore(cells, n - 1) && cells[n - 1] != 0)
  }

  lemma {:induction false} NoEmptyBeforeAll(cells: seq<int>, n: nat)
    requires n <= |cells|
    ensures NoEmptyBefore(cells, n) <==> forall j :: 0 <= j < n ==> cells[j] != 0
  {
    if n > 0 {
      NoEmptyBeforeAll(cells, n - 1);
    }
  }

  /** After all 9 cells, the accumulated slots are the row, column and diagonal sums. */
  lemma AccumulatedSums(cells: seq<int>)
    requires |cells| == AmountOfPositions
    ensures PartialSum(cells, 0, 9) == cells[0] + cells[1] + cells[2]
    ensures PartialSum(cells, 1, 9) == cells[3] + cells[4] + cells[5]
    ensures PartialSum(cells, 2, 9) == cells[6] + cells[7] + cells[8]
    ensures PartialSum(cells, 3, 9) == cells[0] + cells[3] + cells[6]
    ensures PartialSum(cells, 4, 9) == cells[1] + cells[4] + cells[7]
    ensures PartialSum(cells, 5, 9) == cells[2] + cells[5] + cells[8]
    ensures PartialSum(cells, 6, 9) == cells[0] + cells[4] + cells[8]
    ensures PartialSum(cells, 7, 9) == cells[2] + cells[4] + cells[6]
    ensures forall k: nat :: k < LineCount ==> PartialSum(cells, k, 9) == LineSum(cells, k)
  {
    forall k: nat | k < LineCount ensures PartialSum(cells, k, 9) == LineSum(cells, k) {
      PartialSumOfAll(cells, k);
    }
  }

  // ---------------------------------------------------------------------
  // Under alternating play, a move can complete only the mover's lines.

  /** Every complete line belongs to the same player. */
  predicate OneSided(cells: seq<int>)
    requires |cells| == AmountOfPositions
  {
    forall k1: nat, k2: nat :: k1 < LineCount && k2 < LineCount && Complete(cells, k1) && Complete(cells, k2) ==>
      LineSum(cells, k1) == LineSum(cells, k2)
  }

  /**
   * From a board with no complete line, an accepted move completes only
   * lines of the player who moved, so the result is never a win of the
   * opponent and never has complete lines of both players.
   */
  lemma MoveCompletesOnlyOwnLines(b: Board, positionIndex: int)
    requires b.Valid() && NoCompleteLine(b.cells) && Play(b, positionIndex).0
    ensures forall k: nat :: k < LineCount && Complete(Play(b, positionIndex).1.cells, k) ==>
              LineSum(Play(b, positionIndex).1.cells, k) == 3 * PlayerValue(b.current)
    ensures OneSided(Play(b, positionIndex).1.cells)
    ensures GameStateOf(Play(b, positionIndex).1.cells) != WinFor(Other(b.current))
  {
    var after := Play(b, positionIndex).1.cells;
    var v := PlayerValue(b.current);
    forall k: nat | k < LineCount && Complete(after, k) ensures LineSum(after, k) == 3 * v {
      var t := LineCells(k);
      assert !Complete(b.cells, k);
      assert IsCell(b.cells[t.0]) && IsCell(b.cells[t.1]) && IsCell(b.cells[t.2]);
    }
    var r := FirstCompleteLine(after, 0);
    if r.Some? {
      assert FirstComplete(after, r.value);
      GameStateOfFirstLine(after, r.value);
    } else {
      GameStateNoLine(after);
    }
  }

  lemma InitialBoard(p: PlayerId)
    ensures Initial(p).Valid() && Initial(p).current == p
    ensures Filled(Initial(p).cells) == 0
    ensures GameStateOf(Initial(p).cells) == Playing
  {
    var cells := Initial(p).cells;
    FilledBound(cells);
    assert NoCompleteLine(cells) by {
      forall k: nat | k < LineCount ensures LineSum(cells, k) == 0 {
        var t := LineCells(k);
      }
    }
    assert !IsFull(cells) by { assert cells[0] == 0; }
    GameStateNoLine(cells);
  }

  // ---------------------------------------------------------------------
  // The in-place implementation.

  class TicTacBoardLogic {
    var positions: array<int>
    var currentPlayerPlaying: PlayerId

    ghost predicate Valid()
      reads this, positions
    {
      positions.Length == AmountOfPositions && WellFormed(positions[..])
    }

    /** The abstract value of the tracker. */
    function Model(): Board
      reads this, positions
    {
      Board(positions[..], currentPlayerPlaying)
    }

    /** A board with every cell empty; `startingPlayer` moves first. */
    constructor (startingPlayer: PlayerId)
      ensures Valid() && fresh(positions)
      ensures Model() == Initial(startingPlayer)
    {
      var cells := new int[AmountOfPositions];
      for i := 0 to AmountOfPositions
        invariant forall j :: 0 <= j < i ==> cells[j] == 0
      {
        cells[i] := 0;
      }
      assert cells[..] == Initial(startingPlayer).cells;
      positions := cells;
      currentPlayerPlaying := startingPlayer;
    }

    function GetCurrentPlayerPlaying(): (p: PlayerId)
      reads this
      ensures p == Model().current
    {
      currentPlayerPlaying
    }

    /** The number of cells, which the view is configured with. */
    function GetAmountOfPositions(): (n: int)
      reads this, positions
      requires Valid()
      ensures n == |Model().cells| == positions.Length
    {
      AmountOfPositions
    }

    /** A read-only copy of the cells. */
    function GetCurrentPositions(): (cells: seq<int>)
      reads this, positions
      requires Valid()
      ensures WellFormed(cells) && cells == Model().cells
    {
      positions[..]
    }

    method ToggleCurrentPlayer()
      modifies this
      ensures currentPlayerPlaying == Other(old(currentPlayerPlaying))
      ensures positions == old(positions)
    {
      if currentPlayerPlaying == Player1 {
        currentPlayerPlaying := Player2;
      } else {
        currentPlayerPlaying := Player1;
      }
    }

    method PlayAtPosition(positionIndex: int) returns (accepted: bool)
      requires Valid()
      modifies this, positions
      ensures Valid() && positions == old(positions)
      ensures (accepted, Model()) == Play(old(Model()), positionIndex)
    {
      PlayPreservesValid(Model(), positionIndex);
      if positionIndex < 0 || positionIndex >= AmountOfPositions {
        return false;
      }
      if positions[positionIndex] != 0 {
        return false;
      }
      positions[positionIndex] := PlayerValue(currentPlayerPlaying);
      ToggleCurrentPlayer();
      return true;
    }

    /**
     * The first pass of getGameState: the eight line sums (R1,R2,R3,
     * C1,C2,C3, D-primary, D-secondary) in slots 0..7, slot 8 still 0, and
     * whether no cell is empty.
     */
    method AccumulateLineSums() returns (sums: seq<int>, isBoardFull: bool)
      requires Valid()
      ensures |sums| == SumsSize && sums[8] == 0
      ensures forall k: nat :: k < LineCount ==> sums[k] == PartialSum(Model().cells, k, AmountOfPositions)
      ensures isBoardFull == NoEmptyBefore(Model().cells, AmountOfPositions)
    {
      ghost var cells := positions[..];
      sums := [0, 0, 0, 0, 0, 0, 0, 0, 0];
      isBoardFull := true;
      for i := 0 to AmountOfPositions
        invariant |sums| == SumsSize && sums[8] == 0
        invariant forall k: nat :: k < LineCount ==> sums[k] == PartialSum(cells, k, i)
        invariant isBoardFull == NoEmptyBefore(cells, i)
      {
        var row := i / 3;
        var col := i % 3;
        var value := positions[i];
        ghost var s0 := sums;
        sums := sums[row := sums[row] + value];
        ghost var s1 := sums;
        sums := sums[col + 3 := sums[col + 3] + value];
        ghost var s2 := sums;
        if row == col {
          sums := sums[6 := sums[6] + value];
        }
        ghost var s3 := sums;
        if row + col == 2 {
          sums := sums[7 := sums[7] + value];
        }
        AccumulateCell(cells, i, value, s0, s1, s2, s3, sums);
        if value == 0 {
          isBoardFull := false;
        }
      }
    }

    /** Outputs 0, 1, 2, 3 for Playing, Player1 won, Player2 won, Draw. */
    method GetGameState() returns (state: int)
      requires Valid()
      ensures state == GameStateOf(Model().cells)
    {
      ghost var cells := positions[..];
      var sums, isBoardFull := AccumulateLineSums();
      if isBoardFull {
        sums := sums[8 := 1];
      }
      AccumulatedSums(cells);
      NoEmptyBeforeAll(cells, AmountOfPositions);
      for i := 0 to SumsSize
        invariant forall k: nat :: k < i && k < LineCount ==> !Complete(cells, k)
      {
        if sums[i] == 3 * PlayerValue(Player1) {
          GameStateOfFirstLine(cells, i);
          return Player1Won;
        } else if sums[i] == 3 * PlayerValue(Player2) {
          GameStateOfFirstLine(cells, i);
          return Player2Won;
        }
      }
      GameStateNoLine(cells);
      if sums[8] == 0 {
        return Playing;
      } else {
        return Draw;
      }
    }
  }
}
