/** The game engine of the tic-tac-toe component with its rendering taken away:
    the cells, the table of winning lines, winner detection, the computer's
    choice of cell, the status message, the outcome of one click on board and
    turn, and the score bookkeeping of the winner effect. */
module TicTacToe {

  /** A cell is null (`Empty`) or holds the mark "X" or "O". */
  datatype Cell = Empty | X | O

  /** Positions on the board, row-major in the 3x3 grid. */
  type Index = i: int | 0 <= i < 9

  /** The nine cells of the grid. */
  type Board = b: seq<Cell> | |b| == 9
    witness [Empty, Empty, Empty, Empty, Empty, Empty, Empty, Empty, Empty]

  /** `Array(9).fill(null)`: the board a game starts from. */
  const NewBoard: Board := [Empty, Empty, Empty, Empty, Empty, Empty, Empty, Empty, Empty]

  /** The mark of the player to move: "X" when `isXNext`, otherwise "O". */
  function Mark(isXNext: bool): (m: Cell)
    ensures m != Empty && (m == X <==> isXNext)
  {
    if isXNext then X else O
  }

  /** Every cell holds a mark (`board.every(cell => cell !== null)`). */
  predicate Full(b: Board) {
    forall i :: 0 <= i < 9 ==> b[i] != Empty
  }

  // ---------------------------------------------------------------------
  // Winner detection

  /** The eight winning lines, in the order they are scanned:
      three rows, three columns, two diagonals. */
  const Lines: seq<(Index, Index, Index)> := [
    (0, 1, 2), (3, 4, 5), (6, 7, 8),
    (0, 3, 6), (1, 4, 7), (2, 5, 8),
    (0, 4, 8), (2, 4, 6)]

  /** The first cell of the line is non-null and the other two equal it. */
  predicate Complete(b: Board, line: (Index, Index, Index)) {
    b[line.0] != Empty && b[line.0] == b[line.1] && b[line.0] == b[line.2]
  }

  /** Line `k` is complete and no line before it in the table is. */
  predicate FirstComplete(b: Board, k: int) {
    0 <= k < |Lines| && Complete(b, Lines[k]) &&
    forall j :: 0 <= j < k ==> !Complete(b, Lines[j])
  }

  /** The scan of the line table from position `k` on: the mark of the first
      complete line, or `Empty` (null) when none of them is complete. */
  function WinnerFrom(b: Board, k: nat): (w: Cell)
    requires k <= |Lines|
    ensures w == Empty <==> forall j :: k <= j < |Lines| ==> !Complete(b, Lines[j])
    ensures w != Empty ==> exists j :: k <= j < |Lines| && Complete(b, Lines[j]) && w == b[Lines[j].0]
    decreases |Lines| - k
  {
    if k == |Lines| then Empty
    else if Complete(b, Lines[k]) then b[Lines[k].0]
    else WinnerFrom(b, k + 1)
  }

  /** `calculateWinner(board)` as a value: null exactly when no line is
      complete, and otherwise the mark of the first complete line. */
  function Winner(b: Board): (w: Cell)
    ensures w == Empty <==> forall k :: 0 <= k < |Lines| ==> !Complete(b, Lines[k])
    ensures w != Empty ==> exists k :: FirstComplete(b, k) && w == b[Lines[k].0]
  {
    FirstCompleteFrom(b, 0);
    WinnerFrom(b, 0)
  }

  /** When the scan from `k` finds a mark, it found it on the first complete
      line at or after `k`. */
  lemma {:induction false} FirstCompleteFrom(b: Board, k: nat)
    requires k <= |Lines|
    ensures WinnerFrom(b, k) != Empty ==>
      exists j :: k <= j < |Lines| && Complete(b, Lines[j]) && WinnerFrom(b, k) == b[Lines[j].0] &&
        forall i :: k <= i < j ==> !Complete(b, Lines[i])
    decreases |Lines| - k
  {
    if k < |Lines| && !Complete(b, Lines[k]) {
      FirstCompleteFrom(b, k + 1);
    }
  }

  /** The loop of `calculateWinner` over a board held in an array: it returns
      the mark of the first line whose three cells are equal and non-null. */
  method CalculateWinner(board: array<Cell>) returns (w: Cell)
    requires board.Length == 9
    ensures w == Winner(board[..])
  {
    for k := 0 to |Lines|
      invariant WinnerFrom(board[..], k) == Winner(board[..])
    {
      var line := Lines[k];
      if board[line.0] != Empty && board[line.0] == board[line.1] && board[line.0] == board[line.2] {
        return board[line.0];
      }
    }
    return Empty;
  }

  // ---------------------------------------------------------------------
  // The computer's move

  /** The indices from `i` on whose cell is null, in increasing order
      (the `map`/`filter` pair of `getComputerMove`). */
  function EmptyCellsFrom(b: Board, i: nat): (r: seq<Index>)
    requires i <= 9
    ensures forall k :: 0 <= k < |r| ==> i <= r[k] && b[r[k]] == Empty
    ensures forall j :: i <= j < 9 && b[j] == Empty ==> j in r
    ensures forall k, l :: 0 <= k < l < |r| ==> r[k] < r[l]
    decreases 9 - i
  {
    if i == 9 then []
    else if b[i] == Empty then [i] + EmptyCellsFrom(b, i + 1)
    else EmptyCellsFrom(b, i + 1)
  }

  /** The indices of the null cells, in increasing order. */
  function EmptyCells(b: Board): (r: seq<Index>)
    ensures forall j :: 0 <= j < 9 ==> (j in r <==> b[j] == Empty)
    ensures forall k, l :: 0 <= k < l < |r| ==> r[k] < r[l]
  {
    EmptyCellsFrom(b, 0)
  }

  /** For `random` in [0, 1), `random * n` lies in [0, n) when `n > 0`. */
  lemma {:induction false} ScaledBelow(random: real, n: nat)
    requires 0.0 <= random < 1.0
    ensures 0.0 <= random * n as real
    ensures 0 < n ==> random * n as real < n as real
  {
    if n > 0 {
      ScaledBelow(random, n - 1);
      assert random * n as real == random * (n - 1) as real + random;
    }
  }

  /** `Math.floor(random * n)`, which lies in `0..n-1` when `random` is in [0, 1). */
  function Scale(random: real, n: nat): (k: nat)
    requires 0.0 <= random < 1.0 && 0 < n
    ensures k < n
  {
    ScaledBelow(random, n);
    (random * n as real).Floor
  }

  /** `getComputerMove`: the empty cell at position `Math.floor(random * n)` of
      the list of the `n` empty cells, where `random` is the value drawn from
      `Math.random()`. Its caller only asks when some cell is null. */
  function ComputerMove(b: Board, random: real): (i: Index)
    requires Empty in b
    requires 0.0 <= random < 1.0
    ensures b[i] == Empty
  {
    var cells := EmptyCells(b);
    assert |cells| > 0 by {
      var e :| 0 <= e < 9 && b[e] == Empty;
      assert e in cells;
    }
    cells[Scale(random, |cells|)]
  }

  // ---------------------------------------------------------------------
  // One click

  /** The board and the turn flag after a click. */
  datatype Outcome = Outcome(board: Board, isXNext: bool)

  /** What `handleClick(index)` leaves in `board` and `isXNext`. A click on a
      non-null cell, or while the board has a winner, is ignored. Otherwise the
      current mark is written into a copy of the board and the turn flips. In
      computer mode the guard on the reply reads the winner of the board from
      before the click, which is null at this point, so the computer replies
      whenever a null cell remains: it writes "O" at the cell `ComputerMove`
      picks and hands the turn back to X. */
  function AfterClick(b: Board, index: Index, isXNext: bool, isAgainstComputer: bool, random: real): (o: Outcome)
    requires 0.0 <= random < 1.0
  {
    var winner := Winner(b);
    if b[index] != Empty || winner != Empty then Outcome(b, isXNext)
    else
      var newBoard := b[index := Mark(isXNext)];
      if isAgainstComputer && winner == Empty && Empty in newBoard then
        Outcome(newBoard[ComputerMove(newBoard, random) := O], true)
      else
        Outcome(newBoard, !isXNext)
  }

  // ---------------------------------------------------------------------
  // Status message

  /** The text of a mark, as the template literal prints it. */
  function MarkText(m: Cell): string {
    match m
    case X => "X"
    case O => "O"
    case Empty => "null"
  }

  /** `getStatus()`: the winner first, then a full board, then whose turn it is. */
  function Status(b: Board, isXNext: bool): string {
    var winner := Winner(b);
    if winner != Empty then "Winner: " + MarkText(winner)
    else if Full(b) then "It's a draw!"
    else "Next player: " + MarkText(Mark(isXNext))
  }

  // ---------------------------------------------------------------------
  // Scores

  /** The `scores` object `{ X, O }`. */
  datatype Scores = Scores(x: nat, o: nat) {
    /** `scores[m]` for a mark `m`. */
    function Of(m: Cell): nat {
      match m
      case X => x
      case O => o
      case Empty => 0
    }
  }

  /** The winner effect: it runs when the winner differs from the one it saw
      last, and then adds one to the score of the new winner if there is one. */
  function Tally(seen: Cell, winner: Cell, s: Scores): (r: Scores)
    ensures seen != winner && winner != Empty ==> r.Of(winner) == s.Of(winner) + 1
    ensures forall m :: m != winner || seen == winner ==> r.Of(m) == s.Of(m)
  {
    if winner == seen || winner == Empty then s
    else if winner == X then s.(x := s.x + 1)
    else s.(o := s.o + 1)
  }
}
