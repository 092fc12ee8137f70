/** What the engine promises: the winner is the first complete line of the
    table and agrees with the rows, columns and diagonals of the grid; the
    computer only ever picks null cells and can pick any of them; a click never
    overwrites a mark and changes exactly the cells it should; the status
    message tells the three cases apart; the winner effect scores a win once. */
module GameProperties {
  import opened TicTacToe

  // ---------------------------------------------------------------------
  // Winner detection

  /** A line that is complete with no complete line before it decides the winner. */
  lemma FirstLineDecides(b: Board, k: int)
    requires FirstComplete(b, k)
    ensures Winner(b) == b[Lines[k].0]
  {
    var w := Winner(b);
    var k' :| FirstComplete(b, k') && w == b[Lines[k'].0];
    assert !(k' < k) && !(k < k');
  }

  /** `calculateWinner` returns the mark `m` exactly when the first complete
      line of the table is a line of `m`s. */
  lemma WinnerIsFirstCompleteLine(b: Board, m: Cell)
    ensures m != Empty && Winner(b) == m <==> exists k :: FirstComplete(b, k) && b[Lines[k].0] == m
  {
    if exists k :: FirstComplete(b, k) && b[Lines[k].0] == m {
      var k :| FirstComplete(b, k) && b[Lines[k].0] == m;
      FirstLineDecides(b, k);
    }
  }

  /** The cell in row `row` and column `col` of the 3x3 grid. */
  function At(b: Board, row: int, col: int): Cell
    requires 0 <= row < 3 && 0 <= col < 3
  {
    b[3 * row + col]
  }

  /** Three marks `m` in a row, a column or a diagonal of the grid: a
      definition by coordinates, independent of the line table. */
  predicate ThreeInARow(b: Board, m: Cell) {
    m != Empty &&
    ((exists r :: 0 <= r < 3 && At(b, r, 0) == m && At(b, r, 1) == m && At(b, r, 2) == m) ||
     (exists c :: 0 <= c < 3 && At(b, 0, c) == m && At(b, 1, c) == m && At(b, 2, c) == m) ||
     (At(b, 0, 0) == m && At(b, 1, 1) == m && At(b, 2, 2) == m) ||
     (At(b, 0, 2) == m && At(b, 1, 1) == m && At(b, 2, 0) == m))
  }

  /** Three in a row on the grid completes a line of the table. */
  lemma GridLineInTable(b: Board, m: Cell)
    requires ThreeInARow(b, m)
    ensures exists k :: 0 <= k < |Lines| && Complete(b, Lines[k]) && b[Lines[k].0] == m
  {
    if exists r :: 0 <= r < 3 && At(b, r, 0) == m && At(b, r, 1) == m && At(b, r, 2) == m {
      var r :| 0 <= r < 3 && At(b, r, 0) == m && At(b, r, 1) == m && At(b, r, 2) == m;
      assert Complete(b, Lines[r]) && b[Lines[r].0] == m;
    } else if exists c :: 0 <= c < 3 && At(b, 0, c) == m && At(b, 1, c) == m && At(b, 2, c) == m {
      var c :| 0 <= c < 3 && At(b, 0, c) == m && At(b, 1, c) == m && At(b, 2, c) == m;
      assert Complete(b, Lines[3 + c]) && b[Lines[3 + c].0] == m;
    } else if At(b, 0, 0) == m && At(b, 1, 1) == m && At(b, 2, 2) == m {
      assert Complete(b, Lines[6]) && b[Lines[6].0] == m;
    } else {
      assert Complete(b, Lines[7]) && b[Lines[7].0] == m;
    }
  }

  /** A complete line of the table is three in a row on the grid. */
  lemma TableLineOnGrid(b: Board, k: int)
    requires 0 <= k < |Lines| && Complete(b, Lines[k])
    ensures ThreeInARow(b, b[Lines[k].0])
  {
    var m := b[Lines[k].0];
    if k < 3 {
      assert At(b, k, 0) == m && At(b, k, 1) == m && At(b, k, 2) == m;
    } else if k < 6 {
      assert At(b, 0, k - 3) == m && At(b, 1, k - 3) == m && At(b, 2, k - 3) == m;
    } else if k == 6 {
      assert At(b, 0, 0) == m && At(b, 1, 1) == m && At(b, 2, 2) == m;
    } else {
      assert At(b, 0, 2) == m && At(b, 1, 1) == m && At(b, 2, 0) == m;
    }
  }

  /** The eight lines of the table are exactly the rows, columns and diagonals. */
  lemma LinesAreGridLines(b: Board, m: Cell)
    ensures ThreeInARow(b, m) <==> exists k :: 0 <= k < |Lines| && Complete(b, Lines[k]) && b[Lines[k].0] == m
  {
    if ThreeInARow(b, m) {
      GridLineInTable(b, m);
    }
    if exists k :: 0 <= k < |Lines| && Complete(b, Lines[k]) && b[Lines[k].0] == m {
      var k :| 0 <= k < |Lines| && Complete(b, Lines[k]) && b[Lines[k].0] == m;
      TableLineOnGrid(b, k);
    }
  }

  /** In grid terms: there is a winner exactly when some mark has three in a
      row, the winner has three in a row, and a mark that alone has three in a
      row is the winner. */
  lemma WinnerOnGrid(b: Board, m: Cell)
    ensures Winner(b) != Empty <==> ThreeInARow(b, X) || ThreeInARow(b, O)
    ensures Winner(b) != Empty ==> ThreeInARow(b, Winner(b))
    ensures ThreeInARow(b, m) && !ThreeInARow(b, if m == X then O else X) ==> Winner(b) == m
  {
    LinesAreGridLines(b, X);
    LinesAreGridLines(b, O);
    LinesAreGridLines(b, m);
    var w := Winner(b);
    if w != Empty {
      var k :| FirstComplete(b, k) && w == b[Lines[k].0];
      LinesAreGridLines(b, w);
    } else {
      assert forall k :: 0 <= k < |Lines| ==> !Complete(b, Lines[k]);
    }
  }

  /** The board of the draw scenario has no winner, and its status says so. */
  lemma DrawScenario()
    ensures var b: Board := [X, O, X, O, X, O, O, X, O];
      Winner(b) == Empty && Full(b) && Status(b, true) == "It's a draw!"
  {
    var b: Board := [X, O, X, O, X, O, O, X, O];
    forall k | 0 <= k < |Lines| ensures !Complete(b, Lines[k]) {
    }
  }

  // ---------------------------------------------------------------------
  // The computer's move

  /** The draw `k / n` lands on position `k` of a list of `n` cells. */
  lemma ScaleHits(k: nat, n: nat)
    requires k < n
    ensures 0.0 <= k as real / n as real < 1.0
    ensures Scale(k as real / n as real, n) == k
  {
    var random := k as real / n as real;
    assert random * n as real == k as real;
    assert random < 1.0 by {
      assert random * n as real < 1.0 * n as real;
    }
  }

  /** `Math.random` can lead the computer to any null cell: the choice covers
      every empty index and nothing else. */
  lemma ComputerMoveReachesEveryEmptyCell(b: Board, i: Index)
    requires b[i] == Empty
    ensures exists random: real :: 0.0 <= random < 1.0 && ComputerMove(b, random) == i
  {
    var cells := EmptyCells(b);
    assert i in cells;
    var k :| 0 <= k < |cells| && cells[k] == i;
    var random := k as real / |cells| as real;
    ScaleHits(k, |cells|);
    assert Empty in b;
    assert ComputerMove(b, random) == cells[k];
  }

  /** A draw of 0 makes the computer take the first null cell. */
  lemma ComputerMoveAtZero(b: Board, i: Index)
    requires b[i] == Empty
    ensures ComputerMove(b, 0.0) <= i
  {
    var cells := EmptyCells(b);
    assert i in cells;
    assert Scale(0.0, |cells|) == 0;
  }

  // ---------------------------------------------------------------------
  // One click

  /** A click on a non-null cell, or while the board has a winner, changes
      neither the board nor the turn. */
  lemma IgnoredClick(b: Board, index: Index, isXNext: bool, isAgainstComputer: bool, random: real)
    requires 0.0 <= random < 1.0
    requires b[index] != Empty || Winner(b) != Empty
    ensures AfterClick(b, index, isXNext, isAgainstComputer, random) == Outcome(b, isXNext)
  {
  }

  /** Moves never overwrite: every non-null cell keeps its mark. */
  lemma ClickNeverOverwrites(b: Board, index: Index, isXNext: bool, isAgainstComputer: bool, random: real)
    requires 0.0 <= random < 1.0
    ensures var o := AfterClick(b, index, isXNext, isAgainstComputer, random);
      forall i :: 0 <= i < 9 && b[i] != Empty ==> o.board[i] == b[i]
  {
    if b[index] == Empty && Winner(b) == Empty {
      var newBoard := b[index := Mark(isXNext)];
      if isAgainstComputer && Empty in newBoard {
        var c := ComputerMove(newBoard, random);
        assert newBoard[c] == Empty;
      }
    }
  }

  /** Against a human, an accepted click writes the current mark into the
      clicked null cell, changes no other cell and flips the turn. */
  lemma HumanMove(b: Board, index: Index, isXNext: bool, random: real)
    requires 0.0 <= random < 1.0
    requires b[index] == Empty && Winner(b) == Empty
    ensures AfterClick(b, index, isXNext, false, random) == Outcome(b[index := Mark(isXNext)], !isXNext)
    ensures var o := AfterClick(b, index, isXNext, false, random);
      o.board[index] == Mark(isXNext) && forall i :: 0 <= i < 9 && i != index ==> o.board[i] == b[i]
  {
  }

  /** Against the computer, an accepted click that leaves a null cell is
      followed by exactly one more change: an "O" in a cell that was null,
      after which X is to move. The human's own move may have completed a line. */
  lemma ComputerReply(b: Board, index: Index, isXNext: bool, random: real)
    requires 0.0 <= random < 1.0
    requires b[index] == Empty && Winner(b) == Empty
    requires Empty in b[index := Mark(isXNext)]
    ensures var o := AfterClick(b, index, isXNext, true, random);
      var c := ComputerMove(b[index := Mark(isXNext)], random);
      c != index && b[c] == Empty && o.board[c] == O &&
      o.board[index] == Mark(isXNext) &&
      (forall i :: 0 <= i < 9 && i != index && i != c ==> o.board[i] == b[i]) &&
      o.isXNext
  {
  }

  /** Against the computer, a click that fills the last null cell gets no reply
      and flips the turn. */
  lemma NoReplyOnFullBoard(b: Board, index: Index, isXNext: bool, random: real)
    requires 0.0 <= random < 1.0
    requires b[index] == Empty && Winner(b) == Empty
    requires Empty !in b[index := Mark(isXNext)]
    ensures AfterClick(b, index, isXNext, true, random) == Outcome(b[index := Mark(isXNext)], !isXNext)
  {
  }

  /** The computer replies even to a winning move: X completes the top row,
      and the reply completes a row of "O"s as well. The first line in the
      table still names X the winner. */
  lemma ReplyAfterWinningMove(b: Board)
    requires b == [X, X, Empty, O, O, Empty, Empty, Empty, Empty]
    ensures var o := AfterClick(b, 2, true, true, 0.0);
      Complete(o.board, Lines[0]) && o.board[0] == X &&
      Complete(o.board, Lines[1]) && o.board[3] == O &&
      o.isXNext && Winner(o.board) == X
  {
    var marked := b[2 := Mark(true)];
    assert Winner(b) == Empty by {
      forall k | 0 <= k < |Lines| ensures !Complete(b, Lines[k]) {
      }
    }
    assert Empty in marked by {
      assert marked[5] == Empty;
    }
    assert ComputerMove(marked, 0.0) == 5 by {
      ComputerMoveAtZero(marked, 5);
      assert forall j :: 0 <= j < 5 ==> marked[j] != Empty;
    }
    ComputerReply(b, 2, true, 0.0);
    var o := AfterClick(b, 2, true, true, 0.0);
    assert o.board[0] == X && o.board[1] == X && o.board[2] == X;
    assert o.board[3] == O && o.board[4] == O && o.board[5] == O;
    assert FirstComplete(o.board, 0);
    FirstLineDecides(o.board, 0);
  }

  /** The number of cells holding `m`. */
  function Count(s: seq<Cell>, m: Cell): nat {
    if s == [] then 0 else (if s[0] == m then 1 else 0) + Count(s[1..], m)
  }

  /** Writing `v` at `i` moves one cell from the count of `s[i]` to that of `v`. */
  lemma {:induction false} CountUpdate(s: seq<Cell>, i: int, v: Cell, m: Cell)
    requires 0 <= i < |s|
    ensures Count(s[i := v], m) == Count(s, m) - (if s[i] == m then 1 else 0) + (if v == m then 1 else 0)
  {
    if i == 0 {
      assert s[i := v][1..] == s[1..];
    } else {
      assert s[i := v][1..] == s[1..][i - 1 := v];
      CountUpdate(s[1..], i - 1, v, m);
    }
  }

  /** X has moved once more than O when O is to move, and as often otherwise. */
  predicate Balanced(b: Board, isXNext: bool) {
    Count(b, X) == Count(b, O) + (if isXNext then 0 else 1)
  }

  /** A click keeps the balance between the marks, unless the computer is
      playing while O is to move: the reply is then a second "O". */
  lemma ClickKeepsBalance(b: Board, index: Index, isXNext: bool, isAgainstComputer: bool, random: real)
    requires 0.0 <= random < 1.0
    requires Balanced(b, isXNext)
    requires !isAgainstComputer || isXNext
    ensures var o := AfterClick(b, index, isXNext, isAgainstComputer, random);
      Balanced(o.board, o.isXNext)
  {
    if b[index] == Empty && Winner(b) == Empty {
      var newBoard := b[index := Mark(isXNext)];
      CountUpdate(b, index, Mark(isXNext), X);
      CountUpdate(b, index, Mark(isXNext), O);
      if isAgainstComputer && Empty in newBoard {
        var c := ComputerMove(newBoard, random);
        CountUpdate(newBoard, c, O, X);
        CountUpdate(newBoard, c, O, O);
      }
    }
  }

  /** The computer does not look at the turn: switched on while O is to move,
      it answers the human's "O" with a second "O" and hands the move to X,
      leaving O one mark ahead. */
  lemma ReplyToOUnbalances(b: Board, index: Index, random: real)
    requires 0.0 <= random < 1.0
    requires Balanced(b, false)
    requires b[index] == Empty && Winner(b) == Empty
    requires Empty in b[index := O]
    ensures var o := AfterClick(b, index, false, true, random);
      o.isXNext && Count(o.board, O) == Count(o.board, X) + 1 && !Balanced(o.board, o.isXNext)
  {
    var newBoard := b[index := Mark(false)];
    CountUpdate(b, index, O, X);
    CountUpdate(b, index, O, O);
    var c := ComputerMove(newBoard, random);
    CountUpdate(newBoard, c, O, X);
    CountUpdate(newBoard, c, O, O);
  }

  // ---------------------------------------------------------------------
  // Status message

  /** The status names the winner if there is one, otherwise reports a draw
      on a full board, otherwise names the player to move. */
  lemma StatusMeaning(b: Board, isXNext: bool)
    ensures Status(b, isXNext) == "Winner: X" <==> Winner(b) == X
    ensures Status(b, isXNext) == "Winner: O" <==> Winner(b) == O
    ensures Status(b, isXNext) == "It's a draw!" <==> Winner(b) == Empty && Full(b)
    ensures Status(b, isXNext) == "Next player: X" <==> Winner(b) == Empty && !Full(b) && isXNext
    ensures Status(b, isXNext) == "Next player: O" <==> Winner(b) == Empty && !Full(b) && !isXNext
  {
    assert "Winner: X"[8] != "Winner: O"[8];
    assert "Next player: X"[13] != "Next player: O"[13];
  }

  // ---------------------------------------------------------------------
  // Scores

  /** Running the winner effect again on the same winner counts nothing more. */
  lemma TallyOnce(seen: Cell, winner: Cell, s: Scores)
    ensures Tally(winner, winner, Tally(seen, winner, s)) == Tally(seen, winner, s)
  {
  }

  /** The two scores together. */
  function Total(s: Scores): nat {
    s.x + s.o
  }

  /** One click on a grid cell, with the value `Math.random()` would return
      if the computer moves. */
  datatype Move = Move(index: Index, random: real)

  /** Every draw of `Math.random()` in a run of clicks lies in [0, 1). */
  predicate Draws(moves: seq<Move>) {
    forall i :: 0 <= i < |moves| ==> 0.0 <= moves[i].random < 1.0
  }

  /** Board, turn and scores once React has settled. */
  datatype State = State(board: Board, isXNext: bool, scores: Scores)

  /** A run of clicks, each followed by the render that runs the winner
      effect, starting from a settled state: the effect last saw the winner
      of the board it starts from. */
  function Replay(st: State, isAgainstComputer: bool, moves: seq<Move>): State
    requires Draws(moves)
    decreases |moves|
  {
    if moves == [] then st
    else
      var o := AfterClick(st.board, moves[0].index, st.isXNext, isAgainstComputer, moves[0].random);
      Replay(State(o.board, o.isXNext, Tally(Winner(st.board), Winner(o.board), st.scores)), isAgainstComputer, moves[1..])
  }

  /** Once the board has a winner, further clicks change nothing, scores included. */
  lemma {:induction false} WonGameIsFrozen(st: State, isAgainstComputer: bool, moves: seq<Move>)
    requires Draws(moves)
    requires Winner(st.board) != Empty
    ensures Replay(st, isAgainstComputer, moves) == st
    decreases |moves|
  {
    if moves != [] {
      IgnoredClick(st.board, moves[0].index, st.isXNext, isAgainstComputer, moves[0].random);
      WonGameIsFrozen(st, isAgainstComputer, moves[1..]);
    }
  }

  /** A game is scored once: from a board without a winner, any run of clicks
      adds one to the score of the winner it ends with, and nothing if it ends
      without one. */
  lemma {:induction false} GameScoredOnce(st: State, isAgainstComputer: bool, moves: seq<Move>)
    requires Draws(moves)
    requires Winner(st.board) == Empty
    ensures var r := Replay(st, isAgainstComputer, moves);
      r.scores == Tally(Empty, Winner(r.board), st.scores) &&
      Total(r.scores) == Total(st.scores) + (if Winner(r.board) == Empty then 0 else 1)
    decreases |moves|
  {
    if moves != [] {
      var o := AfterClick(st.board, moves[0].index, st.isXNext, isAgainstComputer, moves[0].random);
      var next := State(o.board, o.isXNext, Tally(Empty, Winner(o.board), st.scores));
      assert Replay(st, isAgainstComputer, moves) == Replay(next, isAgainstComputer, moves[1..]);
      if Winner(o.board) == Empty {
        GameScoredOnce(next, isAgainstComputer, moves[1..]);
      } else {
        WonGameIsFrozen(next, isAgainstComputer, moves[1..]);
      }
    }
  }
}
