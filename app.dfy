/** The state of the `App` component and its handlers: the board, whose turn
    it is, the scores, the opponent mode, and the winner the score effect last
    saw. Every handler is one atomic transition to the state React settles on;
    the score effect is a method of its own that runs after the render that
    follows a change. */
module Game {
  import opened TicTacToe
  import opened GameProperties

  class App {
    /** The nine cells; a click replaces it by an updated copy. */
    var board: array<Cell>
    var isXNext: bool
    var scores: Scores
    var isAgainstComputer: bool
    /** The `winner` dependency the score effect compared against when it
        last ran; React keeps it between renders. */
    var effectWinner: Cell

    ghost predicate Valid()
      reads this
    {
      board.Length == 9
    }

    /** React has settled: the score effect has run on the current winner. It
        holds between handlers, and fails only between a handler that changes
        the board and the render that runs the effect. */
    ghost predicate Settled()
      reads this, board
      requires Valid()
    {
      effectWinner == Winner(Cells())
    }

    /** The board as a value. */
    ghost function Cells(): Board
      reads this, board
      requires Valid()
    {
      board[..]
    }

    /** The initial state: an empty board, X to move, no scores, against a
        human; the effect's first run sees no winner. */
    constructor ()
      ensures Valid() && fresh(board)
      ensures Cells() == NewBoard && isXNext
      ensures scores == Scores(0, 0) && !isAgainstComputer && effectWinner == Empty
      ensures Settled()
    {
      board := new Cell[9](_ => Empty);
      isXNext := true;
      scores := Scores(0, 0);
      isAgainstComputer := false;
      effectWinner := Empty;
      OpenBoard(NewBoard);
    }

    /** `handleClick(index)`, with `random` the value `Math.random()` would
        return if the computer moves. Board and turn become what `AfterClick`
        says; an accepted click installs a fresh copy of the board and leaves
        the old array as it was. */
    method HandleClick(index: Index, random: real)
      requires Valid()
      requires 0.0 <= random < 1.0
      modifies this
      ensures Valid()
      ensures var o := AfterClick(old(Cells()), index, old(isXNext), isAgainstComputer, random);
        Cells() == o.board && isXNext == o.isXNext
      ensures board == old(board) || fresh(board)
      ensures scores == old(scores) && isAgainstComputer == old(isAgainstComputer)
      ensures effectWinner == old(effectWinner)
    {
      ghost var before: Board := board[..];
      var winner := CalculateWinner(board);
      if board[index] != Empty || winner != Empty {
        return;
      }
      var newBoard := new Cell[9];
      forall i | 0 <= i < 9 {
        newBoard[i] := board[i];
      }
      newBoard[index] := Mark(isXNext);
      ghost var marked: Board := before[index := Mark(isXNext)];
      assert newBoard[..] == marked;
      board := newBoard;
      isXNext := !isXNext;

      if isAgainstComputer && winner == Empty && Empty in newBoard[..] {
        var computerMove := ComputerMove(newBoard[..], random);
        newBoard[computerMove] := O;
        isXNext := true;
        assert board[..] == marked[computerMove := O];
      }
    }

    /** The score effect: when the winner differs from the one it last saw it
        records the new one and, if it is a mark, adds one to that mark's score. */
    method WinnerEffect()
      requires Valid()
      modifies this`effectWinner, this`scores
      ensures effectWinner == Winner(Cells())
      ensures scores == Tally(old(effectWinner), effectWinner, old(scores))
    {
      var winner := CalculateWinner(board);
      if winner != effectWinner {
        effectWinner := winner;
        if winner != Empty {
          scores := if winner == X then scores.(x := scores.x + 1) else scores.(o := scores.o + 1);
        }
      }
    }

    /** A click followed by the render it causes, which runs the score effect.
        From a settled state the effect compares the winner after the click
        with the winner before it, and an ignored click scores nothing. */
    method Click(index: Index, random: real)
      requires Valid()
      requires 0.0 <= random < 1.0
      modifies this
      ensures Valid() && Settled()
      ensures var o := AfterClick(old(Cells()), index, old(isXNext), isAgainstComputer, random);
        Cells() == o.board && isXNext == o.isXNext
      ensures isAgainstComputer == old(isAgainstComputer)
      ensures scores == Tally(old(effectWinner), Winner(Cells()), old(scores))
      ensures old(Settled()) ==> scores == Tally(old(Winner(Cells())), Winner(Cells()), old(scores))
      ensures old(Settled()) && (old(Cells()[index]) != Empty || old(Winner(Cells())) != Empty) ==>
        Cells() == old(Cells()) && isXNext == old(isXNext) && scores == old(scores)
    {
      ghost var before := Cells();
      HandleClick(index, random);
      WinnerEffect();
      if before[index] != Empty || Winner(before) != Empty {
        IgnoredClick(before, index, old(isXNext), isAgainstComputer, random);
      }
    }

    /** `resetGame`: an empty board and X to move; scores and mode stay. */
    method ResetGame()
      requires Valid()
      modifies this`board, this`isXNext
      ensures Valid() && fresh(board)
      ensures Cells() == NewBoard && isXNext
    {
      board := new Cell[9](_ => Empty);
      isXNext := true;
    }

    /** The "Reset Game" button and the render it causes: the effect sees the
        winner of the empty board, null, records it and scores nothing, so the
        scores stay and the next game starts settled with no winner seen. */
    method NewGame()
      requires Valid()
      modifies this`board, this`isXNext, this`effectWinner, this`scores
      ensures Valid() && Settled() && fresh(board)
      ensures Cells() == NewBoard && isXNext
      ensures scores == old(scores) && effectWinner == Empty
    {
      ResetGame();
      OpenBoard(Cells());
      WinnerEffect();
    }

    /** `resetScores`: both scores back to 0; nothing else changes. */
    method ResetScores()
      modifies this`scores
      ensures scores == Scores(0, 0)
    {
      scores := Scores(0, 0);
    }

    /** The button that switches between playing a human and the computer. */
    method ToggleMode()
      modifies this`isAgainstComputer
      ensures isAgainstComputer == !old(isAgainstComputer)
    {
      isAgainstComputer := !isAgainstComputer;
    }

    /** `getStatus()` on the current state. */
    method GetStatus() returns (status: string)
      requires Valid()
      ensures status == Status(Cells(), isXNext)
    {
      var winner := CalculateWinner(board);
      if winner != Empty {
        status := "Winner: " + MarkText(winner);
      } else if forall i :: 0 <= i < 9 ==> board[i] != Empty {
        status := "It's a draw!";
      } else {
        status := "Next player: " + MarkText(Mark(isXNext));
      }
    }
  }

  /** Every line of the table passes through one of the cells 2, 5, 6, 7 and
      8, so while those are null nobody has won. */
  lemma OpenBoard(b: Board)
    requires b[2] == Empty && b[5] == Empty && b[6] == Empty && b[7] == Empty && b[8] == Empty
    ensures Winner(b) == Empty
  {
    forall k | 0 <= k < |Lines| ensures !Complete(b, Lines[k]) {
    }
  }

  /** The first four clicks of a game against a human: X at 0 and 1, O at 3 and 4. */
  method OpeningScenario() returns (app: App)
    ensures fresh(app) && app.Valid() && app.Cells() == [X, X, Empty, O, O, Empty, Empty, Empty, Empty]
    ensures app.isXNext && !app.isAgainstComputer
    ensures app.scores == Scores(0, 0) && app.effectWinner == Empty
  {
    app := new App();
    ghost var b: Board;
    b := app.Cells();
    assert AfterClick(b, 0, true, false, 0.0) == Outcome(b[0 := Mark(true)], false) by {
      OpenBoard(b);
      HumanMove(b, 0, true, 0.0);
    }
    app.Click(0, 0.0);
    OpenBoard(app.Cells());
    b := app.Cells();
    assert AfterClick(b, 3, false, false, 0.0) == Outcome(b[3 := Mark(false)], true) by {
      OpenBoard(b);
      HumanMove(b, 3, false, 0.0);
    }
    app.Click(3, 0.0);
    OpenBoard(app.Cells());
    b := app.Cells();
    assert AfterClick(b, 1, true, false, 0.0) == Outcome(b[1 := Mark(true)], false) by {
      OpenBoard(b);
      HumanMove(b, 1, true, 0.0);
    }
    app.Click(1, 0.0);
    OpenBoard(app.Cells());
    b := app.Cells();
    assert AfterClick(b, 4, false, false, 0.0) == Outcome(b[4 := Mark(false)], true) by {
      OpenBoard(b);
      HumanMove(b, 4, false, 0.0);
    }
    app.Click(4, 0.0);
    OpenBoard(app.Cells());
  }

  /** A run of clicks, each followed by the render that runs the score effect,
      from a settled state: board, turn and scores end as `Replay` says, which
      `GameScoredOnce` and `WonGameIsFrozen` characterise. */
  method Play(app: App, moves: seq<Move>)
    requires app.Valid() && app.Settled() && Draws(moves)
    modifies app
    ensures app.Valid() && app.Settled() && app.isAgainstComputer == old(app.isAgainstComputer)
    ensures State(app.Cells(), app.isXNext, app.scores) ==
      Replay(old(State(app.Cells(), app.isXNext, app.scores)), app.isAgainstComputer, moves)
  {
    ghost var start := State(app.Cells(), app.isXNext, app.scores);
    for i := 0 to |moves|
      invariant app.Valid() && app.Settled() && app.isAgainstComputer == old(app.isAgainstComputer)
      invariant Draws(moves[i..])
      invariant Replay(State(app.Cells(), app.isXNext, app.scores), app.isAgainstComputer, moves[i..]) ==
        Replay(start, app.isAgainstComputer, moves)
    {
      assert moves[i..][0] == moves[i] && moves[i..][1..] == moves[i + 1..];
      app.Click(moves[i].index, moves[i].random);
    }
  }

  /** X completes the top row: the win is scored once, a second run of the
      effect adds nothing, and a new game keeps the score. */
  method ScoreScenario()
  {
    var app := OpeningScenario();
    ghost var opening := app.Cells();
    ghost var won := opening[2 := X];
    assert AfterClick(opening, 2, true, false, 0.0) == Outcome(won, false) by {
      OpenBoard(opening);
      HumanMove(opening, 2, true, 0.0);
    }
    assert Winner(won) == X by {
      assert FirstComplete(won, 0);
      FirstLineDecides(won, 0);
    }
    app.Click(2, 0.0);
    assert app.scores == Scores(1, 0) && app.effectWinner == X;
    app.WinnerEffect();
    assert app.scores == Scores(1, 0);
    app.NewGame();
    assert app.scores == Scores(1, 0) && app.Settled();
  }
}
