/**
 * The standalone game of game/game.py: a nine-cell board and the mark to move,
 * `'X'` first. Moves alternate strictly; the game itself never stops accepting
 * moves after a win, only a full board does.
 */
module Game {
  import opened Wrappers
  import opened Board
  import Indices

  /** `'O' if current_player == 'X' else 'X'` */
  function Toggle(p: Cell): (q: Cell)
    ensures q != Empty && q != p
  {
    if p == X then O else X
  }

  /**
   * The class invariant: `'X'` is to move exactly when both marks have been
   * played equally often, and otherwise `'X'` is one mark ahead.
   */
  predicate Balanced(b: seq<Cell>, player: Cell)
  {
    |b| == 9 && player != Empty && Lead(b) == (if player == X then 0 else 1)
  }

  lemma EmptyBoardBalanced()
    ensures Balanced(EmptyBoard, X)
  {
    assert X !in EmptyBoard && O !in EmptyBoard;
  }

  /** One successful `make_move` keeps the marks balanced. */
  lemma PlacePreservesBalance(b: seq<Cell>, i: int, p: Cell)
    requires Balanced(b, p) && 0 <= i < 9 && b[i] == Empty
    ensures Balanced(b[i := p], Toggle(p))
  {
    CountAfterPlace(b, i, p, X);
    CountAfterPlace(b, i, p, O);
  }

  class TicTacToe {
    var board: seq<Cell>
    var currentPlayer: Cell

    predicate Valid()
      reads this
    {
      Balanced(board, currentPlayer)
    }

    constructor ()
      ensures Valid()
      ensures board == EmptyBoard && currentPlayer == X
    {
      board := EmptyBoard;
      currentPlayer := X;
      EmptyBoardBalanced();
    }

    /** Clears the board, gives the move back to `'X'` and returns a copy of the board. */
    method Reset() returns (copy: seq<Cell>)
      modifies this
      ensures Valid()
      ensures board == EmptyBoard && currentPlayer == X
      ensures copy == board
    {
      board := EmptyBoard;
      currentPlayer := X;
      EmptyBoardBalanced();
      copy := board;
    }

    /** `get_valid_moves`: the indices of the empty cells, ascending. */
    function ValidMoves(): (moves: seq<int>)
      reads this
      ensures forall i :: i in moves <==> 0 <= i < |board| && board[i] == Empty
      ensures Indices.StrictlyIncreasing(moves)
    {
      Indices.IndicesOf(board, Empty)
    }

    /**
     * Places the mover's mark when `index` is one of the valid moves and passes
     * the move on; any other index, in range or not, is refused without change.
     */
    method MakeMove(index: int) returns (ok: bool)
      requires Valid()
      modifies this
      ensures Valid()
      ensures ok <==> 0 <= index < 9 && old(board)[index] == Empty
      ensures ok ==> board == old(board)[index := old(currentPlayer)]
                     && currentPlayer == Toggle(old(currentPlayer))
      ensures !ok ==> board == old(board) && currentPlayer == old(currentPlayer)
    {
      if index in ValidMoves() {
        PlacePreservesBalance(board, index, currentPlayer);
        board := board[index := currentPlayer];
        currentPlayer := if currentPlayer == X then O else X;
        return true;
      }
      return false;
    }

    /** `check_winner`: scans the eight lines in order, then tests for a full board. */
    method CheckWinner() returns (w: Outcome)
      requires |board| == 9
      ensures w == OutcomeOf(board)
    {
      var n := 0;
      while n < |Lines|
        invariant 0 <= n <= |Lines|
        invariant FirstLineFrom(board, n) == FirstLineFrom(board, 0)
      {
        var (i, j, k) := Lines[n];
        if board[i] == board[j] && board[j] == board[k] && board[k] != Empty {
          return Win(board[i]);
        }
        n := n + 1;
      }
      if Empty !in board {
        return Draw;
      }
      return Ongoing;
    }
  }

  /** With only cell 0 taken, the empty cells are 1 to 8, ascending. */
  lemma EmptyCellsAfterFirstMove()
    ensures Indices.IndicesOf(EmptyBoard[0 := X], Empty) == [1, 2, 3, 4, 5, 6, 7, 8]
  {
    var b := EmptyBoard[0 := X];
    var moves := Indices.IndicesOf(b, Empty);
    var expected := [1, 2, 3, 4, 5, 6, 7, 8];
    forall i ensures i in moves <==> i in expected {
      if 1 <= i < 9 {
        assert expected[i - 1] == i;
      }
    }
    SameIncreasing(moves, expected);
  }

  /** After one move at cell 0, the cells 1 to 8 are the valid moves. */
  method ValidMovesScenario() returns (moves: seq<int>)
    ensures moves == [1, 2, 3, 4, 5, 6, 7, 8]
  {
    var game := new TicTacToe();
    var ok := game.MakeMove(0);
    moves := game.ValidMoves();
    EmptyCellsAfterFirstMove();
  }

  /** Two strictly increasing sequences with the same elements are equal. */
  lemma {:induction false} SameIncreasing(r: seq<int>, s: seq<int>)
    requires Indices.StrictlyIncreasing(r) && Indices.StrictlyIncreasing(s)
    requires forall i :: i in r <==> i in s
    ensures r == s
  {
    if r != [] && s != [] {
      SameHeads(r, s);
      SameTails(r, s);
      SameIncreasing(r[1..], s[1..]);
      assert r == [r[0]] + r[1..] && s == [s[0]] + s[1..];
    } else {
      assert forall t: seq<int> :: |t| > 0 ==> t[0] in t;
    }
  }

  /** Both start with the least element they share. */
  lemma SameHeads(r: seq<int>, s: seq<int>)
    requires Indices.StrictlyIncreasing(r) && Indices.StrictlyIncreasing(s)
    requires forall i :: i in r <==> i in s
    requires r != [] && s != []
    ensures r[0] == s[0]
  {
    assert r[0] in r && s[0] in s;
    var k :| 0 <= k < |s| && s[k] == r[0];
    var l :| 0 <= l < |r| && r[l] == s[0];
    assert s[0] <= s[k] && r[0] <= r[l];
  }

  /** Dropping the shared head leaves the same elements on both sides. */
  lemma SameTails(r: seq<int>, s: seq<int>)
    requires Indices.StrictlyIncreasing(r) && Indices.StrictlyIncreasing(s)
    requires forall i :: i in r <==> i in s
    requires r != [] && s != [] && r[0] == s[0]
    ensures forall i :: i in r[1..] <==> i in s[1..]
  {
    forall i ensures i in r[1..] <==> i in s[1..] {
      if i in r[1..] {
        var k :| 1 <= k < |r| && r[k] == i;
        assert i in r;
        var l :| 0 <= l < |s| && s[l] == i;
        assert s[1..][l - 1] == i;
      }
      if i in s[1..] {
        var l :| 1 <= l < |s| && s[l] == i;
        assert i in s;
        var k :| 0 <= k < |r| && r[k] == i;
        assert r[1..][k - 1] == i;
      }
    }
  }

  /** Marks written alternately on cells 0, 1, 3, 4, 6 leave `'X'` on the whole left column. */
  lemma ColumnPosition()
    ensures EmptyBoard[0 := X][1 := O][3 := X][4 := O][6 := X]
         == [X, O, Empty, X, O, Empty, X, Empty, Empty]
  {
  }

  /** On that board the left column is the first completed line. */
  lemma ColumnOutcome()
    ensures OutcomeOf([X, O, Empty, X, O, Empty, X, Empty, Empty]) == Win(X)
  {
  }

  /** Moves 0, 1, 3, 4, 6: `'X'` completes the left column. */
  method ColumnWinScenario() returns (w: Outcome)
    ensures w == Win(X)
  {
    var game := new TicTacToe();
    var ok := game.MakeMove(0);
    ok := game.MakeMove(1);
    ok := game.MakeMove(3);
    ok := game.MakeMove(4);
    ok := game.MakeMove(6);
    ColumnPosition();
    ColumnOutcome();
    assert game.board == [X, O, Empty, X, O, Empty, X, Empty, Empty];
    w := game.CheckWinner();
  }

  /** Marks written alternately on cells 0, 1, 2, 5, 3, 6, 4, 8, 7 fill the board with no completed line. */
  lemma DrawPosition()
    ensures EmptyBoard[0 := X][1 := O][2 := X][5 := O][3 := X][6 := O][4 := X][8 := O][7 := X]
         == [X, O, X, X, X, O, O, X, O]
  {
  }

  /** That full board has no completed line: the draw value. */
  lemma DrawOutcome()
    ensures OutcomeOf([X, O, X, X, X, O, O, X, O]) == Draw
  {
  }

  /** Moves 0, 1, 2, 5, 3, 6, 4, 8, 7 fill the board without a line: `'Cats Game'`. */
  method DrawScenario() returns (w: Outcome)
    ensures w == Draw
  {
    var game := new TicTacToe();
    var ok := game.MakeMove(0);
    ok := game.MakeMove(1);
    ok := game.MakeMove(2);
    ok := game.MakeMove(5);
    ok := game.MakeMove(3);
    ok := game.MakeMove(6);
    ok := game.MakeMove(4);
    ok := game.MakeMove(8);
    ok := game.MakeMove(7);
    DrawPosition();
    DrawOutcome();
    assert game.board == [X, O, X, X, X, O, O, X, O];
    w := game.CheckWinner();
  }
}
