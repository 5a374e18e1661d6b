/**
 * The gym environment of gym_tictactoe/envs/tictactoe_env.py, fixed to the
 * 3x3 board: the state `(board, current_player, done)`, the observation and
 * info it reports, and the `step` transition with its rewards. One policy
 * plays both marks, so every reward is from the point of view of the player
 * who has just moved.
 */
module Env {
  import opened Wrappers
  import opened Board

  /** The reward of the illegal-move path (an `int` in the source). */
  const IllegalPenalty: real := -10.0

  /** `get_mark`: player 1 plays `'X'`, any other player `'O'`. */
  function MarkOf(player: int): (m: Cell)
    ensures m != Empty
    ensures m == X <==> player == 1
  {
    if player == 1 then X else O
  }

  /** The `{'X': 1, 'O': 2, '': 0}` mapping of `_get_obs`. */
  function Encode(c: Cell): int
  {
    match c
    case Empty => 0
    case X => 1
    case O => 2
  }

  /** `_get_obs`: the board encoded cell by cell, a point of the space `MultiDiscrete([3] * 9)`. */
  function Observation(b: seq<Cell>): (obs: seq<int>)
    ensures |obs| == |b|
    ensures forall i :: 0 <= i < |b| ==> 0 <= obs[i] <= 2 && (obs[i] == 0 <==> b[i] == Empty)
  {
    seq(|b|, i requires 0 <= i < |b| => Encode(b[i]))
  }

  /** Reads a board back from its observation. */
  function Decode(obs: seq<int>): (b: seq<Cell>)
    ensures |b| == |obs|
  {
    seq(|obs|, i requires 0 <= i < |obs| => if obs[i] == 1 then X else if obs[i] == 2 then O else Empty)
  }

  lemma DecodeObservation(b: seq<Cell>)
    ensures Decode(Observation(b)) == b
  {
    assert forall i :: 0 <= i < |b| ==> Decode(Observation(b))[i] == b[i];
  }

  /** Equal boards give equal observations, and so equal table keys, and distinct boards distinct ones. */
  lemma ObservationInjective(b1: seq<Cell>, b2: seq<Cell>)
    ensures Observation(b1) == Observation(b2) <==> b1 == b2
  {
    if Observation(b1) == Observation(b2) {
      DecodeObservation(b1);
      DecodeObservation(b2);
    }
  }

  /** The dictionary `_get_info` returns; `None` stands for a key that is not set. */
  datatype Info = Info(currentPlayer: int, winner: Option<Cell>, winningCombo: Option<Line>)

  /**
   * `_get_info`: always the current player; the winner and the first completed
   * line only when a line is completed. A draw reports no winner, because the
   * draw value `0` is false in the test `if winner`.
   */
  function InfoOf(b: seq<Cell>, player: int): (info: Info)
    requires |b| == 9
    ensures info.currentPlayer == player
    ensures info.winner.Some? <==> HasLine(b)
    ensures info.winningCombo.Some? <==> HasLine(b)
    ensures OutcomeOf(b) == Draw ==> info.winner.None?
    ensures info.winningCombo.Some? ==>
      exists k :: 0 <= k < |Lines| && info.winningCombo.value == Lines[k] && Completed(b, Lines[k])
                  && info.winner == Some(b[Lines[k].0])
                  && forall j :: 0 <= j < k ==> !Completed(b, Lines[j])
  {
    match OutcomeOf(b)
    case Win(m) => Info(player, Some(m), Some(Lines[FirstLineFrom(b, 0).value]))
    case _ => Info(player, None, None)
  }

  /** The environment state `(board, current_player, done)`. */
  datatype EnvState = EnvState(board: seq<Cell>, player: int, done: bool)

  const Initial: EnvState := EnvState(EmptyBoard, 1, false)

  /**
   * What every reachable state satisfies: while the episode runs no line is
   * completed; a finished episode has a winner or a full board; and the marks
   * are balanced, `'X'` being one ahead exactly when player 2 is to move in a
   * running episode or player 1 has just ended it.
   */
  predicate Inv(s: EnvState)
  {
    && |s.board| == 9
    && (s.player == 1 || s.player == 2)
    && (!s.done ==> !HasLine(s.board))
    && (s.done ==> OutcomeOf(s.board) != Ongoing)
    && Lead(s.board) == (if (s.player == 1) != s.done then 0 else 1)
  }

  lemma InitialInv()
    ensures Inv(Initial)
  {
    assert Empty in EmptyBoard by { assert EmptyBoard[0] == Empty; }
    assert X !in EmptyBoard && O !in EmptyBoard;
  }

  /** The outcome of one `step`: the next state, the reward and `terminated`. */
  datatype Transition = Transition(next: EnvState, reward: real, terminated: bool)

  /**
   * `step(action)` on a state: a move after the end of the episode or onto an
   * occupied cell costs the penalty and changes nothing, not even `done`, and
   * reports `terminated` false; otherwise the mover's mark is placed and the
   * board judged.
   */
  function StepSpec(s: EnvState, action: Index): (t: Transition)
    requires |s.board| == 9
    ensures t.reward == IllegalPenalty <==> s.done || s.board[action] != Empty
    ensures s.done || s.board[action] != Empty ==> t.next == s && !t.terminated
    ensures !(s.done || s.board[action] != Empty) ==>
      t.next.board == s.board[action := MarkOf(s.player)] && t.terminated == t.next.done
  {
    if s.done || s.board[action] != Empty then Transition(s, IllegalPenalty, false)
    else
      var mark := MarkOf(s.player);
      var b := s.board[action := mark];
      match OutcomeOf(b)
      case Win(w) => Transition(EnvState(b, s.player, true), if w == mark then 1.0 else -1.0, true)
      case Draw => Transition(EnvState(b, s.player, true), 0.5, true)
      case Ongoing => Transition(EnvState(b, 3 - s.player, false), 0.0, false)
  }

  /** Every step keeps the state invariant. */
  lemma StepPreservesInv(s: EnvState, action: Index)
    requires Inv(s)
    ensures Inv(StepSpec(s, action).next)
  {
    if !s.done && s.board[action] == Empty {
      var m := MarkOf(s.player);
      CountAfterPlace(s.board, action, m, X);
      CountAfterPlace(s.board, action, m, O);
    }
  }

  /**
   * The rewards of a legal step from a reachable state: a completed line is
   * always the mover's own (+1.0), so the -1.0 branch is never taken; a full
   * board without a line is a draw (+0.5) and keeps the mover; otherwise the
   * game goes on (0.0) and the move passes to `3 - player`.
   */
  lemma LegalStepRewards(s: EnvState, action: Index)
    requires Inv(s) && !s.done && s.board[action] == Empty
    ensures var t := StepSpec(s, action);
      && (HasLine(t.next.board) ==> t.reward == 1.0 && t.next.done && t.next.player == s.player)
      && (OutcomeOf(t.next.board) == Draw ==> t.reward == 0.5 && t.next.done && t.next.player == s.player)
      && (OutcomeOf(t.next.board) == Ongoing ==> t.reward == 0.0 && !t.next.done && t.next.player == 3 - s.player)
  {
    PlacedMarkWins(s.board, action, MarkOf(s.player));
  }

  /** No step from a reachable state ever yields -1.0. */
  lemma NoLossReward(s: EnvState, action: Index)
    requires Inv(s)
    ensures StepSpec(s, action).reward in {IllegalPenalty, 1.0, 0.5, 0.0}
  {
    if !s.done && s.board[action] == Empty {
      LegalStepRewards(s, action);
    }
  }

  class TicTacToeEnv {
    var board: seq<Cell>
    var currentPlayer: int
    var done: bool

    function State(): EnvState
      reads this
    {
      EnvState(board, currentPlayer, done)
    }

    predicate Valid()
      reads this
    {
      Inv(State())
    }

    constructor ()
      ensures Valid() && State() == Initial
    {
      board := EmptyBoard;
      currentPlayer := 1;
      done := false;
      InitialInv();
    }

    /** `check_winner`: scans the eight lines in order, then tests for a full board (the draw value is `0`). */
    method CheckWinner() returns (w: Outcome)
      requires |board| == 9
      ensures w == OutcomeOf(board)
    {
      var n := 0;
      while n < |Lines|
        invariant 0 <= n <= |Lines|
        invariant FirstLineFrom(board, n) == FirstLineFrom(board, 0)
      {
        var (i, j, k) := Lines[n];
        if board[i] == board[j] && board[j] == board[k] && board[k] != Empty {
          return Win(board[i]);
        }
        n := n + 1;
      }
      if Empty !in board {
        return Draw;
      }
      return Ongoing;
    }

    /** `_get_info`: asks `check_winner`, and on a winner looks for the first completed line. */
    method GetInfo() returns (info: Info)
      requires Valid()
      ensures info == InfoOf(board, currentPlayer)
    {
      info := Info(currentPlayer, None, None);
      var winner := CheckWinner();
      if winner.Win? {
        info := info.(winner := Some(winner.mark));
        var n := 0;
        while n < |Lines|
          invariant 0 <= n <= |Lines|
          invariant FirstLineFrom(board, n) == FirstLineFrom(board, 0)
          invariant info == Info(currentPlayer, Some(winner.mark), None)
        {
          var (i, j, k) := Lines[n];
          if board[i] == board[j] && board[j] == board[k] && board[k] != Empty {
            info := info.(winningCombo := Some(Lines[n]));
            break;
          }
          n := n + 1;
        }
      }
    }

    /** `reset`: an empty board, player 1 to move, a running episode. */
    method Reset() returns (obs: seq<int>, info: Info)
      modifies this
      ensures Valid() && State() == Initial
      ensures obs == [0, 0, 0, 0, 0, 0, 0, 0, 0]
      ensures info == Info(1, None, None)
    {
      board := EmptyBoard;
      currentPlayer := 1;
      done := false;
      InitialInv();
      obs := Observation(board);
      info := GetInfo();
    }

    /** `step`: the transition `StepSpec`, then the observation and info of the new state. */
    method Step(action: Index) returns (obs: seq<int>, reward: real, terminated: bool, truncated: bool, info: Info)
      requires Valid()
      modifies this
      ensures Valid()
      ensures var t := StepSpec(old(State()), action);
        State() == t.next && reward == t.reward && terminated == t.terminated
      ensures !truncated
      ensures obs == Observation(board) && info == InfoOf(board, currentPlayer)
    {
      if done || board[action] != Empty {
        obs := Observation(board);
        info := GetInfo();
        return obs, IllegalPenalty, false, false, info;
      }
      ghost var before := State();
      StepPreservesInv(before, action);
      var mark := MarkOf(currentPlayer);
      board := board[action := mark];
      var winner := CheckWinner();
      if winner.Win? {
        done := true;
        reward := if winner.mark == mark then 1.0 else -1.0;
      } else if winner == Draw {
        done := true;
        reward := 0.5;
      } else {
        done := false;
        reward := 0.0;
        currentPlayer := 3 - currentPlayer;
      }
      obs := Observation(board);
      info := GetInfo();
      return obs, reward, done, false, info;
    }
  }

  /**
   * A fresh episode: all-zero observation; a move at cell 0 places `'X'` there and
   * passes the move to player 2; the same move again is refused with the penalty
   * and leaves the state as it was.
   */
  method RepeatedMoveScenario() returns (obs0: seq<int>, r1: real, t1: bool, r2: real, t2: bool,
                                         ghost s1: EnvState, ghost s2: EnvState)
    ensures obs0 == [0, 0, 0, 0, 0, 0, 0, 0, 0]
    ensures r1 == 0.0 && !t1
    ensures s1 == EnvState(EmptyBoard[0 := X], 2, false)
    ensures r2 == IllegalPenalty && !t2
    ensures s2 == s1
  {
    var env := new TicTacToeEnv();
    var info, obs, truncated;
    obs0, info := env.Reset();
    obs, r1, t1, truncated, info := env.Step(0);
    s1 := env.State();
    obs, r2, t2, truncated, info := env.Step(0);
    s2 := env.State();
  }

  /** `'X'` holds cells 0 and 1 and `'O'` cells 3 and 4: `'X'` at cell 2 completes the top row for +1.0. */
  lemma RowWinStep()
    ensures StepSpec(EnvState([X, X, Empty, O, O, Empty, Empty, Empty, Empty], 1, false), 2)
         == Transition(EnvState([X, X, X, O, O, Empty, Empty, Empty, Empty], 1, true), 1.0, true)
  {
  }

  /** The info returned with that win names `'X'` and the top row. */
  lemma RowWinInfo()
    ensures InfoOf([X, X, X, O, O, Empty, Empty, Empty, Empty], 1) == Info(1, Some(X), Some((0, 1, 2)))
  {
  }

  /** After the moves 0, 1, 2, 5, 3, 6, 4, 8, `'X'` at cell 7 fills the board without a line for +0.5. */
  lemma DrawStep()
    ensures StepSpec(EnvState([X, O, X, X, X, O, O, Empty, O], 1, false), 7)
         == Transition(EnvState([X, O, X, X, X, O, O, X, O], 1, true), 0.5, true)
  {
  }

  /** The info returned with that draw names neither a winner nor a line. */
  lemma DrawInfo()
    ensures InfoOf([X, O, X, X, X, O, O, X, O], 1) == Info(1, None, None)
  {
  }
}
