/**
 * The board logic shared by the standalone game (game/game.py) and the gym
 * environment (gym_tictactoe/envs/tictactoe_env.py): nine cells in row-major
 * order, the eight winning lines, and what `check_winner` computes from them.
 */
module Board {
  import opened Wrappers

  /** A cell holds the empty string `''` or one of the marks `'X'` and `'O'`. */
  datatype Cell = Empty | X | O

  /** A cell index of the fixed 3x3 board. */
  type Index = i: int | 0 <= i < 9

  type Line = (Index, Index, Index)

  /** The winning triples in the order both `check_winner` loops scan them: rows, columns, diagonals. */
  const Lines: seq<Line> := [(0, 1, 2), (3, 4, 5), (6, 7, 8), (0, 3, 6), (1, 4, 7), (2, 5, 8), (0, 4, 8), (2, 4, 6)]

  /** `[''] * 9` */
  const EmptyBoard: seq<Cell> := [Empty, Empty, Empty, Empty, Empty, Empty, Empty, Empty, Empty]

  /** The result of `check_winner`: a mark, the draw value (`'Cats Game'` in the game, `0` in the environment), or `None`. */
  datatype Outcome = Win(mark: Cell) | Draw | Ongoing

  /** `board[i] == board[j] == board[k] and board[k] != ''` */
  predicate Completed(b: seq<Cell>, l: Line)
    requires |b| == 9
  {
    b[l.0] == b[l.1] && b[l.1] == b[l.2] && b[l.2] != Empty
  }

  predicate HasLine(b: seq<Cell>)
    requires |b| == 9
  {
    exists j :: 0 <= j < |Lines| && Completed(b, Lines[j])
  }

  /** The position in `Lines` of the first completed line at or after position `k`. */
  function FirstLineFrom(b: seq<Cell>, k: nat): (r: Option<nat>)
    requires |b| == 9 && k <= |Lines|
    ensures r.Some? ==> k <= r.value < |Lines| && Completed(b, Lines[r.value])
    ensures forall j :: k <= j < |Lines| && (r.None? || j < r.value) ==> !Completed(b, Lines[j])
    decreases |Lines| - k
  {
    if k == |Lines| then None
    else if Completed(b, Lines[k]) then Some(k)
    else FirstLineFrom(b, k + 1)
  }

  /**
   * What `check_winner` returns: the mark of the first completed line; else the
   * draw value when no cell is empty; else `None`. A completed line takes
   * precedence over a full board.
   */
  function OutcomeOf(b: seq<Cell>): (o: Outcome)
    requires |b| == 9
    ensures o.Win? <==> HasLine(b)
    ensures o.Win? ==> o.mark != Empty
    ensures o.Win? ==>
      exists j :: 0 <= j < |Lines| && Completed(b, Lines[j]) && o.mark == b[Lines[j].0]
                  && forall i :: 0 <= i < j ==> !Completed(b, Lines[i])
    ensures o == Draw <==> !HasLine(b) && Empty !in b
    ensures o == Ongoing <==> !HasLine(b) && Empty in b
  {
    match FirstLineFrom(b, 0)
    case Some(j) => Win(b[Lines[j].0])
    case None => if Empty !in b then Draw else Ongoing
  }

  /** A mark placed on a board without a completed line can only complete lines of that mark, all through the placed cell. */
  lemma PlacedMarkOwnsNewLines(b: seq<Cell>, a: Index, m: Cell)
    requires |b| == 9 && m != Empty && !HasLine(b)
    ensures forall j :: 0 <= j < |Lines| && Completed(b[a := m], Lines[j]) ==>
      a in {Lines[j].0, Lines[j].1, Lines[j].2} && b[a := m][Lines[j].0] == m
  {
    forall j | 0 <= j < |Lines| && Completed(b[a := m], Lines[j])
      ensures a in {Lines[j].0, Lines[j].1, Lines[j].2} && b[a := m][Lines[j].0] == m
    {
      assert !Completed(b, Lines[j]);
    }
  }

  /** Hence the winner reported right after such a placement is the placed mark. */
  lemma PlacedMarkWins(b: seq<Cell>, a: Index, m: Cell)
    requires |b| == 9 && m != Empty && !HasLine(b)
    ensures OutcomeOf(b[a := m]).Win? ==> OutcomeOf(b[a := m]).mark == m
  {
    PlacedMarkOwnsNewLines(b, a, m);
  }

  /** The number of cells holding `c`. */
  function Count(b: seq<Cell>, c: Cell): (n: nat)
    ensures n <= |b|
    ensures n == 0 <==> c !in b
  {
    if b == [] then 0
    else Count(b[..|b| - 1], c) + (if b[|b| - 1] == c then 1 else 0)
  }

  /** Writing mark `m` on an empty cell adds one `m` and leaves the count of every other mark alone. */
  lemma {:induction false} CountAfterPlace(b: seq<Cell>, i: int, m: Cell, c: Cell)
    requires 0 <= i < |b| && b[i] == Empty && c != Empty
    ensures Count(b[i := m], c) == Count(b, c) + (if c == m then 1 else 0)
  {
    var last := |b| - 1;
    var b' := b[i := m];
    assert Count(b, c) == Count(b[..last], c) + (if b[last] == c then 1 else 0);
    assert Count(b', c) == Count(b'[..last], c) + (if b'[last] == c then 1 else 0);
    if i == last {
      assert b[i := m][..last] == b[..last];
    } else {
      assert b[i := m][..last] == b[..last][i := m];
      CountAfterPlace(b[..last], i, m, c);
    }
  }

  /** `X` moves first, so the number of `X`s minus the number of `O`s. */
  function Lead(b: seq<Cell>): int
  {
    Count(b, X) - Count(b, O)
  }
}
