/**
 * The indices of a sequence at which a given value stands, in ascending order:
 * `[i for i, cell in enumerate(board) if cell == '']` in game/game.py and
 * `np.flatnonzero(q_values == max_q_value)` in ai/agent.py.
 */
module Indices {

  predicate StrictlyIncreasing(r: seq<int>) {
    forall j, k :: 0 <= j < k < |r| ==> r[j] < r[k]
  }

  function IndicesOf<T(==)>(s: seq<T>, x: T): (r: seq<int>)
    ensures forall i :: i in r <==> 0 <= i < |s| && s[i] == x
    ensures StrictlyIncreasing(r)
  {
    if s == [] then []
    else
      var front := IndicesOf(s[..|s| - 1], x);
      assert forall j :: 0 <= j < |front| ==> front[j] < |s| - 1 by {
        forall j | 0 <= j < |front| ensures front[j] < |s| - 1 {
          assert front[j] in front;
        }
      }
      if s[|s| - 1] == x then front + [|s| - 1] else front
  }
}
