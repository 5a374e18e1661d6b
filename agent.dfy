/**
 * The tabular Q-learning agent of ai/agent.py: a value table from observation
 * keys to one value per action, read through a defaultdict that materialises a
 * zero vector for every unseen key; epsilon-greedy action selection with ties
 * broken among all maximal actions; the one-step temporal-difference update;
 * and the floor-clamped linear decay of epsilon. Values and rates are `real`.
 */
module Agent {
  import opened Wrappers
  import Indices

  /** `tuple(obs)`: an observation used as a table key. */
  type Key = seq<int>

  type QTable = map<Key, seq<real>>

  /** `DefaultQValues(n)()`: the value vector of a key never seen before. */
  function DefaultQValues(n: nat): (v: seq<real>)
    ensures |v| == n
    ensures forall a :: 0 <= a < n ==> v[a] == 0.0
  {
    seq(n, _ => 0.0)
  }

  /** What reading `q_values[key]` yields. */
  function ValueOf(q: QTable, key: Key, n: nat): seq<real>
  {
    if key in q then q[key] else DefaultQValues(n)
  }

  /** The table after reading `q_values[key]`: an unseen key is inserted with the zero vector, nothing else changes. */
  function Touch(q: QTable, key: Key, n: nat): (q': QTable)
    ensures q'.Keys == q.Keys + {key}
    ensures q'[key] == ValueOf(q, key, n)
    ensures forall k :: k in q ==> q'[k] == q[k]
  {
    if key in q then q else q[key := DefaultQValues(n)]
  }

  /** Touching a key does not change what any key reads as. */
  lemma TouchKeepsValues(q: QTable, key: Key, n: nat, k: Key)
    ensures ValueOf(Touch(q, key, n), k, n) == ValueOf(q, k, n)
  {
  }

  /** `np.max`: the largest value of a non-empty vector. */
  function Max(v: seq<real>): (m: real)
    requires |v| > 0
    ensures forall i :: 0 <= i < |v| ==> v[i] <= m
    ensures exists i :: 0 <= i < |v| && v[i] == m
  {
    if |v| == 1 then v[0]
    else
      var m' := Max(v[..|v| - 1]);
      if v[|v| - 1] > m' then v[|v| - 1] else m'
  }

  /**
   * `np.flatnonzero(q_values == max_q_value)`: the actions the exploit branch
   * chooses among, which are exactly the actions of maximal value.
   */
  function GreedyActions(v: seq<real>): (best: seq<int>)
    requires |v| > 0
    ensures |best| > 0
    ensures forall a :: a in best <==> 0 <= a < |v| && v[a] == Max(v)
    ensures forall a, b :: 0 <= a < |v| && b in best ==> v[a] <= v[b]
  {
    var best := Indices.IndicesOf(v, Max(v));
    ghost var i :| 0 <= i < |v| && v[i] == Max(v);
    assert i in best;
    best
  }

  /**
   * The temporal-difference error of `update`: the target `reward + discount * future`
   * minus the current estimate, where `future` is the best next value, or zero
   * on a terminal transition.
   */
  function TemporalDifference(reward: real, discount: real, terminated: bool, next: seq<real>, current: real): (td: real)
    requires |next| > 0
    ensures terminated ==> td == reward - current
    ensures !terminated ==> td == reward + discount * Max(next) - current
  {
    reward + discount * (if terminated then 0.0 else Max(next)) - current
  }

  /** `old + lr * td`: the estimate moved by a fraction `lr` of the TD error. */
  function Nudged(current: real, learningRate: real, td: real): real
  {
    current + learningRate * td
  }

  /** `max(final_epsilon, epsilon - epsilon_decay)` */
  function Decayed(epsilon: real, decay: real, final: real): (e: real)
    ensures e >= final
    ensures e == final || e == epsilon - decay
    ensures decay >= 0.0 && epsilon >= final ==> e <= epsilon
  {
    if final >= epsilon - decay then final else epsilon - decay
  }

  /** Epsilon after `k` calls of `decay_epsilon`. */
  function EpsilonAfter(initial: real, decay: real, final: real, k: nat): (e: real)
    ensures k >= 1 ==> e >= final
    ensures decay >= 0.0 && initial >= final ==> final <= e <= initial
  {
    if k == 0 then initial else Decayed(EpsilonAfter(initial, decay, final, k - 1), decay, final)
  }

  /** `k` decrements of `decay`, summed one at a time. */
  function TotalDecay(decay: real, k: nat): (t: real)
    ensures t == k as real * decay
  {
    if k == 0 then 0.0 else TotalDecay(decay, k - 1) + decay
  }

  /** With a non-negative decay, `k >= 1` calls leave `max(final, initial - k * decay)`. */
  lemma {:induction false} EpsilonClosedForm(initial: real, decay: real, final: real, k: nat)
    requires decay >= 0.0 && k >= 1
    ensures EpsilonAfter(initial, decay, final, k) ==
            if final >= initial - k as real * decay then final else initial - k as real * decay
  {
    EpsilonSummedForm(initial, decay, final, k);
  }

  /** The same closed form with the total decrement summed step by step. */
  lemma {:induction false} EpsilonSummedForm(initial: real, decay: real, final: real, k: nat)
    requires decay >= 0.0 && k >= 1
    ensures EpsilonAfter(initial, decay, final, k) ==
            if final >= initial - TotalDecay(decay, k) then final else initial - TotalDecay(decay, k)
  {
    if k > 1 {
      EpsilonSummedForm(initial, decay, final, k - 1);
    }
  }

  /**
   * With a non-negative decay, epsilon never grows from one call to the next:
   * from any start after the first call, and from the first call on when it
   * starts at or above the floor.
   */
  lemma {:induction false} EpsilonNonIncreasing(initial: real, decay: real, final: real, k: nat)
    requires decay >= 0.0 && (initial >= final || k >= 1)
    ensures EpsilonAfter(initial, decay, final, k + 1) <= EpsilonAfter(initial, decay, final, k)
  {
  }

  /** Every stored vector has one value per action. */
  predicate UniformTable(q: QTable, n: nat)
  {
    forall k :: k in q ==> |q[k]| == n
  }

  /** The TD error `update` computes from table `q`, before any write. */
  function UpdateError(q: QTable, n: nat, obs: Key, action: int, reward: real, discount: real,
                       terminated: bool, nextObs: Key): real
    requires 0 <= action < |ValueOf(q, obs, n)|
    requires |ValueOf(q, nextObs, n)| > 0
  {
    TemporalDifference(reward, discount, terminated, ValueOf(q, nextObs, n), ValueOf(q, obs, n)[action])
  }

  /** The table after `update`: both keys read, then `Q[obs][action]` nudged by the TD error. */
  function UpdatedTable(q: QTable, n: nat, obs: Key, action: int, reward: real, learningRate: real,
                        discount: real, terminated: bool, nextObs: Key): QTable
    requires 0 <= action < |ValueOf(q, obs, n)|
    requires |ValueOf(q, nextObs, n)| > 0
  {
    var before := ValueOf(q, obs, n);
    var td := UpdateError(q, n, obs, action, reward, discount, terminated, nextObs);
    Touch(Touch(q, nextObs, n), obs, n)[obs := before[action := Nudged(before[action], learningRate, td)]]
  }

  /**
   * `update` changes one entry: the keys grow by the two read keys only, every
   * other key reads as before, every other action of `obs` keeps its value, and
   * on a terminal transition the new value does not depend on `next_obs`.
   */
  lemma UpdateChangesOneEntry(q: QTable, n: nat, obs: Key, action: int, reward: real, learningRate: real,
                              discount: real, terminated: bool, nextObs: Key)
    requires 0 <= action < |ValueOf(q, obs, n)|
    requires |ValueOf(q, nextObs, n)| > 0
    ensures var q' := UpdatedTable(q, n, obs, action, reward, learningRate, discount, terminated, nextObs);
      && q'.Keys == q.Keys + {obs, nextObs}
      && (forall k :: k in q' && k != obs ==> q'[k] == ValueOf(q, k, n))
      && |q'[obs]| == |ValueOf(q, obs, n)|
      && (forall a :: 0 <= a < |q'[obs]| && a != action ==> q'[obs][a] == ValueOf(q, obs, n)[a])
      && (terminated ==>
            var before := ValueOf(q, obs, n)[action];
            q'[obs][action] == Nudged(before, learningRate, reward - before))
  {
    TouchKeepsValues(q, nextObs, n, obs);
  }

  /** On a terminal transition two updates that differ only in `next_obs` write the same value. */
  lemma TerminalUpdateIgnoresNext(q: QTable, n: nat, obs: Key, action: int, reward: real, learningRate: real,
                                  discount: real, next1: Key, next2: Key)
    requires 0 <= action < |ValueOf(q, obs, n)|
    requires |ValueOf(q, next1, n)| > 0 && |ValueOf(q, next2, n)| > 0
    ensures UpdatedTable(q, n, obs, action, reward, learningRate, discount, true, next1)[obs][action]
         == UpdatedTable(q, n, obs, action, reward, learningRate, discount, true, next2)[obs][action]
  {
    UpdateChangesOneEntry(q, n, obs, action, reward, learningRate, discount, true, next1);
    UpdateChangesOneEntry(q, n, obs, action, reward, learningRate, discount, true, next2);
  }

  /** `update` keeps every vector at one value per action. */
  lemma UpdateKeepsUniform(q: QTable, n: nat, obs: Key, action: int, reward: real, learningRate: real,
                           discount: real, terminated: bool, nextObs: Key)
    requires UniformTable(q, n)
    requires 0 <= action < |ValueOf(q, obs, n)|
    requires |ValueOf(q, nextObs, n)| > 0
    ensures UniformTable(UpdatedTable(q, n, obs, action, reward, learningRate, discount, terminated, nextObs), n)
  {
    TouchKeepsValues(q, nextObs, n, obs);
  }

  class TicTacToeAgent {
    /** `env.action_space.n` */
    const nActions: nat
    const learningRate: real
    const discountFactor: real
    var epsilon: real
    const epsilonDecay: real
    const finalEpsilon: real
    var qValues: QTable
    var trainingError: seq<real>

    /**
     * Every stored vector has one value per action. A table the agent builds
     * itself keeps this; a supplied table has it when its vectors do.
     */
    predicate Uniform()
      reads this
    {
      UniformTable(qValues, nActions)
    }

    /** Copies the supplied table entry by entry, or starts with an empty one. */
    constructor (nActions: nat, learningRate: real, initialEpsilon: real, epsilonDecay: real,
                 finalEpsilon: real, discountFactor: real := 0.95, qTable: Option<QTable> := None)
      ensures this.nActions == nActions && this.learningRate == learningRate
      ensures this.discountFactor == discountFactor && this.epsilonDecay == epsilonDecay
      ensures this.finalEpsilon == finalEpsilon && epsilon == initialEpsilon
      ensures qValues == if qTable.Some? then qTable.value else map[]
      ensures trainingError == []
    {
      this.nActions := nActions;
      this.learningRate := learningRate;
      this.discountFactor := discountFactor;
      epsilon := initialEpsilon;
      this.epsilonDecay := epsilonDecay;
      this.finalEpsilon := finalEpsilon;
      trainingError := [];
      var q: QTable := map[];
      if qTable.Some? {
        var table := qTable.value;
        var rest := table.Keys;
        while rest != {}
          invariant rest <= table.Keys
          invariant q == map k | k in table.Keys - rest :: table[k]
          decreases rest
        {
          var k :| k in rest;
          q := q[k := table[k]];
          rest := rest - {k};
        }
      }
      qValues := q;
    }

    /** `q_values[key]` on the defaultdict: inserts the zero vector for an unseen key. */
    method Lookup(key: Key) returns (values: seq<real>)
      modifies this`qValues
      ensures qValues == Touch(old(qValues), key, nActions)
      ensures values == ValueOf(old(qValues), key, nActions) && values == qValues[key]
      ensures old(Uniform()) ==> Uniform()
    {
      if key !in qValues {
        qValues := qValues[key := DefaultQValues(nActions)];
      }
      values := qValues[key];
    }

    /**
     * `get_action`. `coin` is the draw of `np.random.random()`, `sample` that of
     * `action_space.sample()`; the uniform choice among the maximal actions is
     * left open. Below epsilon the sampled action is returned and the table is
     * not read; otherwise an action of maximal value for `obs`, whose vector
     * `np.max` needs to be non-empty.
     */
    method GetAction(obs: Key, coin: real, sample: int) returns (action: int)
      requires 0 <= sample < nActions
      requires coin >= epsilon ==> |ValueOf(qValues, obs, nActions)| > 0
      modifies this`qValues
      ensures coin < epsilon ==> action == sample && qValues == old(qValues)
      ensures coin >= epsilon ==>
        && qValues == Touch(old(qValues), obs, nActions)
        && action in GreedyActions(qValues[obs])
        && forall a :: 0 <= a < |qValues[obs]| ==> qValues[obs][a] <= qValues[obs][action]
      ensures old(Uniform()) ==> Uniform() && 0 <= action < nActions
    {
      if coin < epsilon {
        return sample;
      }
      var values := Lookup(obs);
      var maxValue := Max(values);
      var bestActions := Indices.IndicesOf(values, maxValue);
      assert bestActions == GreedyActions(values);
      var i :| 0 <= i < |bestActions|;
      action := bestActions[i];
      assert action in bestActions;
    }

    /**
     * `update`: one temporal-difference step on `Q[obs][action]`. The table is
     * read at `next_obs` first and at `obs` second, each read inserting an
     * unseen key; `np.max` of the next vector is taken even on a terminal
     * transition, where it is multiplied by zero; the TD error is appended to
     * `training_error`.
     */
    method Update(obs: Key, action: int, reward: real, terminated: bool, nextObs: Key)
      requires 0 <= action < |ValueOf(qValues, obs, nActions)|
      requires |ValueOf(qValues, nextObs, nActions)| > 0
      modifies this`qValues, this`trainingError
      ensures qValues == UpdatedTable(old(qValues), nActions, obs, action, reward, learningRate,
                                      discountFactor, terminated, nextObs)
      ensures trainingError == old(trainingError) +
        [UpdateError(old(qValues), nActions, obs, action, reward, discountFactor, terminated, nextObs)]
    {
      ghost var q := qValues;
      var nextValues := Lookup(nextObs);
      var future := if terminated then 0.0 else Max(nextValues);
      TouchKeepsValues(q, nextObs, nActions, obs);
      var values := Lookup(obs);
      assert values == ValueOf(q, obs, nActions);
      assert qValues == Touch(Touch(q, nextObs, nActions), obs, nActions);
      var td := reward + discountFactor * future - values[action];
      assert td == UpdateError(q, nActions, obs, action, reward, discountFactor, terminated, nextObs);
      qValues := qValues[obs := values[action := Nudged(values[action], learningRate, td)]];
      trainingError := trainingError + [td];
    }

    /** `decay_epsilon` */
    method DecayEpsilon()
      modifies this`epsilon
      ensures epsilon == Decayed(old(epsilon), epsilonDecay, finalEpsilon)
      ensures epsilon >= finalEpsilon
      ensures epsilonDecay >= 0.0 && old(epsilon) >= finalEpsilon ==> epsilon <= old(epsilon)
    {
      epsilon := if finalEpsilon >= epsilon - epsilonDecay then finalEpsilon else epsilon - epsilonDecay;
    }
  }
}
