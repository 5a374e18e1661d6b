# Tic-tac-toe self-play Q-learning, in Dafny

This project models the three pieces of logic of the tic-tac-toe reinforcement-learning
repository and proves their properties:

- **The standalone game** (`game/game.py`, module `Game`): a class holding a nine-cell board and
  the mark to move. `make_move` writes the mover's mark on an empty cell and passes the move.
  `get_valid_moves` lists the empty cells. `check_winner` scans the eight lines before it
  tests for a full board.
- **The gym environment** (`gym_tictactoe/envs/tictactoe_env.py`, module `Env`): the state
  `(board, current_player, done)`, the `{0, 1, 2}` observation, the info record, and `step`.
  `step` has an illegal-move path with reward -10, a terminal path with +1.0 / -1.0 / +0.5,
  and a continuing path with 0.0 that hands the move to `3 - player`.
- **The tabular Q-learning agent** (`ai/agent.py`, module `Agent`): a value table behind a
  `defaultdict` that inserts a zero vector for every unseen key, epsilon-greedy action
  selection with ties among all maximal actions, the one-step temporal-difference update,
  and the floor-clamped linear decay of epsilon.

Shared pieces: `Board` holds the cell type, the eight winning lines in scan order and
`OutcomeOf`, the value every `check_winner` loop is proved against. `Indices` holds the
ascending list of matching indices that both `get_valid_moves` and `np.flatnonzero` compute.
`Wrappers` holds `Option`.

The classes follow the source. Boards are `seq<Cell>` fields that the methods reassign.
Each `check_winner` and `_get_info` loop is a method proved equal to a function (`OutcomeOf`,
`InfoOf`). The environment's `step` is proved equal to the value-level transition
`StepSpec`, and the agent's `update` to `UpdatedTable`. Both classes keep the invariant that
makes the environment's `-1.0` reward unreachable and keeps the game's marks balanced.

## Model

| member | source | states |
|---|---|---|
| Indices.IndicesOf | game/game.py:13-14 | the result holds exactly the indices whose element equals the probe, in strictly increasing order |
| Board.FirstLineFrom | game/game.py:29-31 | the first completed line at or after a position in the scan order; every line scanned before it, or every line if none, is not completed |
| Board.OutcomeOf | game/game.py:23-34 | a winner exactly when some line is completed, and it is the mark of the first completed line; a draw exactly when no line is completed and no cell is empty; ongoing exactly when no line is completed and a cell is empty |
| Board.PlacedMarkOwnsNewLines | gym_tictactoe/envs/tictactoe_env.py:80-83 | on a board with no completed line, a newly completed line passes through the placed cell and carries the placed mark |
| Board.PlacedMarkWins | gym_tictactoe/envs/tictactoe_env.py:80-86 | the winner judged right after such a placement is the placed mark |
| Board.Count | game/game.py:16-20 | the number of cells holding a value is at most the length, and zero exactly when the value is absent |
| Board.CountAfterPlace | game/game.py:18 | writing a mark on an empty cell adds one to that mark's count and leaves every other mark's count unchanged |
| Game.Toggle | game/game.py:19 | the next mover is a mark and differs from the current one |
| Game.EmptyBoardBalanced | game/game.py:4-6 | the fresh game is balanced: no marks, `'X'` to move |
| Game.PlacePreservesBalance | game/game.py:16-20 | a successful move keeps the invariant: `'X'` to move exactly when both marks are equally frequent, else `'X'` leads by one |
| Game.TicTacToe.constructor | game/game.py:4-6 | nine empty cells, `'X'` to move, invariant established |
| Game.TicTacToe.Reset | game/game.py:8-11 | nine empty cells, `'X'` to move, and the returned copy equals the board |
| Game.TicTacToe.ValidMoves | game/game.py:13-14 | an index is listed exactly when it addresses an empty cell; the list is ascending |
| Game.TicTacToe.MakeMove | game/game.py:16-21 | returns true exactly when the index is in range and the cell is empty; then the mover's mark is written there, no other cell changes and the mover toggles; otherwise nothing changes; the invariant is kept |
| Game.TicTacToe.CheckWinner | game/game.py:23-34 | the loop returns `OutcomeOf(board)`: a completed line wins before a full board is a draw |
| Game.EmptyCellsAfterFirstMove | tests/test_game.py:18-28 | with only cell 0 taken the valid moves are exactly 1 to 8 in order |
| Game.ValidMovesScenario | tests/test_game.py:18-28 | after `make_move(0)` on a fresh game `get_valid_moves` yields `[1, ..., 8]` |
| Game.ColumnOutcome | tests/test_game.py:30-37 | the board left by moves 0, 1, 3, 4, 6 is won by `'X'` |
| Game.ColumnWinScenario | tests/test_game.py:30-37 | moves 0, 1, 3, 4, 6 then `check_winner` give `'X'` |
| Game.DrawOutcome | tests/test_game.py:39-48 | the full board left by moves 0, 1, 2, 5, 3, 6, 4, 8, 7 has no completed line and is a draw |
| Game.DrawScenario | tests/test_game.py:39-48 | those nine moves then `check_winner` give the draw value `'Cats Game'` |
| Env.MarkOf | gym_tictactoe/envs/tictactoe_env.py:59-60 | player 1 plays `'X'` and every other player `'O'` |
| Env.Observation | gym_tictactoe/envs/tictactoe_env.py:35-38 | one code per cell, each in `{0, 1, 2}`, and 0 exactly for an empty cell |
| Env.DecodeObservation | gym_tictactoe/envs/tictactoe_env.py:35-38 | the board can be read back from its observation |
| Env.ObservationInjective | gym_tictactoe/envs/tictactoe_env.py:35-38 | two boards have equal observations, and so equal table keys, exactly when they are equal |
| Env.InfoOf | gym_tictactoe/envs/tictactoe_env.py:40-57 | the current player always; a winner and a winning line exactly when a line is completed, the line being the first completed one and the winner its mark; no winner on a draw |
| Env.InitialInv | gym_tictactoe/envs/tictactoe_env.py:15-17 | the initial state satisfies the state invariant |
| Env.StepSpec | gym_tictactoe/envs/tictactoe_env.py:76-98 | the penalty is paid exactly when the episode is over or the cell is taken, and then nothing changes and `terminated` is false; otherwise the mover's mark is written at the action and `terminated` reports the new `done` |
| Env.StepPreservesInv | gym_tictactoe/envs/tictactoe_env.py:76-93 | every step keeps the invariant: no completed line while running, a decided board once done, and balanced marks |
| Env.LegalStepRewards | gym_tictactoe/envs/tictactoe_env.py:80-93 | from a reachable state a legal step that completes a line pays +1.0 and ends the episode; a draw pays +0.5 and ends it; otherwise 0.0 and the move passes to `3 - player` |
| Env.NoLossReward | gym_tictactoe/envs/tictactoe_env.py:84-86 | no step from a reachable state pays -1.0 |
| Env.TicTacToeEnv.constructor | gym_tictactoe/envs/tictactoe_env.py:10-17 | an empty board, player 1 to move, a running episode |
| Env.TicTacToeEnv.CheckWinner | gym_tictactoe/envs/tictactoe_env.py:100-111 | the loop returns `OutcomeOf(board)`, with `0` as the draw value |
| Env.TicTacToeEnv.GetInfo | gym_tictactoe/envs/tictactoe_env.py:40-57 | the info built by the two loops equals `InfoOf(board, current_player)` |
| Env.TicTacToeEnv.Reset | gym_tictactoe/envs/tictactoe_env.py:62-74 | the initial state, an all-zero observation, and an info with only the current player |
| Env.TicTacToeEnv.Step | gym_tictactoe/envs/tictactoe_env.py:76-98 | the new state, reward and `terminated` are those of `StepSpec`; `truncated` is false; the observation and info describe the new state; the invariant is kept |
| Env.RepeatedMoveScenario | gym_tictactoe/envs/tictactoe_env.py:62-98 | after `reset` the observation is nine zeros; `step(0)` pays 0.0 without ending, leaving `'X'` on cell 0 and player 2 to move; `step(0)` again pays the penalty with `terminated` false and leaves that state unchanged |
| Env.RowWinStep | gym_tictactoe/envs/tictactoe_env.py:80-86 | `'X'` completing the top row pays +1.0 and ends the episode with player 1 still recorded |
| Env.RowWinInfo | gym_tictactoe/envs/tictactoe_env.py:40-57 | that board reports winner `'X'` and line `(0, 1, 2)` |
| Env.DrawStep | gym_tictactoe/envs/tictactoe_env.py:87-89 | filling the last cell without a line pays +0.5 and ends the episode |
| Env.DrawInfo | gym_tictactoe/envs/tictactoe_env.py:44-45 | the drawn board reports no winner and no line |
| Agent.DefaultQValues | ai/agent.py:7-12 | a vector of `n` zeros |
| Agent.Touch | ai/agent.py:27 | reading a key adds it to the table with the value it reads as, and leaves every stored key alone |
| Agent.TouchKeepsValues | ai/agent.py:27 | a read changes what no key reads as |
| Agent.Max | ai/agent.py:52 | an upper bound of the vector that is one of its elements |
| Agent.GreedyActions | ai/agent.py:51-53 | non-empty; an action is listed exactly when its value is the maximum; no action has a greater value than a listed one |
| Agent.TemporalDifference | ai/agent.py:66-67 | on a terminal transition `reward - current`, otherwise `reward + discount * max(next) - current` |
| Agent.UpdateChangesOneEntry | ai/agent.py:64-70 | `update` adds only the two read keys, leaves every other key and every other action of `obs` as it read, and on a terminal transition writes `old + lr * (reward - old)` |
| Agent.TerminalUpdateIgnoresNext | ai/agent.py:66-70 | on a terminal transition two updates differing only in `next_obs` write the same value |
| Agent.UpdateKeepsUniform | ai/agent.py:64-70 | `update` keeps every stored vector at one value per action |
| Agent.Decayed | ai/agent.py:73-74 | the new epsilon is at least the floor, is the floor or the decremented value, and does not grow when the decay is non-negative and epsilon is at or above the floor |
| Agent.EpsilonAfter | ai/agent.py:73-74 | after one or more decays epsilon is at least the floor; with a non-negative decay from at or above the floor it stays between the floor and the initial value |
| Agent.EpsilonClosedForm | ai/agent.py:73-74 | with a non-negative decay, `k >= 1` decays leave `max(final, initial - k * decay)` |
| Agent.EpsilonNonIncreasing | ai/agent.py:73-74 | with a non-negative decay no call after the first raises epsilon, from any start; from a start at or above the floor the first call does not either |
| Agent.TicTacToeAgent.constructor | ai/agent.py:16-42 | the configuration is stored, epsilon is the initial value, the table is the supplied one key for key or empty, and the error trace is empty |
| Agent.TicTacToeAgent.Lookup | ai/agent.py:27 | a read returns what the key reads as and inserts the zero vector for an unseen key |
| Agent.TicTacToeAgent.GetAction | ai/agent.py:46-54 | below epsilon the sampled action and an untouched table; otherwise the key is read and the action is one of maximal value, never one below the maximum; in range when the table is uniform |
| Agent.TicTacToeAgent.Update | ai/agent.py:56-71 | the table becomes `UpdatedTable` of the old one, and exactly one element, the TD error, is appended to `training_error` |
| Agent.TicTacToeAgent.DecayEpsilon | ai/agent.py:73-74 | epsilon becomes `max(final_epsilon, epsilon - epsilon_decay)`, never below the floor |

## Left out

- Rendering (`render`, `_render_frame`, `close`, the window and clock fields, `render_mode`) and `gui.py`: pygame drawing and input, no game logic.
- `scripts/train.py` and `gym_tictactoe/__init__.py`: training orchestration, file I/O, plotting and gym registration.
- The `size` parameter of the environment: the board is fixed to 3x3, as the hard-coded lines of `check_winner` already require.
- gymnasium seeding (`super().reset(seed=...)`) and the space objects: only their sizes are modelled (nine actions, codes in `{0, 1, 2}`).
- The agent's `env` field: only `env.action_space.n` is kept, as `nActions`.
- `np.random.random()` and `action_space.sample()` are parameters of `GetAction` (`coin`, `sample`); `np.random.choice` among the maximal actions is an unconstrained pick.
- Agent.TicTacToeAgent.GetAction: states that the action is one of the maximal ones, not that each maximal action is equally likely.
- Floating point: Q-values, rates and epsilon are `real`, so rounding, `inf` and `nan` (where `0 * inf` would differ) are not modelled. The penalty `-10` is the real `-10.0`.
- Env.TicTacToeEnv.Step: the action is an index in `0..8`. In Python, while the episode runs, an action of 9 or more raises `IndexError` at `self.board[action]` and an action in `-9..-1` wraps to a cell from the end; once the episode has ended the `or` short-circuits and any action is refused with the penalty. Neither the error nor the wrap-around is modelled.
- Env.TicTacToeEnv.Step: requires the class invariant, which the constructor and `Reset` establish and every step keeps.
- Agent.TicTacToeAgent.Update: requires that the action indexes the vector of `obs` from the front and that the vector of `next_obs` is non-empty. In Python an action of `n` or more raises `IndexError`, an action in `-n..-1` reads and writes an entry counted from the end, and `np.max` of an empty vector raises even on a terminal transition; none of these is modelled.
- Agent.TicTacToeAgent.GetAction: requires a non-empty vector on the exploit branch, where `np.max` of an empty array would raise.
- Agent.TicTacToeAgent.constructor: vectors are values, so aliasing between a supplied table's arrays and the agent's table, which in Python lets `update` write into the caller's arrays, is not modelled. The else-branch loop over the keys of a fresh, empty table does nothing and is not modelled.
- Agent.TicTacToeAgent.DecayEpsilon: the non-increase is stated only for a non-negative decay from at or above the floor, because an epsilon below the floor is raised to it.
- Agent.EpsilonNonIncreasing: the first call from a start below the floor is excluded, because it raises epsilon to the floor; every later call is covered from any start.

## Behaviour of the code that the model keeps

- An illegal step reports `terminated` false even when the episode has already ended (gym_tictactoe/envs/tictactoe_env.py:77-78).
- A draw adds no `winner` key to the info, because the draw value `0` is false in `if winner` (gym_tictactoe/envs/tictactoe_env.py:44-45).
- The explore branch returns the sampled action unfiltered, occupied cell or not (ai/agent.py:48-49).
- The agent's constructor stores its rates and epsilon without validating them (ai/agent.py:29-34).
