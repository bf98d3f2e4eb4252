# go-sample-neural: the replay buffer, the tic-tac-toe board and the DQN agent's rules

This project models the discrete core of a small Go program. The program
trains a deep Q-network (DQN) agent to play tic-tac-toe. It covers three
parts, each in its own module:

- `Replay` (`replay.dfy`) holds the experience replay buffer of
  `neural/train.go`. It is a fixed-capacity array of transitions with a
  write cursor (`index`) and a fill count (`size`). `Add` overwrites slots
  in ring order. `Sample` either refuses, when fewer than `batchSize`
  entries are stored, or copies `batchSize` entries drawn from the valid
  prefix. The class keeps a ghost `history` of every added experience. Its
  invariant ties the array to the pure function `Ring(history, capacity)`,
  so the lemmas about `Ring` describe the buffer's contents after any
  sequence of additions.
- `TicTacToe` (`board.dfy`) holds the board of `neural/tictoctoe.go`: nine
  integer cells (0 empty, 1 for X, -1 for O) and the player to move. The
  queries are first stated as functions on the cell sequence: `Won`, `Full`,
  `EmptyIndices`, `StateVector` and `Reward`. `Won` uses the board's
  geometry (rows, columns, diagonals), independent of the table of eight
  lines that `CheckWin` scans. The `Board` class runs the Go code's loops
  over its `array<int>` and is proved against those functions.
- `Dqn` (`agent.dfy`) holds the agent of `neural/agent.go`:
  - epsilon-greedy action choice with its -1 "no action" sentinel, and the
    greedy scan with first-occurrence tie-breaking;
  - the Bellman target vector;
  - the training loop over a sampled batch;
  - the epsilon decay;
  - the periodic copy of the Q-network into the target network.

  A network is an abstract value of a type parameter `N`, reached only
  through `NetworkOps`: `predict` is the forward pass, and `train` gives the
  network after one gradient step. A clone is the same value, so the target
  network never aliases the Q-network. `TrainOnBatch` is the pure
  specification of the training loop. It is a left-to-right fold in which
  each step sees the weights left by the previous one, and the target
  network stays fixed throughout.

The model follows the code in two places where one might expect
something else:
- **Epsilon is not clamped.** The decay step multiplies epsilon by the
  decay factor whenever it is above `MinEpsilon`, with no clamp. A single
  step can therefore end below the floor (`EpsilonCanUndershoot`), though
  never below `MinEpsilon * EpsilonDecay` (`EpsilonSchedule`).
- **The next-state maximum covers every output.** It is taken over all of
  the target network's outputs, legal moves or not, although a comment in
  the Go code speaks of possible moves only.

In a few places the model's notation differs from Go's, with no change in
meaning:
- **Remainder.** The sync test `step % UpdateTarget == 0` uses Go's
  truncating remainder. Only the zero test matters, and the truncated and
  Euclidean remainders agree on it.
- **Random draws.** They are parameters: the `draws` of `Sample` and
  `Train`, and the `roll` and `pick` of `ChooseAction`.
- **Numbers.** `float64` values are mathematical reals.
  `-math.MaxFloat64` is the exact real (2^53 - 1) * 2^971, negated.

## Model

| member | source | states |
|---|---|---|
| Replay.Ring | neural/train.go:37-43 | the slots after a sequence of additions always number exactly `capacity` |
| Replay.Drawn | neural/train.go:51-56 | defines the batch the copy loop builds: one entry per draw, entry i being the slot draw i names (a definition that the `Sample` and `Train` contracts are stated in) |
| Replay.RingAdd | neural/train.go:38-39 | unfolds `Ring` once at `h + [e]`: one more addition is the single slot write at the old cursor (count mod capacity); the helper `Add` uses to keep its ring invariant |
| Replay.RingBeforeWrap | neural/train.go:37-43 | until the buffer wraps, slots [0, n) hold the n added experiences in order, and the remaining slots are still blank |
| Replay.RingKeepsRecent | neural/train.go:37-43 | each of the last `capacity` experiences added is still stored, in slot k mod capacity |
| Replay.RingSlotSource | neural/train.go:37-43 | every slot of the valid prefix holds one of the last min(n, capacity) experiences added |
| Replay.ReplayBuffer.constructor | neural/train.go:29-34 | a new buffer has `capacity` blank slots, cursor 0, fill count 0 and an empty history |
| Replay.ReplayBuffer.Add | neural/train.go:37-43 | writes the experience at the old cursor and changes no other slot; the cursor advances mod capacity; the fill count grows only while below capacity; the ring invariant is kept |
| Replay.ReplayBuffer.Sample | neural/train.go:46-57 | refuses exactly when fewer than `batchSize` entries are stored; otherwise returns `batchSize` copies of the named slots, each among the `size` newest experiences; duplicates are allowed; the buffer is not changed |
| Replay.BufferBounds | neural/train.go:37-43 | 0 <= size <= capacity always, and the cursor is a valid slot |
| Replay.CursorTracksSizeBeforeWrap | neural/train.go:37-43 | before the first wrap the cursor equals the fill count, and slots [0, size) are exactly the history |
| Replay.FullBufferHoldsNewest | neural/train.go:37-43 | once capacity entries were added the buffer stays full and holds exactly the newest ones |
| TicTacToe.Won | neural/tictoctoe.go:38-53 | defines a win by the board's geometry: the player holds a whole row, a whole column or one of the two diagonals (`WinLinesAreTheGeometry` ties it to the eight-line table) |
| TicTacToe.Full | neural/tictoctoe.go:56-63 | defines a full board: no cell is empty |
| TicTacToe.EmptyIndices | neural/tictoctoe.go:104-112 | defines the empty-cell list as the scan builds it, appending each empty position from the first cell to the last |
| TicTacToe.CellValue | neural/tictoctoe.go:92-98 | defines one network input: 1 for the agent's mark, else -1 for the opponent's, else 0, in the Go code's test order |
| TicTacToe.Reward | neural/tictoctoe.go:72-84 | defines the reward chain: a win by the player to move gives 1 to that player and -1 to the other, else 0 for a full board, else -0.01 |
| TicTacToe.EmptyIndicesSound | neural/tictoctoe.go:104-112 | every listed position is an empty cell of the board |
| TicTacToe.EmptyIndicesComplete | neural/tictoctoe.go:104-112 | every empty cell is listed |
| TicTacToe.EmptyIndicesIncreasing | neural/tictoctoe.go:104-112 | the listed positions are strictly increasing and in range |
| TicTacToe.EmptyIndicesExact | neural/tictoctoe.go:104-112 | the list is exactly the empty positions, in increasing order, and is empty iff the board is full |
| TicTacToe.StateVector | neural/tictoctoe.go:89-101 | the encoding has one entry per cell |
| TicTacToe.WinLinesAreTheGeometry | neural/tictoctoe.go:39-52 | the eight listed lines are in range, and some line is owned iff the player holds a row, a column or a diagonal |
| TicTacToe.WinSurvivesMove | neural/tictoctoe.go:29-53 | a legal move by anyone never undoes an existing win |
| TicTacToe.MoveRemovesOneEmptyCell | neural/tictoctoe.go:104-112 | filling one empty cell shortens the empty list by exactly one |
| TicTacToe.MoveEmptyCellsExact | neural/tictoctoe.go:104-112 | after filling an empty cell the empty positions are the old ones less that cell |
| TicTacToe.StateVectorValues | neural/tictoctoe.go:89-101 | each entry is 1, -1 or 0; 1 exactly on the agent's cells, -1 exactly on the opponent's, 0 elsewhere |
| TicTacToe.OpponentSeesNegation | neural/tictoctoe.go:89-101 | the opponent's encoding is the agent's with every sign flipped |
| TicTacToe.RewardOutcomes | neural/tictoctoe.go:72-84 | the reward is 1 iff the player to move has won and is the agent, -1 iff won by the other, 0 iff full without a win, -0.01 otherwise; a win is zero-sum |
| TicTacToe.Board.constructor | neural/tictoctoe.go:20-25 | all nine cells empty, X to move |
| TicTacToe.Board.MakeMove | neural/tictoctoe.go:29-35 | succeeds iff the position is on the board and empty; then only that cell becomes the current player's mark and one fewer cell is empty, otherwise nothing changes; the board stays valid (cells empty, X or O; X or O to move) |
| TicTacToe.Board.CheckWin | neural/tictoctoe.go:38-53 | true iff the player to move holds a row, a column or a diagonal |
| TicTacToe.Board.IsBoardFull | neural/tictoctoe.go:56-63 | true iff no cell is empty |
| TicTacToe.Board.IsGameOver | neural/tictoctoe.go:66-68 | over iff the player to move has won or the board is full; when not over some cell is empty |
| TicTacToe.Board.GetReward | neural/tictoctoe.go:72-84 | the reward together with each of its four values and the situation that produces it, both directions |
| TicTacToe.Board.GetStateVector | neural/tictoctoe.go:89-101 | nine entries: 1 exactly where the cell is the agent's, -1 exactly where it is the opponent's, 0 elsewhere, which for an X or O agent is exactly the empty cells |
| TicTacToe.Board.GetEmptyCells | neural/tictoctoe.go:104-112 | exactly the empty positions, strictly increasing, and empty iff the board is full |
| TicTacToe.Board.SwitchPlayer | neural/tictoctoe.go:115-117 | negates the player to move (X to O, O to X, so twice is the identity) and leaves the cells alone |
| Dqn.FirstArgMaxUnique | neural/agent.go:62-71 | at most one action is the first legal action of maximal Q-value above -MaxFloat64 |
| Dqn.FirstArgMax | neural/agent.go:62-71 | defines the greedy choice: a legal action whose Q-value is above -MaxFloat64 and maximal among the legal ones, with every legal action listed before it strictly smaller |
| Dqn.GreedyAction | neural/agent.go:62-71 | -1 when no legal Q-value exceeds -MaxFloat64; otherwise the legal action of largest Q-value, the earliest one on ties |
| Dqn.DqnAgent.ChooseAction | neural/agent.go:47-72 | -1 when no cell is empty; on the exploration draw the picked empty cell; on the greedy path the first arg-max of the Q-values over the empty cells, or -1 if none beats -MaxFloat64; so always -1 or an empty cell |
| Dqn.SeqMax | neural/agent.go:95-100 | the running maximum is at least -MaxFloat64, bounds every entry, and is an entry unless it stayed at -MaxFloat64 |
| Dqn.NextMaxQ | neural/agent.go:95-100 | the scan computes that maximum: it bounds every next Q-value and is one of them or -MaxFloat64 |
| Dqn.BellmanValue | neural/agent.go:104-108 | defines the value written into the taken action's slot: the reward if the episode is done, else reward + gamma * nextMaxQ |
| Dqn.TargetFor | neural/agent.go:86-108 | the target has the current vector's length, agrees with it everywhere except the taken action, and there holds the reward if done, else reward + gamma * nextMaxQ |
| Dqn.BellmanTarget | neural/agent.go:84-108 | the copied and overwritten vector is the target for the target network's maximum over the next state; all other slots are unchanged |
| Dqn.TrainOnBatchStep | neural/agent.go:83-112 | unfolds `TrainOnBatch` once at `[exp] + rest` (one step towards the first experience's target, then the rest) and carries the action bound over to `rest`; the step `TrainQNetwork`'s loop invariant uses |
| Dqn.TrainQNetwork | neural/agent.go:83-112 | the batch loop yields the sequential fold TrainOnBatch over the batch |
| Dqn.TrainOnBatch | neural/agent.go:83-112 | defines batch training as a left-to-right fold: each experience trains the network the previous one left, towards its `TargetFor` target under the fixed target network |
| Dqn.TrainOnBatchSequential | neural/agent.go:83-112 | training on two batches in a row equals training on their concatenation |
| Dqn.DecayStep | neural/agent.go:115-117 | with a decay factor in [0, 1] one step never raises epsilon, keeps it once at or below the floor, and never takes it from at or above MinEpsilon * decay to below it |
| Dqn.EpsilonSchedule | neural/agent.go:115-117 | over any number of steps epsilon is non-increasing, at most its start, at least MinEpsilon * decay, and fixed once at or below MinEpsilon |
| Dqn.EpsilonCanUndershoot | neural/agent.go:115-117 | without a clamp a step from just above MinEpsilon ends below it |
| Dqn.DecayedEpsilon | neural/agent.go:115-117 | defines one decay step as the Go code writes it: multiply by the decay factor while above the floor, with no clamp |
| Dqn.EpsilonAfter | neural/agent.go:115-117 | defines epsilon after n training steps: the decay step applied n times |
| Dqn.DqnAgent.constructor | neural/agent.go:26-43 | the target network starts equal to the Q-network; gamma 0.99, epsilon 1, floor 0.01, decay 0.995, learning rate 0.001, sync interval 1000; an empty buffer of the given capacity |
| Dqn.DqnAgent.Train | neural/agent.go:77-124 | a complete no-op without a full batch; otherwise the Q-network is the fold over the drawn batch, epsilon decays once, and the target network becomes the new Q-network exactly when step is a multiple of the sync interval |

## Left out

- The network numerics in neural/layer.go and neural/network.go are not part of this model. They cover the forward pass, back-propagation, weight updates, activations and Gaussian initialisation. `Predict`, `Train` and `Clone` are the abstract `NetworkOps.predict`, `NetworkOps.train` and value copy.
- `MainTrain` (the episode loop, win counters and console output), main.go (an XOR demo), `PrintBoard` and the console message after a target sync. These are orchestration and I/O.
- The global `math/rand` generator. Its draws are parameters: `draws` for `rand.Intn(Size)` in `Sample`, `roll` for `rand.Float64`, and `pick` for `rand.Intn(len(emptyCells))`. Uniformity is not modelled.
- float64 rounding, infinities and NaN. Q-values, rewards and hyperparameters are exact reals.
- Slice aliasing. An `Experience`'s state vectors are values, and `Sample` returns copies. In Go those copies share the backing arrays of the stored state slices, but nothing in the core writes to them.
- In-place network training. Go updates the Q-network object in place. The model returns the trained network as a new value and assigns it to the field.
- `Dqn.DqnAgent.constructor`: `NewNeuralNetwork(inputSize, [64, 64], outputSize, "relu")` is not modelled, so `inputSize` is absent. The initial network is a parameter.
- `Replay.ReplayBuffer.constructor`: the capacity is a `nat`. Go's `make` panics on a negative capacity, and that panic is not modelled.
- `Replay.ReplayBuffer.Sample`: the batch size is a `nat`, here and in `Dqn.DqnAgent.Train`. In Go a negative batch size passes the refusal test and then panics in `make`, which `Train` inherits; that panic is not modelled.
- `Replay.ReplayBuffer.Add`: requires a positive capacity. With capacity 0 the Go slot write is out of range and the cursor update divides by zero (a panic), which is not modelled.
- `Dqn.DqnAgent.ChooseAction`: requires every empty cell's index to name a network output, and a `pick` below the number of empty cells. Go indexes `qValues` only on the greedy path, so the first requirement is wider than Go's panic condition on the exploration path; the only caller builds a nine-output agent (neural/train.go:70), which meets it. Go's out-of-range panics are not modelled.
- `Dqn.DqnAgent.Train`: requires every drawn experience's action to name a network output. Go panics on such an out-of-range `exp.Action` at the target write, and that panic is not modelled. Entries that no draw picks are not constrained.
- `Dqn.BellmanTarget` tests `exp.Done` once, with the maximum computed on the not-done branch. The Go code tests it twice with nothing in between, so the behaviour is the same.
