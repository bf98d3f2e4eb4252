/**
 * The DQN agent's decision and learning rules: epsilon-greedy action
 * choice over the legal moves, the Bellman target built from the target
 * network, epsilon decay and the periodic hard copy of the Q-network into
 * the target network. A network is an abstract value of type N reached
 * only through `NetworkOps`; its numerics are not modelled. Modelled on
 * `DQNAgent` in neural/agent.go, package `neural` of go-sample-neural.
 */
module Dqn {
  import opened Replay
  import opened TicTacToe

  /** The largest finite float64, (2^53 - 1) * 2^971; its negation seeds both maxima. */
  const MaxFloat64: real := 179769313486231570814527423731704356798070567525844996598917476803157260780028538760589558632766878171540458953514382464234321326889464182768467546703537516986049910576551282076245490090389328944075868508455133942304583236903222948165808559332123348274797826204144723168738177180919299881250404026184124858368.0

  /**
   * A network seen from outside: `predict` is its forward pass and
   * `train` the network after one gradient step on (input, target, rate).
   * A clone is the same value.
   */
  datatype NetworkOps<!N> = NetworkOps(
    predict: (N, seq<real>) -> seq<real>,
    train: (N, seq<real>, seq<real>, real) -> N)

  /** Every prediction has the configured number of outputs. */
  ghost predicate PredictsLength<N(!new)>(ops: NetworkOps<N>, outputSize: nat)
  {
    forall n: N, x: seq<real> :: |ops.predict(n, x)| == outputSize
  }

  /** Every experience names an output slot. */
  predicate ActionsBelow(batch: seq<Experience>, outputSize: nat)
  {
    forall k | 0 <= k < |batch| :: 0 <= batch[k].action < outputSize
  }

  // Greedy choice

  /**
   * `a` is the legal action with the largest Q-value, above the initial
   * -MaxFloat64, and no legal action listed before it has as large a value.
   */
  predicate FirstArgMax(legal: seq<int>, q: seq<real>, a: int)
    requires forall k | 0 <= k < |legal| :: 0 <= legal[k] < |q|
  {
    exists k | 0 <= k < |legal| ::
      && legal[k] == a
      && -MaxFloat64 < q[a]
      && (forall j | 0 <= j < |legal| :: q[legal[j]] <= q[a])
      && (forall j | 0 <= j < k :: q[legal[j]] < q[a])
  }

  /** The greedy rule leaves no choice: at most one action satisfies it. */
  lemma FirstArgMaxUnique(legal: seq<int>, q: seq<real>, a: int, b: int)
    requires forall k | 0 <= k < |legal| :: 0 <= legal[k] < |q|
    requires FirstArgMax(legal, q, a) && FirstArgMax(legal, q, b)
    ensures a == b
  {
    var ka :| 0 <= ka < |legal| && legal[ka] == a && -MaxFloat64 < q[a]
      && (forall j | 0 <= j < |legal| :: q[legal[j]] <= q[a])
      && (forall j | 0 <= j < ka :: q[legal[j]] < q[a]);
    var kb :| 0 <= kb < |legal| && legal[kb] == b && -MaxFloat64 < q[b]
      && (forall j | 0 <= j < |legal| :: q[legal[j]] <= q[b])
      && (forall j | 0 <= j < kb :: q[legal[j]] < q[b]);
  }

  /**
   * The Go code's greedy scan: walk the legal actions in order and keep the
   * first one whose Q-value beats the best so far, starting from
   * -MaxFloat64 and the sentinel -1.
   */
  method GreedyAction(legal: seq<int>, q: seq<real>) returns (best: int)
    requires forall k | 0 <= k < |legal| :: 0 <= legal[k] < |q|
    ensures (forall k | 0 <= k < |legal| :: q[legal[k]] <= -MaxFloat64) ==> best == -1
    ensures !(forall k | 0 <= k < |legal| :: q[legal[k]] <= -MaxFloat64) ==> FirstArgMax(legal, q, best)
  {
    best := -1;
    var maxQ := -MaxFloat64;
    ghost var bestPos := 0;
    for k := 0 to |legal|
      invariant -MaxFloat64 <= maxQ
      invariant forall j | 0 <= j < k :: q[legal[j]] <= maxQ
      invariant best == -1 <==> forall j | 0 <= j < k :: q[legal[j]] <= -MaxFloat64
      invariant best == -1 ==> maxQ == -MaxFloat64
      invariant best != -1 ==>
        && 0 <= bestPos < k
        && legal[bestPos] == best
        && maxQ == q[best]
        && forall j | 0 <= j < bestPos :: q[legal[j]] < maxQ
    {
      var a := legal[k];
      if q[a] > maxQ {
        maxQ := q[a];
        best := a;
        bestPos := k;
      }
    }
    if best != -1 {
      assert FirstArgMax(legal, q, best) by {
        assert legal[bestPos] == best;
      }
    }
  }

  // Bellman target

  /** The Go code's running maximum: the largest entry, or -MaxFloat64 if none is larger. */
  function SeqMax(qs: seq<real>): (m: real)
    ensures -MaxFloat64 <= m
    ensures forall i | 0 <= i < |qs| :: qs[i] <= m
    ensures m == -MaxFloat64 || exists i | 0 <= i < |qs| :: qs[i] == m
  {
    if qs == [] then -MaxFloat64
    else
      var m0 := SeqMax(qs[..|qs| - 1]);
      assert forall i | 0 <= i < |qs| - 1 :: qs[..|qs| - 1][i] == qs[i];
      if qs[|qs| - 1] > m0 then qs[|qs| - 1] else m0
  }

  /** The running maximum over every output of the target network, legal move or not. */
  method NextMaxQ(nextQValues: seq<real>) returns (m: real)
    ensures m == SeqMax(nextQValues)
    ensures forall i | 0 <= i < |nextQValues| :: nextQValues[i] <= m
    ensures m == -MaxFloat64 || exists i | 0 <= i < |nextQValues| :: nextQValues[i] == m
  {
    m := -MaxFloat64;
    for i := 0 to |nextQValues|
      invariant m == SeqMax(nextQValues[..i])
    {
      assert nextQValues[..i + 1][..i] == nextQValues[..i];
      if nextQValues[i] > m {
        m := nextQValues[i];
      }
    }
    assert nextQValues[..|nextQValues|] == nextQValues;
  }

  /** The Bellman value of one experience: the reward, plus the discounted best next value when the episode goes on. */
  function BellmanValue(exp: Experience, gamma: real, nextMaxQ: real): (v: real)
  {
    if exp.done then exp.reward else exp.reward + gamma * nextMaxQ
  }

  /**
   * The regression target for one experience: the current Q-values with
   * only the taken action's slot replaced by its Bellman value.
   */
  function TargetFor(current: seq<real>, exp: Experience, gamma: real, nextMaxQ: real): (t: seq<real>)
    requires 0 <= exp.action < |current|
    ensures |t| == |current|
    ensures forall i | 0 <= i < |t| && i != exp.action :: t[i] == current[i]
    ensures exp.done ==> t[exp.action] == exp.reward
    ensures !exp.done ==> t[exp.action] == exp.reward + gamma * nextMaxQ
  {
    current[exp.action := BellmanValue(exp, gamma, nextMaxQ)]
  }

  /**
   * The Q-network after training on the batch one experience at a time,
   * each step seeing the weights left by the one before; the target
   * network stays fixed throughout.
   */
  function TrainOnBatch<N(!new)>(ops: NetworkOps<N>, outputSize: nat, q: N, target: N,
                                 batch: seq<Experience>, gamma: real, learningRate: real): (trained: N)
    requires PredictsLength(ops, outputSize)
    requires ActionsBelow(batch, outputSize)
    decreases |batch|
  {
    if batch == [] then q
    else
      var exp := batch[0];
      var t := TargetFor(ops.predict(q, exp.state), exp, gamma, SeqMax(ops.predict(target, exp.nextState)));
      TrainOnBatch(ops, outputSize, ops.train(q, exp.state, t, learningRate), target, batch[1..], gamma, learningRate)
  }

  /** One step of the fold: train on the first experience towards its target, then on the rest. */
  lemma TrainOnBatchStep<N(!new)>(ops: NetworkOps<N>, outputSize: nat, q: N, target: N,
                                  exp: Experience, rest: seq<Experience>, t: seq<real>,
                                  gamma: real, learningRate: real)
    requires PredictsLength(ops, outputSize) && ActionsBelow([exp] + rest, outputSize)
    requires 0 <= exp.action < |ops.predict(q, exp.state)|
    requires t == TargetFor(ops.predict(q, exp.state), exp, gamma, SeqMax(ops.predict(target, exp.nextState)))
    ensures ActionsBelow(rest, outputSize)
    ensures TrainOnBatch(ops, outputSize, q, target, [exp] + rest, gamma, learningRate)
         == TrainOnBatch(ops, outputSize, ops.train(q, exp.state, t, learningRate), target, rest, gamma, learningRate)
  {
    assert ([exp] + rest)[0] == exp && ([exp] + rest)[1..] == rest;
    assert forall k | 0 <= k < |rest| :: rest[k] == ([exp] + rest)[k + 1];
  }

  /**
   * The target vector for one experience: a copy of the current Q-values
   * whose taken-action slot becomes the reward, plus gamma times the
   * target network's best next value when the episode goes on.
   */
  method BellmanTarget<N(!new)>(ops: NetworkOps<N>, targetNetwork: N, currentQValues: seq<real>,
                          exp: Experience, gamma: real) returns (targetQValues: seq<real>)
    requires 0 <= exp.action < |currentQValues|
    ensures targetQValues == TargetFor(currentQValues, exp, gamma, SeqMax(ops.predict(targetNetwork, exp.nextState)))
    ensures |targetQValues| == |currentQValues|
    ensures forall i | 0 <= i < |targetQValues| && i != exp.action :: targetQValues[i] == currentQValues[i]
  {
    targetQValues := currentQValues;
    if exp.done {
      targetQValues := targetQValues[exp.action := exp.reward];
    } else {
      var nextQValues := ops.predict(targetNetwork, exp.nextState);
      var nextMaxQ := NextMaxQ(nextQValues);
      assert nextQValues == ops.predict(targetNetwork, exp.nextState);
      targetQValues := targetQValues[exp.action := exp.reward + gamma * nextMaxQ];
      assert exp.reward + gamma * nextMaxQ == BellmanValue(exp, gamma, SeqMax(ops.predict(targetNetwork, exp.nextState)));
    }
  }

  /**
   * The loop over a sampled batch: for each experience, the current
   * Q-values with the taken action's slot set to its Bellman target, and
   * one training step of the Q-network towards them. The Go code trains the
   * network object in place; here the updated value is returned.
   */
  method TrainQNetwork<N(!new)>(ops: NetworkOps<N>, outputSize: nat, qNetwork: N, targetNetwork: N,
                                batch: seq<Experience>, gamma: real, learningRate: real) returns (trained: N)
    requires PredictsLength(ops, outputSize)
    requires ActionsBelow(batch, outputSize)
    ensures trained == TrainOnBatch(ops, outputSize, qNetwork, targetNetwork, batch, gamma, learningRate)
  {
    trained := qNetwork;
    for i := 0 to |batch|
      invariant ActionsBelow(batch[i..], outputSize)
      invariant TrainOnBatch(ops, outputSize, trained, targetNetwork, batch[i..], gamma, learningRate)
             == TrainOnBatch(ops, outputSize, qNetwork, targetNetwork, batch, gamma, learningRate)
    {
      var exp := batch[i];
      assert batch[i..] == [exp] + batch[i + 1..];
      var currentQValues := ops.predict(trained, exp.state);
      var targetQValues := BellmanTarget(ops, targetNetwork, currentQValues, exp, gamma);
      TrainOnBatchStep(ops, outputSize, trained, targetNetwork, exp, batch[i + 1..], targetQValues, gamma, learningRate);
      trained := ops.train(trained, exp.state, targetQValues, learningRate);
    }
  }

  /** Training on two batches in a row is training on their concatenation: the updates are sequential. */
  lemma {:induction false} TrainOnBatchSequential<N(!new)>(ops: NetworkOps<N>, outputSize: nat, q: N, target: N,
                                                          b1: seq<Experience>, b2: seq<Experience>,
                                                          gamma: real, learningRate: real)
    requires PredictsLength(ops, outputSize)
    requires ActionsBelow(b1, outputSize) && ActionsBelow(b2, outputSize)
    ensures ActionsBelow(b1 + b2, outputSize)
    ensures TrainOnBatch(ops, outputSize, q, target, b1 + b2, gamma, learningRate)
         == TrainOnBatch(ops, outputSize, TrainOnBatch(ops, outputSize, q, target, b1, gamma, learningRate),
                         target, b2, gamma, learningRate)
    decreases |b1|
  {
    assert forall k | 0 <= k < |b1 + b2| :: (b1 + b2)[k] == if k < |b1| then b1[k] else b2[k - |b1|];
    if b1 != [] {
      var exp := b1[0];
      var t := TargetFor(ops.predict(q, exp.state), exp, gamma, SeqMax(ops.predict(target, exp.nextState)));
      assert (b1 + b2)[0] == exp;
      assert (b1 + b2)[1..] == b1[1..] + b2;
      TrainOnBatchSequential(ops, outputSize, ops.train(q, exp.state, t, learningRate), target,
                             b1[1..], b2, gamma, learningRate);
    } else {
      assert b1 + b2 == b2;
    }
  }

  // Exploration rate

  /** One decay step as the Go code writes it: multiply while above the floor, with no clamp. */
  function DecayedEpsilon(epsilon: real, minEpsilon: real, decay: real): (e: real)
  {
    if epsilon > minEpsilon then epsilon * decay else epsilon
  }

  /** Epsilon after `n` batches were processed. */
  function EpsilonAfter(epsilon: real, minEpsilon: real, decay: real, n: nat): (e: real)
  {
    if n == 0 then epsilon else DecayedEpsilon(EpsilonAfter(epsilon, minEpsilon, decay, n - 1), minEpsilon, decay)
  }

  /**
   * With a decay factor in [0, 1], a step never raises epsilon, leaves it
   * fixed once it is at or below the floor, and never takes it below
   * minEpsilon * decay if it was not already there.
   */
  lemma DecayStep(epsilon: real, minEpsilon: real, decay: real)
    requires 0.0 <= decay <= 1.0 && 0.0 <= minEpsilon
    ensures DecayedEpsilon(epsilon, minEpsilon, decay) <= epsilon
    ensures epsilon <= minEpsilon ==> DecayedEpsilon(epsilon, minEpsilon, decay) == epsilon
    ensures minEpsilon * decay <= epsilon ==> minEpsilon * decay <= DecayedEpsilon(epsilon, minEpsilon, decay)
  {
    if epsilon > minEpsilon {
      assert epsilon * decay <= epsilon * 1.0;
      assert minEpsilon * decay <= epsilon * decay;
    }
  }

  /** The floor minEpsilon * decay is not negative. */
  lemma FloorNonNegative(minEpsilon: real, decay: real)
    requires 0.0 <= decay && 0.0 <= minEpsilon
    ensures 0.0 <= minEpsilon * decay
  {
    assert 0.0 * decay <= minEpsilon * decay;
  }

  /**
   * Over any number of batches epsilon is non-increasing, stays at or
   * above minEpsilon * decay, and stays put once it reaches the floor.
   */
  lemma {:induction false} EpsilonSchedule(epsilon: real, minEpsilon: real, decay: real, n: nat)
    requires 0.0 <= decay <= 1.0 && 0.0 <= minEpsilon && minEpsilon * decay <= epsilon
    ensures EpsilonAfter(epsilon, minEpsilon, decay, n + 1) <= EpsilonAfter(epsilon, minEpsilon, decay, n)
    ensures EpsilonAfter(epsilon, minEpsilon, decay, n) <= epsilon
    ensures minEpsilon * decay <= EpsilonAfter(epsilon, minEpsilon, decay, n)
    ensures EpsilonAfter(epsilon, minEpsilon, decay, n) <= minEpsilon ==>
              EpsilonAfter(epsilon, minEpsilon, decay, n + 1) == EpsilonAfter(epsilon, minEpsilon, decay, n)
  {
    FloorNonNegative(minEpsilon, decay);
    var e := EpsilonAfter(epsilon, minEpsilon, decay, n);
    if n > 0 {
      EpsilonSchedule(epsilon, minEpsilon, decay, n - 1);
      var e0 := EpsilonAfter(epsilon, minEpsilon, decay, n - 1);
      assert e == DecayedEpsilon(e0, minEpsilon, decay);
      DecayStep(e0, minEpsilon, decay);
    }
    assert EpsilonAfter(epsilon, minEpsilon, decay, n + 1) == DecayedEpsilon(e, minEpsilon, decay);
    DecayStep(e, minEpsilon, decay);
  }

  /** The last decay step can end below the floor: the Go code does not clamp. */
  lemma EpsilonCanUndershoot()
    ensures DecayedEpsilon(0.01001, 0.01, 0.995) < 0.01
  {
  }

  /** The DQN agent. Networks are values, so a clone shares nothing with its original. */
  class DqnAgent<N(!new)> {
    var qNetwork: N
    var targetNetwork: N
    const replayBuffer: ReplayBuffer
    const gamma: real
    var epsilon: real
    const minEpsilon: real
    const epsilonDecay: real
    const learningRate: real
    const updateTarget: int
    const playerSymbol: int
    const ops: NetworkOps<N>
    const outputSize: nat

    ghost predicate Valid()
      reads this, replayBuffer, replayBuffer.experiences
    {
      && replayBuffer.Valid()
      && updateTarget > 0
      && PredictsLength(ops, outputSize)
    }

    /**
     * A new agent: the target network starts as a copy of the Q-network,
     * epsilon at 1 and the Go code's fixed hyperparameters.
     */
    constructor (outputSize: nat, bufferCapacity: nat, playerSymbol: int, initialNetwork: N, ops: NetworkOps<N>)
      requires PredictsLength(ops, outputSize)
      ensures Valid() && fresh(replayBuffer) && fresh(replayBuffer.experiences)
      ensures qNetwork == initialNetwork && targetNetwork == qNetwork
      ensures replayBuffer.capacity == bufferCapacity && replayBuffer.size == 0 && replayBuffer.index == 0
      ensures gamma == 0.99 && epsilon == 1.0 && minEpsilon == 0.01 && epsilonDecay == 0.995
      ensures learningRate == 0.001 && updateTarget == 1000
      ensures this.playerSymbol == playerSymbol && this.ops == ops && this.outputSize == outputSize
    {
      qNetwork := initialNetwork;
      targetNetwork := initialNetwork;
      replayBuffer := new ReplayBuffer(bufferCapacity);
      gamma := 0.99;
      epsilon := 1.0;
      minEpsilon := 0.01;
      epsilonDecay := 0.995;
      learningRate := 0.001;
      updateTarget := 1000;
      this.playerSymbol := playerSymbol;
      this.ops := ops;
      this.outputSize := outputSize;
    }

    /**
     * Epsilon-greedy choice. `roll` is the uniform draw compared with
     * epsilon and `pick` the index drawn among the empty cells. Returns
     * -1 when no cell is empty, and also when no legal Q-value exceeds
     * -MaxFloat64 on the greedy path.
     */
    method ChooseAction(board: Board, roll: real, pick: nat) returns (action: int)
      requires Valid() && board.Valid()
      requires forall k | 0 <= k < |EmptyIndices(board.cells[..])| :: EmptyIndices(board.cells[..])[k] < outputSize
      requires 0.0 <= roll < 1.0
      requires EmptyIndices(board.cells[..]) != [] ==> pick < |EmptyIndices(board.cells[..])|
      ensures
        var legal := EmptyIndices(board.cells[..]);
        var q := ops.predict(qNetwork, StateVector(board.cells[..], playerSymbol));
        && (forall k | 0 <= k < |legal| :: 0 <= legal[k] < |q|)
        && (legal == [] ==> action == -1)
        && (legal != [] && roll < epsilon ==> action == legal[pick])
        && (legal != [] && epsilon <= roll ==>
              if forall k | 0 <= k < |legal| :: q[legal[k]] <= -MaxFloat64
              then action == -1
              else FirstArgMax(legal, q, action))
      ensures action == -1 || action in EmptyIndices(board.cells[..])
    {
      EmptyIndicesExact(board.cells[..]);
      var emptyCells := board.GetEmptyCells();
      if |emptyCells| == 0 {
        return -1;
      }
      if roll < epsilon {
        return emptyCells[pick];
      }
      var stateVec := board.GetStateVector(playerSymbol);
      var qValues := ops.predict(qNetwork, stateVec);
      action := GreedyAction(emptyCells, qValues);
    }

    /**
     * One learning step. `draws` are the replay buffer's random slot
     * picks. Without a full batch nothing changes; otherwise the
     * Q-network is trained on each sampled experience in turn, epsilon
     * decays, and the target network becomes a copy of the Q-network
     * when `step` is a multiple of the sync interval.
     */
    method Train(batchSize: nat, step: int, draws: seq<nat>)
      requires Valid()
      requires batchSize <= replayBuffer.size ==>
        |draws| == batchSize && forall i | 0 <= i < |draws| :: draws[i] < replayBuffer.size
      requires batchSize <= replayBuffer.size ==>
        forall i | 0 <= i < |draws| :: 0 <= replayBuffer.experiences[draws[i]].action < outputSize
      modifies this
      ensures Valid()
      ensures replayBuffer.size < batchSize ==>
        qNetwork == old(qNetwork) && targetNetwork == old(targetNetwork) && epsilon == old(epsilon)
      ensures batchSize <= replayBuffer.size ==>
        && ActionsBelow(Drawn(replayBuffer.experiences[..], draws), outputSize)
        && qNetwork == TrainOnBatch(ops, outputSize, old(qNetwork), old(targetNetwork),
                                    Drawn(replayBuffer.experiences[..], draws), gamma, learningRate)
        && epsilon == DecayedEpsilon(old(epsilon), minEpsilon, epsilonDecay)
        && targetNetwork == (if step % updateTarget == 0 then qNetwork else old(targetNetwork))
    {
      var batch := replayBuffer.Sample(batchSize, draws);
      if batch.None? {
        return;
      }
      var b := batch.value;
      assert b == Drawn(replayBuffer.experiences[..], draws);
      assert ActionsBelow(b, outputSize);
      qNetwork := TrainQNetwork(ops, outputSize, qNetwork, targetNetwork, b, gamma, learningRate);
      if epsilon > minEpsilon {
        epsilon := epsilon * epsilonDecay;
      }
      if step % updateTarget == 0 {
        targetNetwork := qNetwork;
      }
    }
  }
}
