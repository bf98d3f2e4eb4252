/**
 * The experience replay buffer of the DQN trainer: a fixed-capacity ring of
 * past transitions with a write cursor and a fill count, sampled uniformly
 * with replacement. The random draws are supplied by the caller. Modelled
 * on `ReplayBuffer` in neural/train.go, package `neural` of go-sample-neural.
 */
module Replay {

  /** One environment transition. Real numbers stand for the Go code's float64. */
  datatype Experience = Experience(
    state: seq<real>,
    action: int,
    reward: real,
    nextState: seq<real>,
    done: bool)

  /** The zero value that every slot of a new buffer holds. */
  const Blank := Experience([], 0, 0.0, [], false)

  /** Absent (the Go code's nil slice) or present. */
  datatype Option<T> = None | Some(value: T)

  function Min(a: int, b: int): (m: int) { if a <= b then a else b }

  /**
   * The slots of a buffer of the given capacity after the experiences of
   * `h` were added, in order, to a fresh buffer: the k-th addition lands
   * in slot k % capacity.
   */
  function Ring(h: seq<Experience>, capacity: nat): (r: seq<Experience>)
    requires capacity > 0 || h == []
    ensures |r| == capacity
  {
    if h == [] then seq(capacity, _ => Blank)
    else Ring(h[..|h| - 1], capacity)[(|h| - 1) % capacity := h[|h| - 1]]
  }

  /** The batch formed by reading the slots the draws name. */
  function Drawn(slots: seq<Experience>, draws: seq<nat>): (b: seq<Experience>)
    requires forall i | 0 <= i < |draws| :: draws[i] < |slots|
    ensures |b| == |draws|
    ensures forall i | 0 <= i < |b| :: b[i] == slots[draws[i]]
  {
    seq(|draws|, i requires 0 <= i < |draws| => slots[draws[i]])
  }

  lemma ModSmall(x: int, m: int)
    requires 0 <= x < m
    ensures x % m == x
  {
  }

  lemma MulBounds(m: int, d: int)
    requires m > 0
    ensures d <= -1 ==> m * d <= -m
    ensures d >= 1 ==> m * d >= m
  {
  }

  /** Quotient and remainder are unique. */
  lemma ModUnique(x: int, m: int, q: int, r: int)
    requires m > 0 && 0 <= r < m && x == m * q + r
    ensures x % m == r
  {
    var d := q - x / m;
    assert m * d == x % m - r;
    MulBounds(m, d);
  }

  /** Advancing the cursor by one keeps it equal to the count modulo the capacity. */
  lemma ModStep(x: nat, m: int)
    requires m > 0
    ensures (x % m + 1) % m == (x + 1) % m
  {
    var q := x / m;
    if x % m + 1 < m {
      ModUnique(x + 1, m, q, x % m + 1);
      ModSmall(x % m + 1, m);
    } else {
      ModUnique(x + 1, m, q + 1, 0);
    }
  }

  lemma ModShift(k: int, m: int)
    requires m > 0
    ensures (k + m) % m == k % m
  {
    ModUnique(k + m, m, k / m + 1, k % m);
  }

  /** Two positions closer than the modulus land in different slots. */
  lemma ModDistinct(a: int, b: int, m: int)
    requires m > 0 && 0 <= a < b < a + m
    ensures a % m != b % m
  {
    var q, r := a / m, a % m;
    if r + (b - a) < m {
      ModUnique(b, m, q, r + (b - a));
    } else {
      ModUnique(b, m, q + 1, r + (b - a) - m);
    }
  }

  /** Adding one experience is a single slot overwrite at the old cursor. */
  lemma RingAdd(h: seq<Experience>, e: Experience, capacity: nat)
    requires capacity > 0
    ensures Ring(h + [e], capacity) == Ring(h, capacity)[|h| % capacity := e]
  {
    assert (h + [e])[..|h|] == h;
  }

  /**
   * Until the buffer wraps, slots [0, n) hold the n experiences in the
   * order they were added and the remaining slots still hold Blank.
   */
  lemma {:induction false} RingBeforeWrap(h: seq<Experience>, capacity: nat)
    requires |h| <= capacity
    ensures Ring(h, capacity)[..|h|] == h
    ensures forall j | |h| <= j < capacity :: Ring(h, capacity)[j] == Blank
  {
    if h != [] {
      var n := |h| - 1;
      var h0 := h[..n];
      RingBeforeWrap(h0, capacity);
      ModSmall(n, capacity);
      assert Ring(h, capacity) == Ring(h0, capacity)[n := h[n]];
      assert Ring(h, capacity)[..|h|] == Ring(h0, capacity)[..n] + [h[n]];
      assert h == h0 + [h[n]];
    }
  }

  /**
   * Each of the last `capacity` experiences added is still stored, in the
   * slot its position selects: nothing among them has been overwritten.
   */
  lemma {:induction false} RingKeepsRecent(h: seq<Experience>, capacity: nat, k: int)
    requires capacity > 0
    requires 0 <= k < |h| && |h| - capacity <= k
    ensures Ring(h, capacity)[k % capacity] == h[k]
  {
    var n := |h| - 1;
    if k < n {
      RingKeepsRecent(h[..n], capacity, k);
      ModDistinct(k, n, capacity);
    }
  }

  /**
   * Every slot in the valid prefix [0, min(n, capacity)) holds one of the
   * last min(n, capacity) experiences added: older ones are overwritten.
   */
  lemma {:induction false} RingSlotSource(h: seq<Experience>, capacity: nat, j: int)
    requires capacity > 0
    requires 0 <= j < Min(|h|, capacity)
    ensures exists k | |h| - capacity <= k < |h| && 0 <= k :: k % capacity == j && Ring(h, capacity)[j] == h[k]
  {
    var n := |h| - 1;
    var h0 := h[..n];
    if j == n % capacity {
      assert n % capacity == j && Ring(h, capacity)[j] == h[n];
    } else if j < Min(n, capacity) {
      RingSlotSource(h0, capacity, j);
      var k :| n - capacity <= k < n && 0 <= k && k % capacity == j && Ring(h0, capacity)[j] == h0[k];
      if k == n - capacity {
        ModShift(k, capacity);
        assert false;
      }
      assert k % capacity == j && Ring(h, capacity)[j] == h[k];
    } else {
      assert j == n && n < capacity;
      ModSmall(n, capacity);
      assert false;
    }
  }

  /** The buffer. Its slots are an array that Add overwrites in place. */
  class ReplayBuffer {
    var experiences: array<Experience>
    var capacity: int
    var index: int
    var size: int
    /** Every experience added so far, oldest first. */
    ghost var history: seq<Experience>

    /**
     * The slots are exactly those of `capacity` slots after `history` was
     * added in order; the cursor is the number of additions modulo the
     * capacity and the fill count is that number capped at the capacity.
     */
    ghost predicate Valid()
      reads this, experiences
    {
      && experiences.Length == capacity
      && (capacity > 0 || history == [])
      && index == (if capacity > 0 then |history| % capacity else 0)
      && size == Min(|history|, capacity)
      && experiences[..] == Ring(history, capacity)
    }

    /** A new buffer: `capacity` blank slots, cursor and fill count zero. */
    constructor (capacity: nat)
      ensures Valid() && fresh(experiences)
      ensures this.capacity == capacity && experiences.Length == capacity
      ensures index == 0 && size == 0 && history == []
      ensures forall j | 0 <= j < capacity :: experiences[j] == Blank
    {
      experiences := new Experience[capacity](_ => Blank);
      this.capacity := capacity;
      index, size := 0, 0;
      history := [];
    }

    /**
     * Overwrites the slot at the cursor, advances the cursor around the
     * ring and counts the entry until the buffer is full. A zero capacity
     * is excluded: the slot write would be out of range.
     */
    method Add(exp: Experience)
      requires Valid() && capacity > 0
      modifies this, experiences
      ensures Valid() && experiences == old(experiences) && capacity == old(capacity)
      ensures history == old(history) + [exp]
      ensures experiences[..] == old(experiences[..])[old(index) := exp]
      ensures index == (old(index) + 1) % capacity
      ensures size == if old(size) < capacity then old(size) + 1 else old(size)
    {
      ModStep(|history|, capacity);
      RingAdd(history, exp, capacity);
      experiences[index] := exp;
      index := (index + 1) % capacity;
      if size < capacity {
        size := size + 1;
      }
      history := history + [exp];
    }

    /**
     * Refuses (None) when fewer than `batchSize` entries are stored;
     * otherwise copies, for each draw in turn, the slot it names. The
     * draws stand for the Go code's uniform rand.Intn(Size) picks.
     */
    method Sample(batchSize: nat, draws: seq<nat>) returns (batch: Option<seq<Experience>>)
      requires Valid()
      requires batchSize <= size ==> |draws| == batchSize && forall i | 0 <= i < |draws| :: draws[i] < size
      ensures batch.None? <==> size < batchSize
      ensures batch.Some? ==> |batch.value| == batchSize
      ensures batch.Some? ==> forall i | 0 <= i < batchSize :: batch.value[i] == experiences[draws[i]]
      ensures batch.Some? ==> forall i | 0 <= i < batchSize :: batch.value[i] in history[|history| - size..]
    {
      if size < batchSize {
        return None;
      }
      var samples := new Experience[batchSize](_ => Blank);
      for i := 0 to batchSize
        invariant forall j | 0 <= j < i :: samples[j] == experiences[draws[j]]
      {
        samples[i] := experiences[draws[i]];
      }
      batch := Some(samples[..]);
      forall i | 0 <= i < batchSize
        ensures batch.value[i] in history[|history| - size..]
      {
        RingSlotSource(history, capacity, draws[i]);
        var k :| |history| - capacity <= k < |history| && 0 <= k && k % capacity == draws[i]
          && Ring(history, capacity)[draws[i]] == history[k];
        assert history[k] == history[|history| - size..][k - (|history| - size)];
      }
    }
  }

  /** The fill count never exceeds the capacity and the cursor always names a slot. */
  lemma BufferBounds(b: ReplayBuffer)
    requires b.Valid()
    ensures 0 <= b.size <= b.capacity
    ensures b.capacity > 0 ==> 0 <= b.index < b.capacity
    ensures b.capacity == 0 ==> b.index == 0 && b.size == 0
  {
  }

  /** Before the first wrap-around the cursor equals the fill count and the valid prefix is the history. */
  lemma CursorTracksSizeBeforeWrap(b: ReplayBuffer)
    requires b.Valid() && b.size < b.capacity
    ensures b.index == b.size
    ensures b.experiences[..b.size] == b.history
  {
    ModSmall(|b.history|, b.capacity);
    RingBeforeWrap(b.history, b.capacity);
  }

  /** Once at least `capacity` entries were added the buffer stays full and holds exactly the newest ones. */
  lemma FullBufferHoldsNewest(b: ReplayBuffer, k: int)
    requires b.Valid() && b.capacity <= |b.history|
    requires |b.history| - b.capacity <= k < |b.history|
    ensures b.size == b.capacity
    ensures b.experiences[k % b.capacity] == b.history[k]
  {
    RingKeepsRecent(b.history, b.capacity, k);
  }
}
