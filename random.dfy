/** The seeded `java.util.Random` streams the vegetation uses, as an abstract
    deterministic oracle: draw number `i` of the stream created with
    `new Random(Objects.hash(x, salt, worldSeed))` is `oracle(StreamKey(x, salt, worldSeed), i)`.
    The numeric values of the draws are not modelled, only which draw each call consumes. */
module Rand {

  /** The arguments of the `Objects.hash(x, salt, worldSeed)` a stream is seeded with. */
  datatype StreamKey = StreamKey(x: int, salt: int, seed: int)

  /** Raw draw `i` of stream `k`; every `nextDouble` or `nextInt` call consumes one. */
  type Oracle = (StreamKey, nat) -> nat

  /** `nextDouble` yields a multiple of 2^-53 in [0, 1). */
  const DOUBLE_STEPS: nat := 0x20_0000_0000_0000

  /** The value `nextDouble` returns as draw `i` of stream `k`. */
  function DoubleAt(o: Oracle, k: StreamKey, i: nat): (d: real)
    ensures 0.0 <= d < 1.0
  {
    var m := o(k, i) % DOUBLE_STEPS;
    assert (m as real) < (DOUBLE_STEPS as real);
    (m as real) / (DOUBLE_STEPS as real)
  }

  /** The value `nextInt(bound)` returns as draw `i` of stream `k`. */
  function IntAt(o: Oracle, k: StreamKey, i: nat, bound: nat): (n: nat)
    requires bound > 0
    ensures n < bound
  {
    o(k, i) % bound
  }

  /** A `java.util.Random` instance: which stream it is and how many draws it has consumed. */
  class Random {
    const oracle: Oracle
    const key: StreamKey
    var pos: nat

    /** `new Random(Objects.hash(key.x, key.salt, key.seed))`. */
    constructor (oracle: Oracle, key: StreamKey)
      ensures this.oracle == oracle && this.key == key && pos == 0
    {
      this.oracle := oracle;
      this.key := key;
      pos := 0;
    }

    /** `nextDouble()`: the next draw, as a value in [0, 1). */
    method NextDouble() returns (d: real)
      modifies this
      ensures d == DoubleAt(oracle, key, old(pos)) && 0.0 <= d < 1.0
      ensures pos == old(pos) + 1
    {
      d := DoubleAt(oracle, key, pos);
      pos := pos + 1;
    }

    /** `nextInt(bound)`: the next draw, as a value in [0, bound). */
    method NextInt(bound: nat) returns (n: nat)
      requires bound > 0
      modifies this
      ensures n == IntAt(oracle, key, old(pos), bound) && n < bound
      ensures pos == old(pos) + 1
    {
      n := IntAt(oracle, key, pos, bound);
      pos := pos + 1;
    }
  }
}
