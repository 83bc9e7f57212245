/** The simulation's single random source (`Life.rn`, a java.util.Random).
    It is modelled as an oracle: an arbitrary infinite stream of naturals and
    the number of draws taken from it so far. A draw for `nextInt(bound)` is
    the next stream value reduced below `bound`, so every sequence of in-range
    draws is produced by some stream and no distribution is assumed. */
module Randomness {

  /** The value `nextInt(bound)` returns when it is the k-th draw. */
  function IntAt(stream: nat -> nat, k: nat, bound: int): (r: int)
    requires bound > 0
    ensures 0 <= r < bound
  {
    stream(k) % bound
  }

  /** The value `nextBoolean()` returns when it is the k-th draw. */
  function BoolAt(stream: nat -> nat, k: nat): bool
  {
    stream(k) % 2 == 1
  }

  /** A stream value already below the bound is drawn as itself. */
  lemma DrawInRange(stream: nat -> nat, k: nat, bound: int)
    requires 0 <= stream(k) < bound
    ensures IntAt(stream, k, bound) == stream(k)
  {
  }

  /** Any value in range can be the k-th draw: the oracle rules out nothing. */
  lemma AnyDrawPossible(k: nat, bound: int, v: int)
    requires 0 <= v < bound
    ensures exists stream: nat -> nat :: IntAt(stream, k, bound) == v
  {
    var constant: nat -> nat := _ => v;
    assert IntAt(constant, k, bound) == v;
  }

  class Random {
    const stream: nat -> nat
    var drawn: nat

    constructor (stream: nat -> nat)
      ensures this.stream == stream && drawn == 0
    {
      this.stream := stream;
      drawn := 0;
    }

    method NextInt(bound: int) returns (r: int)
      requires bound > 0
      modifies this`drawn
      ensures r == IntAt(stream, old(drawn), bound)
      ensures drawn == old(drawn) + 1
    {
      r := IntAt(stream, drawn, bound);
      drawn := drawn + 1;
    }

    method NextBoolean() returns (b: bool)
      modifies this`drawn
      ensures b == BoolAt(stream, old(drawn))
      ensures drawn == old(drawn) + 1
    {
      b := BoolAt(stream, drawn);
      drawn := drawn + 1;
    }
  }
}
