/**
 * XRnd: the engine's linear congruential random generator over one global
 * unsigned 32-bit state. The model keeps the state in a class whose one
 * instance stands for the global variable.
 */
module RandomGenerators {
  import opened Wrappers

  /** The state the generator starts from. */
  const InitialState: U32 := 83838383

  /** The multiplier and the increment of the generator. */
  const Multiplier: int := 214013
  const Increment: int := 2531011

  /** One step of the generator: state * 214013 + 2531011, wrapped to 32 bits. */
  function Next(s: U32): U32 {
    (s * Multiplier + Increment) % Two32
  }

  /** The 15 bits `(state >> 16) & 0x7fff` of a state. */
  function HighBits(s: U32): (b: int)
    ensures 0 <= b < 0x8000
  {
    s / 0x1_0000 % 0x8000
  }

  /** What XRnd(m) returns once the state has advanced to `s`. */
  function Draw(s: U32, m: U32): int {
    if m == 0 then 0 else HighBits(s) % m
  }

  /** The draw is 0 for m = 0, and otherwise below both m and 2^15. */
  lemma DrawInRange(s: U32, m: U32)
    ensures Draw(s, m) >= 0
    ensures m == 0 ==> Draw(s, m) == 0
    ensures m > 0 ==> Draw(s, m) < m && Draw(s, m) < 0x8000
  {
    if m > 0 {
      ModAtMost(HighBits(s), m);
    }
  }

  /** A remainder is at most the number divided. */
  lemma ModAtMost(x: nat, m: int)
    requires m > 0
    ensures x % m <= x
  {
    var q := x / m;
    assert x == m * q + x % m;
    assert m * q >= 0 by {
      assert q >= 0;
    }
  }

  class Generator {
    var state: U32

    /** The initial value of XRndValue. */
    constructor()
      ensures XRndGet() == InitialState
    {
      state := InitialState;
    }

    /** XRnd: every call advances the state, also for m = 0; then the draw from the new state. */
    method XRnd(m: U32) returns (r: U32)
      modifies this
      ensures state == Next(old(state))
      ensures r == Draw(state, m)
    {
      state := (state * 214013 + 2531011) % Two32;
      if m == 0 {
        return 0;
      }
      r := (state / 0x1_0000 % 0x8000) % m;
    }

    /** XRndSet: afterwards XRndGet() gives the value set. */
    method XRndSet(m: U32)
      modifies this
      ensures XRndGet() == m
    {
      state := m;
    }

    /** XRndGet. */
    function XRndGet(): (r: U32)
      reads this
      ensures r == state
    {
      state
    }
  }

  /** The inverse of the multiplier modulo 2^32: 214013 is odd, so it has one. */
  const Inverse: int := 3115528533

  /** The state one step before `t`. */
  function Prev(t: U32): U32 {
    ((t - Increment) * Inverse) % Two32
  }

  /**
   * A step of the generator can be undone: no two states lead to the same
   * next state, so the generator never merges two sequences of draws.
   */
  lemma StepInvertible(s: U32)
    ensures Prev(Next(s)) == s
    ensures forall t: U32 :: Next(t) == Next(s) ==> t == s
  {
    StepUndone(s);
    forall t: U32 | Next(t) == Next(s)
      ensures t == s
    {
      StepUndone(t);
    }
  }

  /** Prev undoes Next on one state. */
  lemma StepUndone(s: U32)
    ensures Prev(Next(s)) == s
  {
    var q := (s * Multiplier + Increment) / Two32;
    var n := Next(s);
    assert n == s * Multiplier + Increment - q * Two32;
    assert Multiplier * Inverse == 1 + 155243 * Two32;
    var k := s * 155243 - q * Inverse;
    calc {
      (n - Increment) * Inverse;
      (s * Multiplier - q * Two32) * Inverse;
      s * (Multiplier * Inverse) - q * Inverse * Two32;
      s * (1 + 155243 * Two32) - q * Inverse * Two32;
      s + k * Two32;
    }
    ModOfMultiple(s, k);
  }

  /** Adding a multiple of 2^32 to a 32-bit value does not change its remainder. */
  lemma ModOfMultiple(s: U32, k: int)
    ensures (s + k * Two32) % Two32 == s
  {
  }

  /** The first three states and draws from the initial state. */
  lemma FirstStates()
    ensures Next(InitialState) == 2427996598 && HighBits(2427996598) == 4280
    ensures Next(2427996598) == 515119521 && HighBits(515119521) == 7860
    ensures Next(515119521) == 3350992352 && HighBits(3350992352) == 18364
  {
  }
}
