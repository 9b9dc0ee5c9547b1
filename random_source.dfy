/**
 * The shared pseudo-random generator the password generator draws from
 * (.NET's System.Random). Only the ranges below are promised to callers;
 * every property proved about a caller therefore holds for every sequence
 * of draws the generator could produce.
 */
module RandomSource {

  /** Exclusive upper bound of `Random.Next()` (Int32.MaxValue). */
  const Int32MaxValue: int := 0x7FFF_FFFF

  class Random {
    /** The generator's internal state; its evolution is not part of any contract. */
    var state: int

    constructor (seed: int)
      ensures state == seed
    {
      state := seed;
    }

    /** Advances the internal state; one arbitrary choice of generator. */
    method Step() returns (x: nat)
      modifies this
      ensures x < 0x8000_0000
    {
      state := (state * 1103515245 + 12345) % 0x8000_0000;
      x := state;
    }

    /** `Next(maxValue)`: a draw in [0, maxValue); 0 when maxValue is 0. */
    method NextBelow(maxValue: int) returns (r: int)
      requires 0 <= maxValue
      modifies this
      ensures maxValue == 0 ==> r == 0
      ensures 0 < maxValue ==> 0 <= r < maxValue
    {
      var x := Step();
      r := if maxValue == 0 then 0 else x % maxValue;
    }

    /** `Next(minValue, maxValue)`: a draw in [minValue, maxValue); minValue when the two are equal. */
    method NextInRange(minValue: int, maxValue: int) returns (r: int)
      requires minValue <= maxValue
      modifies this
      ensures minValue == maxValue ==> r == minValue
      ensures minValue < maxValue ==> minValue <= r < maxValue
    {
      var offset := NextBelow(maxValue - minValue);
      r := minValue + offset;
    }

    /** `Next()`: a draw in [0, Int32.MaxValue). */
    method Next() returns (r: int)
      modifies this
      ensures 0 <= r < Int32MaxValue
    {
      r := NextBelow(Int32MaxValue);
    }
  }
}
