/** Fixed-width unsigned counters, as the engine's `u64` epoch fields use them. */
module Wrapping {

  const U64_MODULUS: int := 0x1_0000_0000_0000_0000

  newtype U64 = x: int | 0 <= x < 0x1_0000_0000_0000_0000

  /** `u64::wrapping_add(1)`: one more, modulo 2^64. */
  function WrappingInc(x: U64): (r: U64)
    ensures r as int == (x as int + 1) % U64_MODULUS
    ensures r != x
  {
    if x == 0xFFFF_FFFF_FFFF_FFFF then 0 else x + 1
  }

  /** The counter after `n` wrapping increments starting from `x`. */
  function Advance(x: U64, n: nat): U64
  {
    if n == 0 then x else WrappingInc(Advance(x, n - 1))
  }

  /** A counter that starts at 0 and is bumped once per round holds the
      number of rounds modulo 2^64. */
  lemma {:induction false} AdvanceFromZero(n: nat)
    ensures Advance(0, n) as int == n % U64_MODULUS
  {
    if n > 0 {
      AdvanceFromZero(n - 1);
      var q := (n - 1) / U64_MODULUS;
      assert n - 1 == q * U64_MODULUS + (n - 1) % U64_MODULUS;
      if (n - 1) % U64_MODULUS == U64_MODULUS - 1 {
        assert n == (q + 1) * U64_MODULUS;
      } else {
        assert n == q * U64_MODULUS + ((n - 1) % U64_MODULUS + 1);
      }
    }
  }
}
