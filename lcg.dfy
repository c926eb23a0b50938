/** The linear congruential generator that picks the initial centres
    (`struct Rng` in src/main.rs). */
module Lcg {

  /** An unsigned 64-bit integer (Rust `u64`). */
  type u64 = x: int | 0 <= x < 0x1_0000_0000_0000_0000

  const TWO_TO_64: nat := 0x1_0000_0000_0000_0000
  const MULTIPLIER: u64 := 6364136223846793005
  const INCREMENT: u64 := 1442695040888963407
  /** 2^63, the modulus the state is finally reduced by. */
  const MODULUS: u64 := 0x8000_0000_0000_0000

  /** `u64::wrapping_mul` */
  function WrappingMul(x: u64, y: u64): u64 {
    (x * y) % TWO_TO_64
  }

  /** `u64::wrapping_add` */
  function WrappingAdd(x: u64, y: u64): u64 {
    (x + y) % TWO_TO_64
  }

  /** The state after one step of the generator, computed as the program does:
      wrapping multiply, wrapping add, then `% 2^63`. */
  function NextState(s: u64): (r: u64)
    ensures r < MODULUS
  {
    WrappingAdd(WrappingMul(MULTIPLIER, s), INCREMENT) % MODULUS
  }

  /** The 64-bit wrap-around is invisible in the result: one step is the affine
      map `s -> (A * s + C) mod 2^63` on unbounded integers. */
  lemma NextStateAffine(s: u64)
    ensures NextState(s) == (MULTIPLIER * s + INCREMENT) % MODULUS
  {
    var p := MULTIPLIER * s;
    ModOfMod(p % TWO_TO_64 + INCREMENT, TWO_TO_64 / MODULUS, MODULUS);
    ModAddMultiple(p + INCREMENT, p / TWO_TO_64 * (TWO_TO_64 / MODULUS), MODULUS);
  }

  /** Reducing by a multiple of `m` first does not change the residue mod `m`. */
  lemma ModOfMod(x: nat, q: nat, m: nat)
    requires m > 0 && q > 0
    ensures (x % (q * m)) % m == x % m
  {
    ModAddMultiple(x % (q * m), x / (q * m) * q, m);
    assert x == x % (q * m) + x / (q * m) * q * m;
  }

  /** Adding a multiple of `m` does not change the residue mod `m`. */
  lemma ModAddMultiple(x: nat, q: nat, m: nat)
    requires m > 0
    ensures (x + q * m) % m == x % m
  {
    var r := x % m;
    var d := x / m;
    assert x + q * m == (d + q) * m + r;
    DivModUnique(x + q * m, m, d + q, r);
  }

  lemma DivModUnique(x: nat, m: nat, q: nat, r: nat)
    requires m > 0 && r < m && x == q * m + r
    ensures x % m == r
  {
    var q', r' := x / m, x % m;
    if q > q' {
      MulAtLeast(q - q', q', m);
    } else if q < q' {
      MulAtLeast(q' - q, q, m);
    }
  }

  /** `(b + d) * m >= b * m + m` once `d >= 1`. */
  lemma MulAtLeast(d: nat, b: nat, m: nat)
    requires d >= 1
    ensures (b + d) * m >= b * m + m
  {
    assert (b + d) * m == b * m + (d - 1) * m + m;
  }

  /** The state after `n` calls of `next` on a generator seeded with `seed`. */
  function StateAfter(seed: u64, n: nat): (s: u64)
    ensures n > 0 ==> s < MODULUS
  {
    if n == 0 then seed else NextState(StateAfter(seed, n - 1))
  }

  /** The stream depends on nothing but the state: `m` draws followed by `n`
      draws give the same state as a generator freshly seeded with the state
      reached after the first `m`, advanced `n` times. */
  lemma {:induction false} StateAfterAdd(seed: u64, m: nat, n: nat)
    ensures StateAfter(StateAfter(seed, m), n) == StateAfter(seed, m + n)
  {
    if n > 0 {
      StateAfterAdd(seed, m, n - 1);
    }
  }

  /** The generator object; `seed` is its whole state. */
  class Rng {
    var seed: u64

    /** `Rng::new` keeps the seed as given. */
    constructor (seed: u64)
      ensures this.seed == seed
    {
      this.seed := seed;
    }

    /** `Rng::next`: advances the state by one step and returns the new state. */
    method Next() returns (r: u64)
      modifies this
      ensures seed == NextState(old(seed))
      ensures r == seed && r < MODULUS
    {
      seed := WrappingAdd(WrappingMul(MULTIPLIER, seed), INCREMENT) % MODULUS;
      r := seed;
    }
  }
}
