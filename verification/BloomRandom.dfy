/** The generator that turns hash values into signature bits: Park and Miller's
    minimal standard, on 32-bit integers. */
module BloomRandom {
  import opened Common

  const MODULUS: int := 0x7fff_ffff

  type Int32 = n: int | INT32_MIN <= n <= INT32_MAX
  type UInt32 = n: int | 0 <= n < 0x1_0000_0000

  /** Division and remainder as C computes them, truncating toward zero. */
  function Quot(a: int, b: int): int
    requires b > 0
  {
    if a < 0 then -((-a) / b) else a / b
  }

  function Rem(a: int, b: int): int
    requires b > 0
  {
    if a < 0 then -((-a) % b) else a % b
  }

  function ToInt32(seed: UInt32): Int32 { if seed <= INT32_MAX then seed else seed - 0x1_0000_0000 }

  /** One step of the generator, on mathematical integers. */
  function NextState(x: int): int
  {
    var v := 16807 * Rem(x, 127773) - 2836 * Quot(x, 127773);
    if v < 0 then v + MODULUS else v
  }

  function SeedState(seed: UInt32): int { Rem(ToInt32(seed), 0x7fff_fffe) + 1 }

  lemma QuotRem(a: int, b: int)
    requires b > 0
    ensures a == b * Quot(a, b) + Rem(a, b) && -b < Rem(a, b) < b
    ensures a >= 0 ==> Quot(a, b) >= 0 && Rem(a, b) >= 0
    ensures a <= 0 ==> Quot(a, b) <= 0 && Rem(a, b) <= 0
  {
    var n := if a < 0 then -a else a;
    assert n == b * (n / b) + n % b;
    assert b * (-(n / b)) == -(b * (n / b));
  }

  lemma Bounds(x: int)
    requires -MODULUS < x < MODULUS
    ensures -16807 <= Quot(x, 127773) <= 16807 && -127773 < Rem(x, 127773) < 127773
  {
    QuotRem(x, 127773);
  }

  /** The step computes 16807 * x modulo 2^31 - 1, no intermediate value leaves
      32 bits, and only 0 leads to 0. */
  lemma NextIsModular(x: int)
    requires -MODULUS < x < MODULUS
    ensures INT32_MIN <= 16807 * Rem(x, 127773) <= INT32_MAX && INT32_MIN <= 2836 * Quot(x, 127773) <= INT32_MAX
    ensures INT32_MIN <= 16807 * Rem(x, 127773) - 2836 * Quot(x, 127773) <= INT32_MAX
    ensures NextState(x) == (16807 * x) % MODULUS
    ensures 0 <= NextState(x) < MODULUS && (NextState(x) == 0 <==> x == 0)
  {
    var hi, lo := Quot(x, 127773), Rem(x, 127773);
    QuotRem(x, 127773);
    Bounds(x);
    var v := 16807 * lo - 2836 * hi;
    assert 16807 * x == MODULUS * hi + v;
    if v == 0 { OnlyZero(x, hi, lo); }
    var q := if v < 0 then hi - 1 else hi;
    assert 16807 * x == MODULUS * q + NextState(x);
    ModUnique(16807 * x, q, NextState(x));
  }

  lemma ModUnique(a: int, q: int, r: int)
    requires a == MODULUS * q + r && 0 <= r < MODULUS
    ensures a % MODULUS == r
  {
  }

  /** 16807 and 2836 have no common factor, so the two products agree only at 0. */
  lemma OnlyZero(x: int, hi: int, lo: int)
    requires -MODULUS < x < MODULUS && x == 127773 * hi + lo && 16807 * lo == 2836 * hi && -16807 <= hi <= 16807
    ensures x == 0
  {
    var t := 5790 * lo - 977 * hi;
    assert hi == 16807 * t;
    assert -1 <= t <= 1;
  }

  lemma SeedBounds(seed: UInt32)
    ensures -MODULUS < SeedState(seed) < MODULUS
    ensures seed <= INT32_MAX ==> SeedState(seed) == seed % 0x7fff_fffe + 1
    ensures seed > INT32_MAX ==> SeedState(seed) == 1 - (0x1_0000_0000 - seed) % 0x7fff_fffe
    ensures SeedState(seed) == 0 <==> seed == 0x8000_0001 || seed == 0xffff_ffff
    ensures 1 <= SeedState(seed) <= 0x7fff_fffe <==> seed <= INT32_MAX || seed == 0x8000_0002
  {
    QuotRem(ToInt32(seed), 0x7fff_fffe);
  }

  // ---------------------------------------------------------------- draws

  /** The state after `k` draws from a seed. */
  function StateAfter(seed: UInt32, k: nat): int
  {
    if k == 0 then SeedState(seed) else NextState(StateAfter(seed, k - 1))
  }

  /** The value the k-th call returns. */
  function Draw(seed: UInt32, k: nat): int
    requires k > 0
  {
    StateAfter(seed, k) - 1
  }

  lemma {:induction false} StatesBounded(seed: UInt32, k: nat)
    ensures -MODULUS < StateAfter(seed, k) < MODULUS
    ensures k > 0 ==> StateAfter(seed, k) >= 0
    ensures StateAfter(seed, k) == 0 <==> SeedState(seed) == 0
  {
    if k == 0 {
      SeedBounds(seed);
    } else {
      StatesBounded(seed, k - 1);
      NextIsModular(StateAfter(seed, k - 1));
    }
  }

  /** Every draw lies in the promised range, except from two seeds; from those
      every draw is -1. */
  lemma DrawsInRangeIff(seed: UInt32)
    ensures (forall k: nat :: k > 0 ==> 0 <= Draw(seed, k) <= 0x7fff_fffd) <==>
            seed != 0x8000_0001 && seed != 0xffff_ffff
    ensures seed == 0x8000_0001 || seed == 0xffff_ffff ==> forall k: nat :: k > 0 ==> Draw(seed, k) == -1
  {
    SeedBounds(seed);
    forall k: nat | k > 0
      ensures SeedState(seed) != 0 ==> 0 <= Draw(seed, k) <= 0x7fff_fffd
      ensures SeedState(seed) == 0 ==> Draw(seed, k) == -1
    {
      StatesBounded(seed, k);
    }
    assert Draw(seed, 1) == -1 || SeedState(seed) != 0;
  }

  // ---------------------------------------------------------- in closed form

  function Power(b: nat, k: nat): nat { if k == 0 then 1 else b * Power(b, k - 1) }

  /** Taking the first step first makes no difference modulo 2^31 - 1. */
  lemma ModProduct(p: nat, x: int)
    ensures (p * ((16807 * x) % MODULUS)) % MODULUS == ((16807 * p) * x) % MODULUS
  {
    var q := (16807 * x) / MODULUS;
    var y := (16807 * x) % MODULUS;
    assert 16807 * x == MODULUS * q + y;
    assert (16807 * p) * x == p * (16807 * x) == p * (MODULUS * q) + p * y == MODULUS * (p * q) + p * y;
    var t := (p * y) / MODULUS;
    assert p * y == MODULUS * t + (p * y) % MODULUS;
    assert (16807 * p) * x == MODULUS * (p * q + t) + (p * y) % MODULUS;
    ModUnique((16807 * p) * x, p * q + t, (p * y) % MODULUS);
  }

  /** The state after k draws is the seed's times 16807 to the k. */
  lemma {:induction false} StateIsPower(seed: UInt32, k: nat)
    requires k > 0
    ensures StateAfter(seed, k) == (Power(16807, k) * SeedState(seed)) % MODULUS
  {
    StatesBounded(seed, k - 1);
    NextIsModular(StateAfter(seed, k - 1));
    if k == 1 {
      assert Power(16807, 1) == 16807 * Power(16807, 0) == 16807;
      assert StateAfter(seed, 1) == NextState(StateAfter(seed, 0));
    } else {
      StateIsPower(seed, k - 1);
      PowerStep(Power(16807, k - 1), SeedState(seed));
    }
  }

  lemma PowerStep(p: nat, x: int)
    ensures (16807 * ((p * x) % MODULUS)) % MODULUS == ((16807 * p) * x) % MODULUS
  {
    var q := (p * x) / MODULUS;
    var y := (p * x) % MODULUS;
    assert p * x == MODULUS * q + y;
    assert (16807 * p) * x == 16807 * (p * x) == MODULUS * (16807 * q) + 16807 * y;
    var t := (16807 * y) / MODULUS;
    assert 16807 * y == MODULUS * t + (16807 * y) % MODULUS;
    ModUnique((16807 * p) * x, 16807 * q + t, (16807 * y) % MODULUS);
  }

  /** One step never merges two states. */
  lemma NextIsInjective(x: int, y: int)
    requires 0 <= x < MODULUS && 0 <= y < MODULUS && NextState(x) == NextState(y)
    ensures x == y
  {
    NextIsModular(x);
    NextIsModular(y);
    NextIsModular(x - y);
    var q := (16807 * x) / MODULUS - (16807 * y) / MODULUS;
    assert 16807 * (x - y) == MODULUS * q;
    ModUnique(16807 * (x - y), q, 0);
  }

  /** The generator's state, shared by every signature computed. */
  class Generator {
    var next: Int32

    constructor ()
      ensures next == 0
    {
      next := 0;
    }

    /** `myRand`, with every intermediate value kept in 32 bits. */
    method Rand() returns (r: Int32)
      requires -MODULUS < next < MODULUS
      modifies this
      ensures next == NextState(old(next)) == (16807 * old(next)) % MODULUS && r == next - 1
    {
      NextIsModular(next);
      var hi: Int32, lo: Int32 := Quot(next, 127773), Rem(next, 127773);
      var x: Int32 := 16807 * lo - 2836 * hi;
      if x < 0 {
        x := x + 0x7fff_ffff;
      }
      next := x;
      r := x - 1;
    }

    /** `mySrand`. */
    method Seed(seed: UInt32)
      modifies this
      ensures next == SeedState(seed) && -MODULUS < next < MODULUS
    {
      SeedBounds(seed);
      next := ToInt32(seed);
      next := Rem(next, 0x7fff_fffe) + 1;
    }
  }
}
