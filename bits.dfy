/** Unbounded-integer bit arithmetic as the source uses it: `1 << n`, `x >> n`,
    `x << n`, `x & y` and `x | y` on non-negative integers, and `mask(n)`.
    Both source files define the same `mask`; it is modelled once here. */
module Bits {

  /** 2^n, i.e. `1 << n`. */
  function Pow2(n: nat): (r: nat)
    ensures r >= 1
  {
    if n == 0 then 1 else 2 * Pow2(n - 1)
  }

  /** `mask(n) = (1 << n) - 1`. */
  function Mask(n: nat): nat
  {
    Pow2(n) - 1
  }

  /** `x << n` */
  function Shl(x: nat, n: nat): nat
  {
    x * Pow2(n)
  }

  /** `x >> n` (for non-negative x Python's shift is a floor division) */
  function Shr(x: nat, n: nat): nat
  {
    var p := Pow2(n);
    DivNonNegative(x, p);
    x / p
  }

  /** Floor division of a non-negative integer by a positive one is non-negative. */
  lemma DivNonNegative(x: nat, d: nat)
    requires d > 0
    ensures x / d >= 0
  {
  }

  /** Bitwise `a & b` on non-negative integers, bit by bit from the lowest. */
  function BitAnd(a: nat, b: nat): nat
    decreases a
  {
    if a == 0 || b == 0 then 0
    else 2 * BitAnd(a / 2, b / 2) + (if a % 2 == 1 && b % 2 == 1 then 1 else 0)
  }

  /** Bitwise `a | b` on non-negative integers, bit by bit from the lowest. */
  function BitOr(a: nat, b: nat): nat
    decreases a + b
  {
    if a == 0 then b
    else if b == 0 then a
    else 2 * BitOr(a / 2, b / 2) + (if a % 2 == 1 || b % 2 == 1 then 1 else 0)
  }

  /** The powers of two the instruction format uses. */
  lemma Pow2Values()
    ensures Pow2(4) == 16 && Pow2(6) == 64 && Pow2(8) == 256
    ensures Pow2(18) == 262144 && Pow2(22) == 4194304 && Pow2(24) == 16777216
  {
    assert Pow2(4) == 16;
    assert Pow2(6) == 64;
    assert Pow2(8) == 256;
    assert Pow2(18) == 262144;
    assert Pow2(22) == 4194304;
    assert Pow2(24) == 16777216;
  }

  /** `mask(n)` is n one-bits: it is 2^n - 1, below 2^n, and its lowest bit
      is set with `mask(n-1)` above it. */
  lemma {:induction false} MaskOnes(n: nat)
    ensures Mask(n) + 1 == Pow2(n)
    ensures n == 0 ==> Mask(n) == 0
    ensures n > 0 ==> Mask(n) % 2 == 1 && Mask(n) / 2 == Mask(n - 1)
  {
  }

  /** A positive multiple of d is at least d. */
  lemma MulAtLeast(k: nat, d: nat)
    requires k >= 1
    ensures k * d >= d
  {
    assert k * d == (k - 1) * d + d;
  }

  /** Division theorem: the quotient and remainder are the only ones. */
  lemma DivModUnique(x: nat, d: nat, q: nat, r: nat)
    requires d > 0 && r < d && x == q * d + r
    ensures x / d == q && x % d == r
  {
    var q', r' := x / d, x % d;
    assert x == q' * d + r';
    if q' < q {
      var k := q - q';
      MulAtLeast(k, d);
      assert false;
    } else if q' > q {
      var k := q' - q;
      MulAtLeast(k, d);
      assert false;
    }
  }

  /** Removing the lowest bit commutes with reduction modulo 2^n. */
  lemma ModHalving(x: nat, p: nat)
    requires p > 0
    ensures x % (2 * p) == 2 * ((x / 2) % p) + x % 2
  {
    var h := x / 2;
    var q, s := h / p, h % p;
    assert x == 2 * h + x % 2;
    assert h == q * p + s;
    assert x == q * (2 * p) + (2 * s + x % 2);
    DivModUnique(x, 2 * p, q, 2 * s + x % 2);
  }

  /** `x & mask(n)` keeps exactly the low n bits: it equals x mod 2^n. */
  lemma {:induction false} AndMask(x: nat, n: nat)
    ensures BitAnd(x, Mask(n)) == x % Pow2(n)
    decreases n
  {
    MaskOnes(n);
    if n == 0 || x == 0 {
    } else {
      AndMask(x / 2, n - 1);
      ModHalving(x, Pow2(n - 1));
    }
  }

  /** OR-ing a value below 2^n with a value shifted left by n adds them:
      the two bit fields do not overlap. */
  lemma {:induction false} OrDisjoint(lo: nat, hi: nat, n: nat)
    requires lo < Pow2(n)
    ensures BitOr(lo, Shl(hi, n)) == lo + Shl(hi, n)
    decreases n
  {
    if lo == 0 || hi == 0 {
    } else {
      assert n > 0;
      var h := hi * Pow2(n - 1);
      assert Shl(hi, n) == 2 * h;
      assert Shl(hi, n) / 2 == h && Shl(hi, n) % 2 == 0;
      OrDisjoint(lo / 2, hi, n - 1);
    }
  }

  /** OR with zero is the identity (the source starts each word from 0). */
  lemma OrZero(x: nat)
    ensures BitOr(0, x) == x && BitOr(x, 0) == x
  {
  }
}
