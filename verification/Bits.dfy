/** Shifts of non-negative machine integers. */
module Bits {
  function Pow2(n: nat): (p: nat)
    ensures p >= 1
  {
    if n == 0 then 1 else 2 * Pow2(n - 1)
  }

  /** `x >> n` */
  function Shr(x: nat, n: nat): nat {
    if n == 0 then x else Shr(x, n - 1) / 2
  }

  /** `x << n` */
  function Shl(x: nat, n: nat): nat {
    if n == 0 then x else 2 * Shl(x, n - 1)
  }

  /** A right shift is a division by a power of two. */
  lemma {:induction false} ShrIsDivision(x: nat, n: nat)
    ensures Shr(x, n) == x / Pow2(n)
  {
    if n > 0 {
      ShrIsDivision(x, n - 1);
      HalfOfQuotient(x, Pow2(n - 1));
    }
  }

  lemma HalfOfQuotient(x: nat, p: nat)
    requires p > 0
    ensures x / p / 2 == x / (2 * p)
  {
    var h := x / p / 2;
    var rest := x - h * (2 * p);
    assert rest == (x / p - 2 * h) * p + x % p;
    assert x / p - 2 * h == 0 ==> rest == x % p;
    assert x / p - 2 * h == 1 ==> rest == p + x % p;
    assert 0 <= rest < 2 * p;
    QuotientUnique(x, 2 * p, h, rest);
  }

  lemma QuotientUnique(x: nat, d: nat, q: nat, rest: nat)
    requires d > 0 && x == q * d + rest && rest < d
    ensures x / d == q
  {
    var e := x / d - q;
    assert e * d == rest - x % d;
    assert e >= 1 ==> e * d >= d;
    assert e <= -1 ==> e * d + d <= 0;
  }

  /** A left shift is a multiplication by a power of two. */
  lemma {:induction false} ShlIsProduct(x: nat, n: nat)
    ensures Shl(x, n) == x * Pow2(n)
  {
    if n > 0 {
      ShlIsProduct(x, n - 1);
    }
  }

  /** Dropping the low bit first changes nothing: `(x >> 1) >> n == x >> (n + 1)`. */
  lemma {:induction false} ShrOfHalf(x: nat, n: nat)
    ensures Shr(x / 2, n) == Shr(x, n + 1)
  {
    if n > 0 {
      ShrOfHalf(x, n - 1);
    }
  }

  lemma {:induction false} ShrShr(x: nat, a: nat, b: nat)
    ensures Shr(Shr(x, a), b) == Shr(x, a + b)
  {
    if b > 0 {
      ShrShr(x, a, b - 1);
    }
  }

  lemma {:induction false} ShlStep(x: nat, n: nat)
    ensures Shl(2 * x, n) == Shl(x, n + 1)
    ensures Shl(x + 1, n) == Shl(x, n) + Pow2(n)
  {
    if n > 0 {
      ShlStep(x, n - 1);
    }
  }

  /** The numbers with prefix p are the ones from `p << n` up to `(p + 1) << n`. */
  lemma {:induction false} ShrRange(x: nat, n: nat, p: nat)
    ensures Shr(x, n) == p <==> Shl(p, n) <= x < Shl(p + 1, n)
  {
    if n > 0 {
      ShrRange(x, n - 1, 2 * p);
      ShrRange(x, n - 1, 2 * p + 1);
      ShlStep(p, n - 1);
      ShlStep(p + 1, n - 1);
      ShlStep(2 * p, n - 1);
    }
  }

  /** A value below 2^(n+m) shifted right by n is below 2^m. */
  lemma {:induction false} ShrBound(x: nat, n: nat, m: nat)
    requires x < Pow2(n + m)
    ensures Shr(x, n) < Pow2(m)
  {
    if n > 0 {
      ShrBound(x, n - 1, m + 1);
    }
  }

  lemma Pow2Of31()
    ensures Pow2(31) == 0x8000_0000
  {
    assert Pow2(10) == 1024;
    assert Pow2(20) == 0x10_0000;
    assert Pow2(30) == 0x4000_0000;
  }

  lemma {:induction false} Pow2Grows(a: nat, b: nat)
    requires a <= b
    ensures Pow2(a) <= Pow2(b)
    decreases b
  {
    if a < b {
      Pow2Grows(a, b - 1);
    }
  }

  lemma {:induction false} Pow2Sum(a: nat, b: nat)
    ensures Pow2(a + b) == Pow2(a) * Pow2(b)
  {
    if a > 0 {
      Pow2Sum(a - 1, b);
    }
  }

  lemma Pow2Next(n: nat)
    ensures Pow2(n + 1) == 2 * Pow2(n)
  {
  }
}
