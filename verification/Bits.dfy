/** Unsigned 32-bit arithmetic and masking, on unbounded integers. */
module Bits {

  const U32_RANGE: int := 0x1_0000_0000

  /** What an `unsigned int` expression of mathematical value `x` holds. */
  function U32(x: int): (r: nat)
    ensures r < U32_RANGE
  {
    x % U32_RANGE
  }

  function Pow2(k: nat): (p: nat)
    ensures p >= 1
  {
    if k == 0 then 1 else 2 * Pow2(k - 1)
  }

  /** Bitwise and of a two's complement `x` with a non-negative mask. */
  function And(x: int, m: nat): nat
    decreases m
  {
    if m == 0 then 0 else (if x % 2 == 1 && m % 2 == 1 then 1 else 0) + 2 * And(x / 2, m / 2)
  }

  /** Bit `i` of a two's complement number. */
  predicate Bit(x: int, i: nat)
    decreases i
  {
    if i == 0 then x % 2 == 1 else Bit(x / 2, i - 1)
  }

  lemma {:induction false} AndBits(x: int, m: nat, i: nat)
    ensures Bit(And(x, m), i) <==> Bit(x, i) && Bit(m, i)
    decreases m, i
  {
    if m == 0 {
      ZeroBits(i);
    } else if i > 0 {
      assert And(x, m) / 2 == And(x / 2, m / 2);
      AndBits(x / 2, m / 2, i - 1);
    }
  }

  lemma {:induction false} ZeroBits(i: nat)
    ensures !Bit(0, i)
    decreases i
  {
    if i > 0 {
      ZeroBits(i - 1);
    }
  }

  lemma {:induction false} MulAtLeast(d: int, k: int)
    requires d > 0
    ensures k >= 1 ==> d * k >= d
    ensures k <= -1 ==> d * k <= -d
    decreases if k < 0 then -k else k
  {
    if k > 1 {
      MulAtLeast(d, k - 1);
    } else if k < -1 {
      MulAtLeast(d, k + 1);
    }
  }

  lemma {:induction false} QuotientUnique(d: int, a: int, r: int, b: int, s: int)
    requires 0 <= r < d && 0 <= s < d && d * a + r == d * b + s
    ensures a == b && r == s
  {
    MulAtLeast(d, a - b);
    assert d * (a - b) == d * a - d * b;
  }

  lemma {:induction false} ModUnique(x: int, d: int, a: int, r: int)
    requires 0 <= r < d && x == d * a + r
    ensures x % d == r && x / d == a
  {
    QuotientUnique(d, a, r, x / d, x % d);
  }

  lemma {:induction false} ModDouble(x: int, p: nat)
    requires p > 0
    ensures x % (2 * p) == x % 2 + 2 * ((x / 2) % p)
  {
    var q := x / 2;
    assert q == p * (q / p) + q % p;
    assert x == (2 * p) * (q / p) + (x % 2 + 2 * (q % p)) by {
      assert 2 * (p * (q / p)) == (2 * p) * (q / p);
    }
    ModUnique(x, 2 * p, q / p, x % 2 + 2 * (q % p));
  }

  /** Masking with 2^k - 1 is reduction modulo 2^k, for negative x as well. */
  lemma {:induction false} AndMask(x: int, k: nat)
    ensures And(x, Pow2(k) - 1) == x % Pow2(k)
    decreases k
  {
    if k > 0 {
      AndMask(x / 2, k - 1);
      AndMaskStep(x, Pow2(k - 1), Pow2(k));
    }
  }

  lemma {:induction false} AndMaskStep(x: int, p: nat, q: nat)
    requires p > 0 && q == 2 * p && And(x / 2, p - 1) == (x / 2) % p
    ensures And(x, q - 1) == x % q
  {
    AndOdd(x, p - 1);
    ModDouble(x, p);
  }

  lemma {:induction false} AndOdd(x: int, m: nat)
    ensures And(x, 2 * m + 1) == x % 2 + 2 * And(x / 2, m)
  {
    assert (2 * m + 1) % 2 == 1 && (2 * m + 1) / 2 == m;
  }

  lemma {:induction false} AndSelf(n: nat)
    ensures And(n, n) == n
  {
    if n > 0 {
      AndSelf(n / 2);
      assert n % 2 == 0 || n % 2 == 1;
    }
  }

  ghost predicate IsPow2(n: nat) { exists k: nat :: n == Pow2(k) }

  lemma {:induction false} IsPow2Halves(m: nat)
    requires m > 0
    ensures IsPow2(2 * m) <==> IsPow2(m)
  {
    if IsPow2(m) {
      var k: nat :| m == Pow2(k);
      assert 2 * m == Pow2(k + 1);
    }
    if IsPow2(2 * m) {
      var k: nat :| 2 * m == Pow2(k);
      assert k > 0 && m == Pow2(k - 1);
    }
  }

  /** The test `n & (n - 1)` accepts exactly the powers of two. */
  lemma {:induction false} PowerOfTwoTest(n: nat)
    requires n > 0
    ensures And(n, n - 1) == 0 <==> IsPow2(n)
  {
    if n == 1 {
      assert n == Pow2(0);
    } else if n % 2 == 0 {
      PowerOfTwoTest(n / 2);
      IsPow2Halves(n / 2);
      EvenTest(n / 2);
    } else {
      OddTest(n / 2);
    }
  }

  lemma {:induction false} EvenTest(m: nat)
    requires m > 0
    ensures And(2 * m, 2 * m - 1) == 2 * And(m, m - 1)
  {
    AndOdd(2 * m, m - 1);
  }

  lemma {:induction false} OddTest(m: nat)
    requires m > 0
    ensures And(2 * m + 1, 2 * m) != 0 && !IsPow2(2 * m + 1)
  {
    AndSelf(m);
    assert And(2 * m + 1, 2 * m) == 2 * And(m, m);
    forall k: nat
      ensures Pow2(k) != 2 * m + 1
    {
      if k > 0 {
        assert Pow2(k) == 2 * Pow2(k - 1);
      }
    }
  }

  lemma {:induction false} Pow2Monotone(a: nat, b: nat)
    requires a <= b
    ensures Pow2(a) <= Pow2(b)
    decreases b - a
  {
    if a < b {
      Pow2Monotone(a, b - 1);
    }
  }

  lemma {:induction false} Pow2Divides(a: nat, b: nat) returns (q: nat)
    requires a <= b
    ensures Pow2(b) == Pow2(a) * q
    decreases b - a
  {
    if a == b {
      q := 1;
    } else {
      q := Pow2Divides(a, b - 1);
      q := 2 * q;
    }
  }

  lemma {:induction false} Pow2At32()
    ensures Pow2(32) == U32_RANGE && Pow2(31) == 0x8000_0000
  {
    assert Pow2(8) == 256;
    assert Pow2(16) == 65536;
    assert Pow2(24) == 0x100_0000;
    assert Pow2(31) == 0x8000_0000;
  }

  lemma {:induction false} Factor(p: int, q: int, w: int, e: int)
    ensures p * (q * w + e) == (p * q) * w + p * e
  {
    assert p * (q * w) == (p * q) * w;
    assert p * (q * w + e) == p * (q * w) + p * e;
  }

  lemma {:induction false} DropMultiple(t: int, p: int, q: int, w: int, r: int)
    requires p > 0 && t == (p * q) * w + r
    ensures t % p == r % p
  {
    Factor(p, q, w, r / p);
    ModUnique(t, p, q * w + r / p, r % p);
  }

  /** A 32-bit counter still indexes a power-of-two ring correctly after it wraps. */
  lemma {:induction false} WrapKeepsIndex(t: nat, k: nat)
    requires k <= 32
    ensures U32(t) % Pow2(k) == t % Pow2(k)
  {
    Pow2At32();
    var q := Pow2Divides(k, 32);
    assert t == U32_RANGE * (t / U32_RANGE) + U32(t);
    DropMultiple(t, Pow2(k), q, t / U32_RANGE, U32(t));
  }
}
