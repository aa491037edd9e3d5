/**
 * Java `int` semantics on Dafny's unbounded integers: the 32-bit range, wrap-around of
 * `AtomicInteger.getAndIncrement`, the truncating remainder operator `%`, and the bitwise
 * `&` on two's-complement values.
 */
module JavaInts {

  const INT_MIN: int := -0x8000_0000
  const INT_MAX: int := 0x7fff_ffff
  const TWO_32: int := 0x1_0000_0000

  predicate IsInt32(x: int) { INT_MIN <= x <= INT_MAX }

  /** The value an `int` holds after an addition whose exact result is `x` (two's-complement wrap). */
  function Wrap32(x: int): (r: int)
    ensures IsInt32(r)
    ensures IsInt32(x) ==> r == x
    ensures (r - x) % TWO_32 == 0
  {
    (x - INT_MIN) % TWO_32 + INT_MIN
  }

  /** Two exact results that differ by a multiple of 2^32 leave the same `int`. */
  lemma Wrap32Congruent(a: int, b: int)
    requires (a - b) % TWO_32 == 0
    ensures Wrap32(a) == Wrap32(b)
  {
    var q := (a - b) / TWO_32;
    assert a - INT_MIN == q * TWO_32 + (b - INT_MIN);
    ModAddMultiple(b - INT_MIN, q, TWO_32);
  }

  /** Adding to a wrapped value and wrapping again is wrapping the exact sum. */
  lemma Wrap32Add(x: int, k: int)
    ensures Wrap32(Wrap32(x) + k) == Wrap32(x + k)
  {
    var d := Wrap32(x) - x;
    assert (Wrap32(x) + k) - (x + k) == d;
    Wrap32Congruent(Wrap32(x) + k, x + k);
  }

  /** The 32-bit pattern of `x`, read as an unsigned number. */
  function Unsigned32(x: int): (u: nat)
    ensures u < TWO_32
  {
    x % TWO_32
  }

  /** The `int` whose 32-bit pattern is `u`. */
  function Signed32(u: nat): (r: int)
    requires u < TWO_32
    ensures IsInt32(r)
  {
    if u <= INT_MAX then u else u - TWO_32
  }

  function Abs(x: int): nat { if x < 0 then -x else x }

  /** Java's `a % b`: the sign follows the dividend, the magnitude is `|a| mod |b|`. */
  function JavaRem(a: int, b: int): int
    requires b != 0
  {
    if a >= 0 then a % Abs(b) else -((-a) % Abs(b))
  }

  function Pow2(k: nat): (r: nat)
    ensures r >= 1
  {
    if k == 0 then 1 else 2 * Pow2(k - 1)
  }

  /** Bitwise AND of two non-negative numbers, bit by bit from the least significant one. */
  function BitAnd(a: nat, b: nat): (r: nat)
    ensures r <= a && r <= b
    decreases a
  {
    if a == 0 || b == 0 then 0
    else 2 * BitAnd(a / 2, b / 2) + (if a % 2 == 1 && b % 2 == 1 then 1 else 0)
  }

  /** Java's `a & b` on two `int`s. */
  function JavaAnd(a: int, b: int): (r: int)
    requires IsInt32(a) && IsInt32(b)
    ensures IsInt32(r)
  {
    Signed32(BitAnd(Unsigned32(a), Unsigned32(b)))
  }

  lemma ModUnique(a: int, m: int, q: int, r: int)
    requires m > 0 && 0 <= r < m && a == q * m + r
    ensures a % m == r && a / m == q
  {
    var q0 := a / m;
    var r0 := a % m;
    assert a == q0 * m + r0;
    if q0 > q {
      var d := q0 - q;
      assert d * m == r - r0 by { assert q0 * m - q * m == (q0 - q) * m; }
      MulAtLeast(d, m);
    } else if q0 < q {
      var d := q - q0;
      assert d * m == r0 - r by { assert q * m - q0 * m == (q - q0) * m; }
      MulAtLeast(d, m);
    }
  }

  lemma MulAtLeast(d: int, m: int)
    requires d >= 1 && m > 0
    ensures d * m >= m
  {
    assert d * m == (d - 1) * m + m;
  }

  lemma DivModTwo(a: nat, p: nat)
    requires p >= 1
    ensures a % (2 * p) == 2 * ((a / 2) % p) + a % 2
  {
    var h := a / 2;
    var q := h / p;
    var r := h % p;
    assert h == q * p + r;
    assert a == 2 * h + a % 2;
    assert a == q * (2 * p) + (2 * r + a % 2);
    ModUnique(a, 2 * p, q, 2 * r + a % 2);
  }

  lemma {:induction false} BitAndSelf(a: nat)
    ensures BitAnd(a, a) == a
    decreases a
  {
    if a != 0 { BitAndSelf(a / 2); }
  }

  /** Masking with `2^k - 1` keeps exactly the remainder modulo `2^k`. */
  lemma {:induction false} BitAndLowMask(a: nat, k: nat)
    ensures BitAnd(a, Pow2(k) - 1) == a % Pow2(k)
    decreases k
  {
    if k != 0 && a != 0 {
      var p := Pow2(k - 1);
      var m := Pow2(k) - 1;
      assert m == 2 * (p - 1) + 1;
      assert m / 2 == p - 1 && m % 2 == 1;
      assert BitAnd(a, m) == 2 * BitAnd(a / 2, p - 1) + a % 2;
      BitAndLowMask(a / 2, k - 1);
      DivModTwo(a, p);
      assert Pow2(k) == 2 * p;
    } else if k == 0 {
      assert Pow2(k) == 1;
      assert BitAnd(a, 0) == 0;
    } else {
      assert BitAnd(0, Pow2(k) - 1) == 0;
    }
  }

  /** The test `(s & s - 1) == 0` holds of a positive `s` only when `s` is a power of two. */
  lemma {:induction false} PowerOfTwoShape(s: nat)
    requires s >= 1 && BitAnd(s, s - 1) == 0
    ensures exists k: nat :: s == Pow2(k)
    decreases s
  {
    if s == 1 {
      assert s == Pow2(0);
    } else if s % 2 == 0 {
      var t := s / 2;
      assert (s - 1) / 2 == t - 1;
      assert BitAnd(s, s - 1) == 2 * BitAnd(t, t - 1);
      PowerOfTwoShape(t);
      var k: nat :| t == Pow2(k);
      assert s == Pow2(k + 1);
    } else {
      BitAndSelf(s / 2);
      assert false;
    }
  }

  /** On non-negative `int`s, Java's `&` is the bitwise AND of the numbers. */
  lemma JavaAndNonNegative(a: int, b: int)
    requires 0 <= a <= INT_MAX && 0 <= b <= INT_MAX
    ensures JavaAnd(a, b) == BitAnd(a, b)
  {
    assert Unsigned32(a) == a && Unsigned32(b) == b;
  }

  lemma {:induction false} Pow2AtMost32(k: nat)
    requires k <= 32
    ensures Pow2(k) <= TWO_32
    decreases 32 - k
  {
    if k == 32 {
      Pow2Of32();
    } else {
      Pow2AtMost32(k + 1);
    }
  }

  lemma Pow2AtLeast32(k: nat)
    requires k >= 32
    ensures Pow2(k) >= TWO_32
  {
    PowSplit(32, k - 32);
    Pow2Of32();
    MulAtLeast(Pow2(k - 32), TWO_32);
  }

  /** A 32-bit value passing the `(s & s - 1) == 0` test is `2^k` for some `k < 32`. */
  lemma PowerOfTwoExponent(s: nat) returns (k: nat)
    requires 1 <= s < TWO_32 && BitAnd(s, s - 1) == 0
    ensures k < 32 && s == Pow2(k)
  {
    PowerOfTwoShape(s);
    k :| s == Pow2(k);
    if k >= 32 {
      Pow2AtLeast32(k);
      assert false;
    }
  }

  /** `(a % s + s) % s` with Java's `%` is the mathematical (never negative) remainder. */
  lemma JavaRemNormalized(a: int, s: int)
    requires s > 0
    ensures JavaRem(JavaRem(a, s) + s, s) == a % s
  {
    if a >= 0 {
      ModUnique(a % s + s, s, 1, a % s);
    } else {
      var r := (-a) % s;
      var q := (-a) / s;
      assert -a == q * s + r;
      if r == 0 {
        ModUnique(a, s, -q, 0);
        ModUnique(s, s, 1, 0);
      } else {
        ModUnique(a, s, -q - 1, s - r);
        ModUnique(s - r, s, 0, s - r);
      }
    }
  }

  /** Reducing modulo `2^32` first does not change a remainder modulo a divisor of `2^32`. */
  lemma ModOfUnsigned(a: int, k: nat)
    requires k <= 32
    ensures Unsigned32(a) % Pow2(k) == a % Pow2(k)
  {
    var p := Pow2(k);
    var c := Pow2(32 - k);
    PowSplit(32 - k, k);
    Pow2Of32();
    var q := a / TWO_32;
    assert a == q * TWO_32 + Unsigned32(a);
    assert q * TWO_32 == (q * c) * p by {
      assert TWO_32 == c * p;
      MulAssoc(q, c, p);
    }
    ModAddMultiple(Unsigned32(a), q * c, p);
  }

  lemma MulAssoc(x: int, y: int, z: int)
    ensures x * (y * z) == (x * y) * z
  {
  }

  lemma ModAddMultiple(x: int, m: int, p: int)
    requires p > 0
    ensures (m * p + x) % p == x % p
  {
    var t := x / p;
    var r := x % p;
    assert x == t * p + r;
    assert m * p + x == (m + t) * p + r;
    ModUnique(m * p + x, p, m + t, r);
  }

  lemma {:induction false} PowSplit(i: nat, j: nat)
    ensures Pow2(i) * Pow2(j) == Pow2(i + j)
    decreases i
  {
    if i != 0 {
      PowSplit(i - 1, j);
    }
  }

  lemma Pow2Of32()
    ensures Pow2(32) == TWO_32
  {
    assert Pow2(4) == 16;
    PowSplit(4, 4);
    PowSplit(8, 8);
    PowSplit(16, 16);
  }
}
