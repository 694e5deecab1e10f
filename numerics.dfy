/**
 * The C# `int` arithmetic the game scripts rely on: 32-bit two's-complement
 * values, unchecked (wrapping) addition and multiplication, and the `%`
 * operator, which truncates toward zero.
 */
module Numerics {

  const MIN_INT32: int := -0x8000_0000
  const MAX_INT32: int := 0x7fff_ffff
  const TWO_TO_THE_32: int := 0x1_0000_0000

  type int32 = x: int | -0x8000_0000 <= x <= 0x7fff_ffff

  predicate InInt32(x: int) {
    MIN_INT32 <= x <= MAX_INT32
  }

  function Abs(x: int): (r: nat)
    ensures r == x || r == -x
  {
    if x < 0 then -x else x
  }

  /** The 32-bit value an unchecked C# computation produces for the exact result `x`. */
  function Wrap(x: int): (r: int32)
    ensures InInt32(x) ==> r == x
    ensures (x - r) % TWO_TO_THE_32 == 0
  {
    (x - MIN_INT32) % TWO_TO_THE_32 + MIN_INT32
  }

  /** Unchecked `a + b` on two C# ints. */
  function Add(a: int32, b: int32): (r: int32)
    ensures InInt32(a + b) ==> r == a + b
    ensures (a + b - r) % TWO_TO_THE_32 == 0
  {
    Wrap(a + b)
  }

  /** Division of a natural number by a positive one, characterised by quotient and remainder. */
  lemma {:induction false} EuclidUnique(x: int, m: int, q: int, r: int)
    requires m > 0 && x == m * q + r && 0 <= r < m
    ensures x % m == r && x / m == q
  {
    var q', r' := x / m, x % m;
    assert m * q + r == m * q' + r';
    if q < q' {
      assert m * (q' - q) == r - r';
      MulAtLeast(m, q' - q);
    } else if q' < q {
      assert m * (q - q') == r' - r;
      MulAtLeast(m, q - q');
    }
  }

  /** Values that differ by a multiple of 2^32 wrap to the same int. */
  lemma {:induction false} WrapShift(x: int, k: int)
    ensures Wrap(x + k * TWO_TO_THE_32) == Wrap(x)
  {
    var y := x - MIN_INT32;
    var q, r := y / TWO_TO_THE_32, y % TWO_TO_THE_32;
    assert y + k * TWO_TO_THE_32 == TWO_TO_THE_32 * (q + k) + r;
    EuclidUnique(y + k * TWO_TO_THE_32, TWO_TO_THE_32, q + k, r);
  }

  /** Wrapping an intermediate result of an unchecked sum does not change the final value. */
  lemma {:induction false} WrapAddWrap(a: int, b: int)
    ensures Wrap(a + Wrap(b)) == Wrap(a + b)
  {
    var d := b - Wrap(b);
    var k := d / TWO_TO_THE_32;
    assert d == TWO_TO_THE_32 * k;
    assert a + b == (a + Wrap(b)) + k * TWO_TO_THE_32;
    WrapShift(a + Wrap(b), k);
  }

  lemma MulAtLeast(m: int, k: int)
    requires m > 0 && k >= 1
    ensures m * k >= m
  {
  }

  /** `x` is a multiple of `m` exactly when its (Euclidean) remainder is zero; the sign of `m` does not matter. */
  lemma MultipleIffRemZero(x: int, m: int)
    requires m != 0
    ensures x % m == 0 <==> Abs(x) % Abs(m) == 0
  {
    if x % m == 0 {
      RemZeroGivesAbsRemZero(x, m);
    }
    if Abs(x) % Abs(m) == 0 {
      AbsRemZeroGivesRemZero(x, m);
    }
  }

  lemma {:induction false} RemZeroGivesAbsRemZero(x: int, m: int)
    requires m != 0 && x % m == 0
    ensures Abs(x) % Abs(m) == 0
  {
    var q := x / m;
    assert x == m * q;
    SignedProduct(x, m, q);
    EuclidUnique(Abs(x), Abs(m), Abs(q), 0);
  }

  lemma {:induction false} AbsRemZeroGivesRemZero(x: int, m: int)
    requires m != 0 && Abs(x) % Abs(m) == 0
    ensures x % m == 0
  {
    var q := Abs(x) / Abs(m);
    assert Abs(x) == Abs(m) * q;
    var k := if (x < 0) == (m < 0) then q else -q;
    SignedBack(x, m, q);
    assert x == m * k;
    if m > 0 {
      EuclidUnique(x, m, k, 0);
    } else {
      assert x == (-m) * (-k);
      EuclidUnique(x, -m, -k, 0);
      assert x % m == x % (-m);
    }
  }

  lemma SignedProduct(x: int, m: int, q: int)
    requires x == m * q
    ensures Abs(x) == Abs(m) * Abs(q)
  {
    if m < 0 && q < 0 {
      assert x == (-m) * (-q);
    } else if m < 0 {
      assert -x == (-m) * q;
    } else if q < 0 {
      assert -x == m * (-q);
    }
  }

  lemma SignedBack(x: int, m: int, q: int)
    requires m != 0 && Abs(x) == Abs(m) * q
    ensures x == m * (if (x < 0) == (m < 0) then q else -q)
  {
    if x < 0 && m < 0 {
      assert -x == (-m) * q;
    } else if x < 0 {
      assert -x == m * q;
    } else if m < 0 {
      assert x == (-m) * q;
    }
  }

  /**
   * C#'s `a % b` on ints: the remainder of division truncated toward zero,
   * which takes the sign of `a`. It is zero exactly when `b` divides `a`.
   */
  function Remainder(a: int, b: int): (r: int)
    requires b != 0
    ensures Abs(r) < Abs(b)
    ensures a >= 0 ==> r >= 0
    ensures a < 0 ==> r <= 0
    ensures r == 0 <==> a % b == 0
  {
    MultipleIffRemZero(a, b);
    var m := Abs(a) % Abs(b);
    if a < 0 then -m else m
  }
}
