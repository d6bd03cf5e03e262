/** Java's fixed-width integer semantics, written out over Dafny's unbounded
    `int`: two's-complement wrap-around of `int` and `long`, narrowing casts,
    and integer division that truncates toward zero. */
module JavaInt {

  const TWO_32: int := 0x1_0000_0000
  const INT_MIN: int := -0x8000_0000
  const INT_MAX: int := 0x7FFF_FFFF

  const TWO_64: int := 0x1_0000_0000_0000_0000
  const LONG_MIN: int := -0x8000_0000_0000_0000
  const LONG_MAX: int := 0x7FFF_FFFF_FFFF_FFFF

  /** A value a Java `int` can hold. */
  predicate IsInt32(v: int) {
    INT_MIN <= v <= INT_MAX
  }

  /** A value a Java `long` can hold. */
  predicate IsInt64(v: int) {
    LONG_MIN <= v <= LONG_MAX
  }

  /** The `int` a Java expression of mathematical value `v` evaluates to:
      `v` reduced modulo 2^32 into the signed range. Also models
      `long.intValue()`, which keeps the low 32 bits. */
  function Wrap32(v: int): (r: int)
    ensures IsInt32(r)
    ensures IsInt32(v) ==> r == v
  {
    (v - INT_MIN) % TWO_32 + INT_MIN
  }

  /** The `long` a Java expression of mathematical value `v` evaluates to. */
  function Wrap64(v: int): (r: int)
    ensures IsInt64(r)
    ensures IsInt64(v) ==> r == v
  {
    (v - LONG_MIN) % TWO_64 + LONG_MIN
  }

  /** Wrapping changes a value by a multiple of 2^32. */
  lemma Wrap32Residue(v: int)
    ensures (Wrap32(v) - v) % TWO_32 == 0
  {
    var q := (v - INT_MIN) / TWO_32;
    assert Wrap32(v) - v == -(q * TWO_32);
  }

  /** Wrapping changes a value by a multiple of 2^64. */
  lemma Wrap64Residue(v: int)
    ensures (Wrap64(v) - v) % TWO_64 == 0
  {
    var q := (v - LONG_MIN) / TWO_64;
    assert Wrap64(v) - v == -(q * TWO_64);
  }

  /** Two values that agree modulo 2^32 wrap to the same `int`. */
  lemma Wrap32Congruent(a: int, b: int)
    requires (a - b) % TWO_32 == 0
    ensures Wrap32(a) == Wrap32(b)
  {
    var k := (a - b) / TWO_32;
    assert a - INT_MIN == (b - INT_MIN) + k * TWO_32;
    ModShift32(b - INT_MIN, k);
  }

  lemma ModShift32(x: int, k: int)
    ensures (x + k * TWO_32) % TWO_32 == x % TWO_32
  {
    var q := x / TWO_32;
    var r := x % TWO_32;
    assert x + k * TWO_32 == (q + k) * TWO_32 + r;
  }

  /** Wrapping an operand first does not change the wrapped sum. */
  lemma Wrap32Add(a: int, b: int)
    ensures Wrap32(Wrap32(a) + b) == Wrap32(a + b)
  {
    var wa := Wrap32(a);
    Wrap32Residue(a);
    assert ((wa + b) - (a + b)) % TWO_32 == (wa - a) % TWO_32;
    Wrap32Congruent(wa + b, a + b);
  }

  /** Wrapping the subtrahend first does not change the wrapped difference. */
  lemma Wrap32Sub(a: int, b: int)
    ensures Wrap32(a - Wrap32(b)) == Wrap32(a - b)
  {
    var wb := Wrap32(b);
    Wrap32Residue(b);
    var k := (wb - b) / TWO_32;
    assert (a - wb) - (a - b) == -(k * TWO_32);
    assert ((a - wb) - (a - b)) % TWO_32 == 0;
    Wrap32Congruent(a - wb, a - b);
  }

  lemma ModShift64(x: int, k: int)
    ensures (x + k * TWO_64) % TWO_64 == x % TWO_64
  {
    var q := x / TWO_64;
    var r := x % TWO_64;
    assert x + k * TWO_64 == (q + k) * TWO_64 + r;
  }

  /** Wrapping an operand first does not change the wrapped `long` sum, so
      a running `long` total wraps to the wrapped exact total. */
  lemma Wrap64Add(a: int, b: int)
    ensures Wrap64(Wrap64(a) + b) == Wrap64(a + b)
  {
    var wa := Wrap64(a);
    Wrap64Residue(a);
    var k := (wa - a) / TWO_64;
    assert wa - a == k * TWO_64;
    assert (wa + b) - LONG_MIN == (a + b - LONG_MIN) + k * TWO_64;
    ModShift64(a + b - LONG_MIN, k);
  }

  /** Subtracting a wrapped sum equals subtracting its two parts one at a
      time, each step wrapped. */
  lemma Wrap32SubSum(a: int, b: int, c: int)
    ensures Wrap32(a - Wrap32(b + c)) == Wrap32(Wrap32(a - c) - b)
  {
    Wrap32Sub(a, b + c);
    Wrap32Add(a - c, -b);
    assert a - c + -b == a - (b + c);
    assert Wrap32(a - c) + -b == Wrap32(a - c) - b;
  }

  /** In `int` arithmetic, subtracting what was added restores the value,
      overflow or not. */
  lemma Wrap32AddSubtract(a: int, b: int)
    requires IsInt32(a)
    ensures Wrap32(Wrap32(a + b) - b) == a
  {
    Wrap32Add(a + b, -b);
    assert a + b + -b == a;
  }

  /** In `int` arithmetic, adding what was subtracted restores the value. */
  lemma Wrap32SubtractAdd(a: int, b: int)
    requires IsInt32(a)
    ensures Wrap32(Wrap32(a - b) + b) == a
  {
    Wrap32Add(a - b, b);
    assert a - b + b == a;
  }

  /** Java's `/` on integers for a positive divisor: the quotient is
      truncated toward zero, so `-7 / 2 == -3` (Dafny's Euclidean
      division would give -4). */
  function TruncDiv(a: int, b: int): (q: int)
    requires b > 0
    ensures a >= 0 ==> q * b <= a < (q + 1) * b
    ensures a < 0 ==> (q - 1) * b < a <= q * b
  {
    if a >= 0 then a / b else -((-a) / b)
  }
}
