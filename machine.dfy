/** Machine-level arithmetic of the sampler: Go's fixed-width integers, which
    wrap around, and the outcome of a float64 division, which may be one of the
    IEEE-754 special values. Rounding of float64 is not modelled: values are
    exact reals. */
module Machine {

  datatype Option<+T> = None | Some(value: T)

  const TWO_31: int := 0x8000_0000
  const TWO_32: int := 0x1_0000_0000
  const TWO_63: int := 0x8000_0000_0000_0000
  const TWO_64: int := 0x1_0000_0000_0000_0000

  /** Go `uint64`, the type of the disk and network counters. */
  type U64 = x: int | 0 <= x < TWO_64
  /** Go `int64`, the type of the protocol counters. */
  type I64 = x: int | -TWO_63 <= x < TWO_63
  /** Go `int32`, the type of a CPU's core count. */
  type I32 = x: int | -TWO_31 <= x < TWO_31

  /** Go's `a - b` on uint64 operands: exact when the counter did not go down,
      otherwise the difference wraps modulo 2^64 (and is never negative). */
  function SubU64(a: U64, b: U64): (r: U64)
    ensures a >= b ==> r == a - b
    ensures a < b ==> r == TWO_64 - (b - a)
    ensures r == 0 <==> a == b
  {
    (a - b) % TWO_64
  }

  /** Go's `a + b` (and `a += b`) on uint64 operands. */
  function AddU64(a: U64, b: U64): (r: U64)
    ensures a + b < TWO_64 ==> r == a + b
    ensures a + b >= TWO_64 ==> r == a + b - TWO_64
  {
    (a + b) % TWO_64
  }

  /** The int64 value an unbounded result lands on when Go computes it in int64. */
  function WrapI64(x: int): (r: I64)
    ensures -TWO_63 <= x < TWO_63 ==> r == x
    ensures (x - r) % TWO_64 == 0
  {
    (x + TWO_63) % TWO_64 - TWO_63
  }

  /** The int32 value an unbounded result lands on when Go computes it in int32. */
  function WrapI32(x: int): (r: I32)
    ensures -TWO_31 <= x < TWO_31 ==> r == x
    ensures (x - r) % TWO_32 == 0
  {
    (x + TWO_31) % TWO_32 - TWO_31
  }

  /** Adding to a value already reduced modulo 2^64 reduces like adding to the
      unreduced value: the step that makes running uint64 sums exact modulo 2^64. */
  lemma AddU64OfReduced(x: nat, y: U64)
    ensures AddU64(x % TWO_64, y) == (x + y) % TWO_64
  {
    var q := x / TWO_64;
    assert x == q * TWO_64 + x % TWO_64;
    assert (x + y) == q * TWO_64 + (x % TWO_64 + y);
  }

  /** A float64 result: a finite number or one of the IEEE-754 special values. */
  datatype Value = Num(v: real) | NaN | PosInf | NegInf

  /** Go's float64 `x / y` on finite operands (rounding aside). Dividing by zero
      is not an error: it gives an infinity with the sign of `x`, or NaN for 0/0. */
  function Quotient(x: real, y: real): (r: Value)
    ensures r.Num? <==> y != 0.0
    ensures r == NaN <==> y == 0.0 && x == 0.0
    ensures r == PosInf <==> y == 0.0 && x > 0.0
    ensures r == NegInf <==> y == 0.0 && x < 0.0
  {
    if y != 0.0 then Num(x / y)
    else if x > 0.0 then PosInf
    else if x < 0.0 then NegInf
    else NaN
  }

  /** A finite quotient times the divisor gives back the dividend. */
  lemma QuotientTimesDivisor(x: real, y: real)
    requires y != 0.0
    ensures Quotient(x, y).v * y == x
  {
    var q := x / y;
    assert q * y == x;
  }
}
