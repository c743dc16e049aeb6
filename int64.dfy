/** Signed 64-bit integers (Rust `i64`, an x86-64 register) and the arithmetic on them. */
module Int64 {

  const TWO_63: int := 0x8000_0000_0000_0000
  const TWO_64: int := 0x1_0000_0000_0000_0000

  newtype i64 = x: int | -0x8000_0000_0000_0000 <= x < 0x8000_0000_0000_0000

  predicate InRange(x: int) {
    -TWO_63 <= x < TWO_63
  }

  /** The two's-complement bit pattern of `x`, read as an unsigned number. */
  function Unsigned(x: i64): (u: int)
    ensures 0 <= u < TWO_64
    ensures (u - x as int) % TWO_64 == 0
    ensures x >= 0 ==> u == x as int
  {
    if x < 0 then x as int + TWO_64 else x as int
  }

  /** The signed value of a 64-bit pattern. */
  function FromUnsigned(u: int): (x: i64)
    requires 0 <= u < TWO_64
    ensures Unsigned(x) == u
  {
    if u >= TWO_63 then (u - TWO_64) as i64 else u as i64
  }

  /** Wrap-around to 64 bits: the unique i64 congruent to `x` modulo 2^64. */
  function Wrap(x: int): (r: i64)
    ensures (r as int - x) % TWO_64 == 0
    ensures InRange(x) ==> r as int == x
  {
    FromUnsigned(x % TWO_64)
  }

  /** Division truncating toward zero, as C and the `idiv` instruction do. */
  function TruncDiv(a: int, b: int): (q: int)
    requires b != 0
    ensures a >= 0 && b > 0 ==> q == a / b
    ensures Abs(q) == Abs(a) / Abs(b)
  {
    var m: nat := DivNat(Abs(a), Abs(b));
    if (a >= 0) == (b > 0) then m as int else -(m as int)
  }

  function DivNat(a: nat, d: nat): (q: nat)
    requires d > 0
    ensures q == a / d
  {
    a / d
  }

  /** The remainder that goes with TruncDiv: it has the sign of the dividend. */
  function TruncRem(a: int, b: int): (r: int)
    requires b != 0
    ensures Abs(r) < Abs(b)
    ensures a >= 0 ==> r >= 0
    ensures a < 0 ==> r <= 0
  {
    var m: nat := Abs(a) % Abs(b);
    if a >= 0 then m as int else -(m as int)
  }

  function Abs(x: int): nat {
    if x < 0 then -x else x
  }

  /** The quotient of a non-negative dividend by any non-zero i64 fits into 64 bits. */
  lemma NonNegativeQuotientInRange(a: int, b: int)
    requires 0 <= a < TWO_63 && b != 0 && InRange(b)
    ensures InRange(TruncDiv(a, b))
    ensures Abs(TruncDiv(a, b)) <= a
  {
    var d := Abs(b);
    DivNatBound(a, d);
  }

  lemma DivNatBound(a: nat, d: nat)
    requires d >= 1
    ensures a / d <= a
  {
    var q, r := a / d, a % d;
    assert a == d * q + r && r >= 0;
    MulAtLeast(d, q);
  }

  lemma MulAtLeast(d: nat, q: nat)
    requires d >= 1
    ensures d * q >= q
  {
    assert d * q == (d - 1) * q + q;
    assert (d - 1) * q >= 0;
  }
}
