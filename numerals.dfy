/** Decimal numerals: Rust's `{}` formatting of integers (used by the emitter and by
    the clause labels) and the `str::parse::<i64>` acceptance rule (used by the lexer). */
module Numerals {
  import opened Wrappers
  import opened Int64

  predicate IsDigit(c: char) {
    '0' <= c <= '9'
  }

  predicate AllDigits(s: string) {
    forall i :: 0 <= i < |s| ==> IsDigit(s[i])
  }

  function DigitChar(d: nat): (c: char)
    requires d < 10
    ensures IsDigit(c) && c as int - '0' as int == d
  {
    ('0' as int + d) as char
  }

  /** `format!("{}", n)` for a non-negative n: digits, most significant first, no leading zero. */
  function NatToString(n: nat): (s: string)
    ensures |s| >= 1 && AllDigits(s)
    ensures (|s| == 1) == (n < 10)
    decreases n
  {
    if n < 10 then [DigitChar(n)] else NatToString(n / 10) + [DigitChar(n % 10)]
  }

  /** `format!("{}", x)` for any integer: a minus sign before the digits of |x| when x < 0. */
  function IntToString(x: int): (s: string)
    ensures |s| >= 1
    ensures x < 0 <==> s[0] == '-'
    ensures x >= 0 ==> IsDigit(s[0])
  {
    if x < 0 then "-" + NatToString(-x) else NatToString(x)
  }

  /** The value of a string of decimal digits. */
  function DigitsValue(s: string): nat
    requires AllDigits(s)
    decreases |s|
  {
    if |s| == 0 then 0
    else DigitsValue(s[..|s| - 1]) * 10 + (s[|s| - 1] as int - '0' as int)
  }

  lemma {:induction false} NatToStringRoundTrip(n: nat)
    ensures DigitsValue(NatToString(n)) == n
    decreases n
  {
    if n >= 10 {
      var s := NatToString(n);
      var p := NatToString(n / 10);
      assert s == p + [DigitChar(n % 10)];
      assert s[..|s| - 1] == p;
      NatToStringRoundTrip(n / 10);
    }
  }

  lemma NatToStringInjective(a: nat, b: nat)
    ensures NatToString(a) == NatToString(b) ==> a == b
  {
    NatToStringRoundTrip(a);
    NatToStringRoundTrip(b);
  }

  /** Formatting an integer loses nothing: distinct integers print differently. */
  lemma IntToStringInjective(a: int, b: int)
    ensures IntToString(a) == IntToString(b) ==> a == b
  {
    if IntToString(a) == IntToString(b) {
      if a < 0 {
        assert IntToString(a)[1..] == NatToString(-a);
        assert IntToString(b)[1..] == NatToString(-b);
        NatToStringInjective(-a, -b);
      } else {
        NatToStringInjective(a, b);
      }
    }
  }

  /** What `str::parse::<i64>` accepts: an optional `+` or `-`, one or more decimal
      digits, and a value inside the i64 range; anything else is an error. */
  function ParseI64(s: string): (r: Option<i64>)
    ensures r.Some? ==> |s| >= 1 && AllDigits(if s[0] == '+' || s[0] == '-' then s[1..] else s)
  {
    if |s| >= 2 && (s[0] == '+' || s[0] == '-') && AllDigits(s[1..]) then
      var magnitude: int := DigitsValue(s[1..]);
      var v := if s[0] == '-' then -magnitude else magnitude;
      if InRange(v) then Some(v as i64) else None
    else if |s| >= 1 && AllDigits(s) then
      var v := DigitsValue(s);
      if InRange(v) then Some(v as i64) else None
    else
      None
  }

  /** Parsing what `{}` printed gives the number back, for every i64. */
  lemma ParseI64OfIntToString(x: i64)
    ensures ParseI64(IntToString(x as int)) == Some(x)
  {
    var s := IntToString(x as int);
    if x < 0 {
      var m: nat := -(x as int);
      var digits := NatToString(m);
      assert s == "-" + digits;
      assert s[1..] == digits;
      NatToStringRoundTrip(m);
      assert |s| >= 2 && s[0] == '-' && AllDigits(s[1..]) && DigitsValue(s[1..]) == m;
    } else {
      var digits := NatToString(x as int);
      assert s == digits;
      NatToStringRoundTrip(x as int);
      assert IsDigit(s[0]) && AllDigits(s) && DigitsValue(s) == x as int;
    }
  }
}
