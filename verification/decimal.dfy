/**
  The request identifier's text: `str(random.randint(100000, 999999))` in
  master/app.py. `randint` becomes an arbitrary draw folded into the range,
  `str` the decimal rendering of a natural number.
 */
module Decimal {

  predicate IsDigit(c: char)
  {
    '0' <= c <= '9'
  }

  predicate AllDigits(s: string)
  {
    forall i :: 0 <= i < |s| ==> IsDigit(s[i])
  }

  function DigitChar(d: nat): (c: char)
    requires d < 10
    ensures IsDigit(c)
  {
    (48 + d) as char
  }

  function DigitValue(c: char): (d: nat)
    requires IsDigit(c)
    ensures d < 10 && DigitChar(d) == c
  {
    c as int - 48
  }

  /** `str(n)` for a natural number: its digits, most significant first, without leading zeros. */
  function DecimalString(n: nat): (s: string)
    ensures |s| >= 1 && AllDigits(s)
    ensures s[0] == '0' <==> n == 0
    decreases n
  {
    if n < 10 then [DigitChar(n)] else DecimalString(n / 10) + [DigitChar(n % 10)]
  }

  /** The value of a string of digits, as `int(s)` gives it; only rendered numbers are parsed, and "" reads as 0. */
  function ParseDecimal(s: string): (n: nat)
    requires AllDigits(s)
    decreases |s|
  {
    if s == [] then 0 else ParseDecimal(s[..|s| - 1]) * 10 + DigitValue(s[|s| - 1])
  }

  /** Parsing the rendering gives the number back. */
  lemma {:induction false} ParseDecimalString(n: nat)
    ensures ParseDecimal(DecimalString(n)) == n
    decreases n
  {
    var s := DecimalString(n);
    if n < 10 {
      assert s[..0] == [];
    } else {
      ParseDecimalString(n / 10);
      assert s[..|s| - 1] == DecimalString(n / 10);
    }
  }

  /** Distinct numbers render as distinct identifiers. */
  lemma DecimalStringInjective(a: nat, b: nat)
    requires DecimalString(a) == DecimalString(b)
    ensures a == b
  {
    ParseDecimalString(a);
    ParseDecimalString(b);
  }

  function Pow10(k: nat): (p: nat)
  {
    if k == 0 then 1 else 10 * Pow10(k - 1)
  }

  /** A number with k + 1 digits renders as k + 1 characters. */
  lemma {:induction false} DecimalStringLength(n: nat, k: nat)
    requires Pow10(k) <= n < Pow10(k + 1)
    ensures |DecimalString(n)| == k + 1
    decreases k
  {
    if k > 0 {
      DecimalStringLength(n / 10, k - 1);
    }
  }

  /** `random.randint(lo, hi)`: an arbitrary draw folded into the closed range. */
  function RandInt(lo: int, hi: int, draw: nat): (v: int)
    requires lo <= hi
    ensures lo <= v <= hi
  {
    lo + draw % (hi - lo + 1)
  }

  /** Every value of the closed range is some draw's outcome. */
  lemma RandIntCoversRange(lo: int, hi: int, v: int)
    requires lo <= v <= hi
    ensures RandInt(lo, hi, (v - lo) as nat) == v
  {
  }

  const IdLow: int := 100000
  const IdHigh: int := 999999

  /** The request identifier for one draw: six digits, no leading zero, denoting a value in [100000, 999999]. */
  function RequestId(draw: nat): (id: string)
    ensures |id| == 6 && AllDigits(id) && id[0] != '0'
    ensures IdLow <= ParseDecimal(id) <= IdHigh
  {
    var v := RandInt(IdLow, IdHigh, draw);
    assert Pow10(5) == IdLow && Pow10(6) == IdHigh + 1;
    DecimalStringLength(v, 5);
    ParseDecimalString(v);
    DecimalString(v)
  }

  /** Every number in [100000, 999999] is the identifier of some draw, and that identifier denotes it. */
  lemma RequestIdCoversRange(v: int)
    requires IdLow <= v <= IdHigh
    ensures RequestId((v - IdLow) as nat) == DecimalString(v)
    ensures ParseDecimal(RequestId((v - IdLow) as nat)) == v
  {
    var d := (v - IdLow) as nat;
    assert d < IdHigh - IdLow + 1;
    assert d % (IdHigh - IdLow + 1) == d;
    assert RandInt(IdLow, IdHigh, d) == v;
    ParseDecimalString(v);
  }
}
