/**
 * Go's `strconv.Atoi` as the `/data` handler uses it on the `limit` and
 * `offset` query parameters: an optional `+` or `-` sign followed by one or
 * more ASCII decimal digits, whose value must fit in a 64-bit `int`.
 * `Itoa` renders an integer in decimal and is the inverse `Atoi` is proved
 * against.
 */
module Strconv {
  import opened Readings

  predicate IsDigit(c: char)
  {
    '0' <= c <= '9'
  }

  predicate AllDigits(s: string)
  {
    forall i :: 0 <= i < |s| ==> IsDigit(s[i])
  }

  function DigitValue(c: char): nat
    requires IsDigit(c)
  {
    c as int - '0' as int
  }

  /** The value of a string of decimal digits, most significant first. */
  function DigitsValue(s: string): nat
    requires AllDigits(s)
    decreases |s|
  {
    if s == [] then 0 else 10 * DigitsValue(s[..|s| - 1]) + DigitValue(s[|s| - 1])
  }

  /** `strconv.Atoi(s)`: `Some(n)` when it returns n with a nil error, `None` otherwise. */
  function Atoi(s: string): (r: Option<Int64>)
    ensures r.Some? ==> s != [] && (r.value < 0 ==> s[0] == '-')
  {
    if s == [] then None
    else
      var digits := if s[0] == '-' || s[0] == '+' then s[1..] else s;
      if digits == [] || !AllDigits(digits) then None
      else
        var n: int := if s[0] == '-' then -(DigitsValue(digits) as int) else DigitsValue(digits);
        if MinInt64 <= n <= MaxInt64 then Some(n) else None
  }

  function DigitChar(d: nat): (c: char)
    requires d < 10
    ensures IsDigit(c) && DigitValue(c) == d
  {
    ('0' as int + d) as char
  }

  /** The decimal digits of `n`, without leading zeros. */
  function NatToDecimal(n: nat): (s: string)
    ensures s != [] && AllDigits(s)
    decreases n
  {
    if n < 10 then [DigitChar(n)] else NatToDecimal(n / 10) + [DigitChar(n % 10)]
  }

  /** `strconv.Itoa(n)`: the decimal rendering of `n`, with a `-` when negative. */
  function Itoa(n: int): string
  {
    if n < 0 then "-" + NatToDecimal(-n) else NatToDecimal(n)
  }

  lemma {:induction false} DecimalValue(n: nat)
    ensures DigitsValue(NatToDecimal(n)) == n
    decreases n
  {
    if n >= 10 {
      var s := NatToDecimal(n);
      assert s[..|s| - 1] == NatToDecimal(n / 10);
      DecimalValue(n / 10);
    }
  }

  /** Every 64-bit integer written in decimal parses back to itself. */
  lemma AtoiItoa(n: Int64)
    ensures Atoi(Itoa(n)) == Some(n)
  {
    var s := Itoa(n);
    if n < 0 {
      var d := NatToDecimal(-(n as int));
      assert s == "-" + d && s[0] == '-' && s[1..] == d;
      DecimalValue(-(n as int));
    } else {
      var d := NatToDecimal(n);
      assert s == d && IsDigit(s[0]);
      DecimalValue(n);
    }
  }

  /** A string with a character that is neither a digit nor a leading sign does not parse. */
  lemma AtoiRejectsNonDigit(s: string, i: nat)
    requires i < |s| && !IsDigit(s[i])
    requires i > 0 || (s[i] != '-' && s[i] != '+')
    ensures Atoi(s) == None
  {
    if s[0] == '-' || s[0] == '+' {
      assert s[1..][i - 1] == s[i];
    }
  }

  /** Values beyond 64 bits are rejected with a range error rather than wrapped. */
  lemma AtoiRejectsOverflow(n: int)
    requires n < MinInt64 || n > MaxInt64
    ensures Atoi(Itoa(n)) == None
  {
    var s := Itoa(n);
    if n < 0 {
      var d := NatToDecimal(-(n as int));
      assert s == "-" + d && s[0] == '-' && s[1..] == d;
      DecimalValue(-(n as int));
    } else {
      var d := NatToDecimal(n);
      assert s == d && IsDigit(s[0]);
      DecimalValue(n);
    }
  }
}
