/**
 * `Integer.parseInt(String)` as used by the appointment search: an optional
 * '+' or '-', then one or more decimal digits, and the value must fit in a
 * 32-bit `int`; anything else raises `NumberFormatException` (here `None`).
 */
module JavaInt {
  import opened Wrappers
  import opened Text

  const MinInt: int := -0x8000_0000
  const MaxInt: int := 0x7fff_ffff

  predicate AllDigits(s: string) {
    forall i | 0 <= i < |s| :: IsDigit(s[i])
  }

  function DigitValue(c: char): (d: nat)
    requires IsDigit(c)
    ensures d < 10
  {
    (c as int) - ('0' as int)
  }

  function DigitChar(d: nat): (c: char)
    requires d < 10
    ensures IsDigit(c) && DigitValue(c) == d
  {
    ('0' as int + d) as char
  }

  /** The value of a run of digits, most significant first. */
  function DecimalValue(s: string): nat
    requires AllDigits(s)
  {
    if s == [] then 0 else 10 * DecimalValue(s[..|s| - 1]) + DigitValue(s[|s| - 1])
  }

  /** The part of `s` after an optional leading sign. */
  function Magnitude(s: string): string {
    if |s| > 0 && (s[0] == '-' || s[0] == '+') then s[1..] else s
  }

  /** `s` has the shape `parseInt` accepts, before the range check. */
  predicate Numeral(s: string) {
    |Magnitude(s)| > 0 && AllDigits(Magnitude(s))
  }

  /** The mathematical value of a numeral, negated after a '-'. */
  function SignedValue(s: string): int
    requires Numeral(s)
  {
    if s[0] == '-' then 0 - DecimalValue(Magnitude(s)) else DecimalValue(Magnitude(s))
  }

  function ParseInt(s: string): (r: Option<int>)
    ensures r.Some? <==> Numeral(s) && MinInt <= SignedValue(s) <= MaxInt
    ensures r.Some? ==> r.value == SignedValue(s)
  {
    if !Numeral(s) then None
    else
      var v := SignedValue(s);
      if MinInt <= v <= MaxInt then Some(v) else None
  }

  /** The decimal numeral of a natural number, with no leading zeros. */
  function ShowNat(n: nat): (s: string)
    ensures |s| > 0 && AllDigits(s)
    ensures DecimalValue(s) == n
    ensures n > 0 ==> s[0] != '0'
  {
    if n < 10 then [DigitChar(n)]
    else
      var front := ShowNat(n / 10);
      var s := front + [DigitChar(n % 10)];
      assert s[..|s| - 1] == front;
      s
  }

  /** `Integer.toString(n)`. */
  function Show(n: int): string {
    if n < 0 then "-" + ShowNat(-n) else ShowNat(n)
  }

  /** Every 32-bit value survives printing and parsing back. */
  lemma ParseShow(n: int)
    requires MinInt <= n <= MaxInt
    ensures ParseInt(Show(n)) == Some(n)
  {
    var s := Show(n);
    if n < 0 {
      assert s[1..] == ShowNat(-n);
      assert Magnitude(s) == ShowNat(-n);
    } else {
      assert IsDigit(s[0]);
      assert Magnitude(s) == s;
    }
  }

  /** Overflow is a format error too: one past the largest int does not parse. */
  lemma OverflowRejected()
    ensures ParseInt("2147483648") == None
    ensures ParseInt("-2147483648") == Some(MinInt)
  {
    var s := "2147483648";
    assert Numeral(s);
    assert DecimalValue(s[..1]) == 2;
    assert DecimalValue(s[..2]) == 21 by { assert s[..2][..1] == s[..1]; }
    assert DecimalValue(s[..3]) == 214 by { assert s[..3][..2] == s[..2]; }
    assert DecimalValue(s[..4]) == 2147 by { assert s[..4][..3] == s[..3]; }
    assert DecimalValue(s[..5]) == 21474 by { assert s[..5][..4] == s[..4]; }
    assert DecimalValue(s[..6]) == 214748 by { assert s[..6][..5] == s[..5]; }
    assert DecimalValue(s[..7]) == 2147483 by { assert s[..7][..6] == s[..6]; }
    assert DecimalValue(s[..8]) == 21474836 by { assert s[..8][..7] == s[..7]; }
    assert DecimalValue(s[..9]) == 214748364 by { assert s[..9][..8] == s[..8]; }
    assert DecimalValue(s) == 2147483648 by { assert s[..9] == s[..|s| - 1]; }
    assert Magnitude(s) == s;
    assert Magnitude("-" + s) == s;
    assert "-2147483648" == "-" + s;
  }

  /** A sign alone, the empty string and a stray letter are rejected. */
  lemma MalformedRejected()
    ensures ParseInt("") == None
    ensures ParseInt("-") == None
    ensures ParseInt("+") == None
    ensures ParseInt("12a") == None
  {
    assert !IsDigit("12a"[2]);
  }
}
