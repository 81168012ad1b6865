/** Decimal numerals as Python's str(int) writes them and int(str) reads them. */
module Numerals {
  import opened Wrappers
  import opened Text

  predicate IsDigit(c: char) {
    '0' <= c <= '9'
  }

  function DigitChar(d: nat): (c: char)
    requires d < 10
  {
    ('0' as int + d) as char
  }

  /** The decimal digits of n, most significant first, without leading zeros. */
  function NatToDecimal(n: nat): (s: string)
    ensures |s| >= 1
    ensures forall i :: 0 <= i < |s| ==> IsDigit(s[i])
  {
    if n < 10 then [DigitChar(n)] else NatToDecimal(n / 10) + [DigitChar(n % 10)]
  }

  /** str(n) for an int. */
  function IntToString(n: int): string {
    if n < 0 then "-" + NatToDecimal(-n) else NatToDecimal(n)
  }

  predicate DigitsOrUnderscores(s: string) {
    forall i :: 0 <= i < |s| ==> IsDigit(s[i]) || s[i] == '_'
  }

  /** Digits with single underscores between them, the body int() accepts. */
  predicate IsDigitGroup(s: string) {
    && |s| > 0
    && IsDigit(s[0])
    && s[|s| - 1] != '_'
    && DigitsOrUnderscores(s)
    && (forall i :: 0 <= i < |s| - 1 && s[i] == '_' ==> IsDigit(s[i + 1]))
  }

  /** The number a digit group denotes; underscores carry no value. */
  function DigitsValue(s: string): nat
    requires DigitsOrUnderscores(s)
  {
    if s == [] then 0
    else
      var last := s[|s| - 1];
      if last == '_' then DigitsValue(s[..|s| - 1])
      else
        assert IsDigit(last);
        10 * DigitsValue(s[..|s| - 1]) + (last as int - '0' as int)
  }

  /**
   * int(s) for a str: optional surrounding whitespace, an optional sign, then a
   * digit group. Anything else (a decimal point, an exponent, a word) is a ValueError.
   */
  function ParseIntLiteral(s: string): (r: Option<int>)
    ensures r.Some? ==> Strip(s) != []
  {
    var t := Strip(s);
    if |t| > 0 && (t[0] == '-' || t[0] == '+') then
      var body := t[1..];
      var v: int := if IsDigitGroup(body) then DigitsValue(body) else 0;
      if IsDigitGroup(body) then Some(if t[0] == '-' then -v else v)
      else None
    else if IsDigitGroup(t) then Some(DigitsValue(t))
    else None
  }

  lemma {:induction false} DecimalValue(n: nat)
    ensures DigitsValue(NatToDecimal(n)) == n
  {
    var s := NatToDecimal(n);
    if n >= 10 {
      DecimalValue(n / 10);
      assert s[..|s| - 1] == NatToDecimal(n / 10);
    }
  }

  /** Reading back what str(n) wrote gives n: int(str(n)) == n. */
  lemma ParseIntRoundTrip(n: int)
    ensures ParseIntLiteral(IntToString(n)) == Some(n)
  {
    var d := NatToDecimal(if n < 0 then -n else n);
    DecimalValue(if n < 0 then -n else n);
    assert IsDigitGroup(d);
    var s := IntToString(n);
    assert s[0] == '-' || IsDigit(s[0]);
    StripUnchanged(s);
    if n < 0 {
      assert s[1..] == d;
    }
  }

  /** A numeral with a decimal point, such as str(2.0), is not an int literal. */
  lemma PointRejected(s: string)
    requires '.' in s
    ensures ParseIntLiteral(s) == None
  {
    var i :| 0 <= i < |s| && s[i] == '.';
    StripKeeps(s, i);
    NoDigitGroupWithPoint(Strip(s));
  }

  lemma NoDigitGroupWithPoint(t: string)
    requires '.' in t
    ensures !IsDigitGroup(t)
    ensures |t| > 0 && (t[0] == '-' || t[0] == '+') ==> !IsDigitGroup(t[1..])
  {
    var j :| 0 <= j < |t| && t[j] == '.';
    assert !DigitsOrUnderscores(t);
    if j > 0 {
      assert t[1..][j - 1] == '.';
      assert !DigitsOrUnderscores(t[1..]);
    }
  }
}
