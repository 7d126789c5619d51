/** Decimal text for integers: the `%d` verb of Go's `fmt` and the parsers
    `strconv.Atoi` / `strconv.ParseInt(s, 10, 64)`. Go's `int` is taken to be
    64 bits wide, so both parsers accept exactly the same strings. */
module Decimal {
  import opened Wrappers

  const MinInt64: int := -0x8000_0000_0000_0000
  const MaxInt64: int := 0x7FFF_FFFF_FFFF_FFFF

  predicate IsInt64(n: int) {
    MinInt64 <= n <= MaxInt64
  }

  predicate IsDigit(c: char) {
    '0' <= c <= '9'
  }

  predicate AllDigits(s: string) {
    forall i | 0 <= i < |s| :: IsDigit(s[i])
  }

  function DigitChar(d: nat): (c: char)
    requires d < 10
    ensures IsDigit(c) && c as int - '0' as int == d
  {
    ('0' as int + d) as char
  }

  /** The value of a run of decimal digits, most significant first. */
  function DigitsValue(s: string): nat
    requires AllDigits(s)
  {
    if |s| == 0 then 0
    else 10 * DigitsValue(s[..|s| - 1]) + (s[|s| - 1] as int - '0' as int)
  }

  /** Shortest decimal digits of `n` (no leading zeros). */
  function FormatNat(n: nat): (s: string)
    ensures |s| >= 1 && AllDigits(s)
    ensures s[0] == '0' ==> n == 0
  {
    if n < 10 then [DigitChar(n)] else FormatNat(n / 10) + [DigitChar(n % 10)]
  }

  /** `fmt.Sprintf("%d", n)`. */
  function FormatInt(n: int): (s: string)
    ensures |s| >= 1
    ensures n < 0 <==> s[0] == '-'
  {
    if n < 0 then "-" + FormatNat(-n) else FormatNat(n)
  }

  /** `strconv.ParseInt(s, 10, 64)` (and `strconv.Atoi`): an optional sign
      followed by at least one decimal digit, whose value fits in 64 bits;
      anything else is a syntax or range error. */
  function ParseInt(s: string): (r: Option<int>)
    ensures r.Some? ==> IsInt64(r.value)
  {
    var signed := |s| > 0 && (s[0] == '+' || s[0] == '-');
    var digits := if signed then s[1..] else s;
    if |digits| == 0 || !AllDigits(digits) then None
    else
      var magnitude: int := DigitsValue(digits);
      var v: int := if signed && s[0] == '-' then -magnitude else magnitude;
      if IsInt64(v) then Some(v) else None
  }

  /** Reading back the digits of `n` gives `n`. */
  lemma {:induction false} DigitsOfFormat(n: nat)
    ensures DigitsValue(FormatNat(n)) == n
  {
    if n >= 10 {
      DigitsOfFormat(n / 10);
      var s := FormatNat(n);
      assert s[..|s| - 1] == FormatNat(n / 10);
    }
  }

  /** Round trip: every 64-bit integer printed with `%d` parses back to
      itself. */
  lemma ParseFormat(n: int)
    requires IsInt64(n)
    ensures ParseInt(FormatInt(n)) == Some(n)
  {
    if n < 0 {
      var d := FormatNat(-n);
      DigitsOfFormat(-n);
      var s := "-" + d;
      assert s[1..] == d;
      NegativeParse(s, -n);
    } else {
      var d := FormatNat(n);
      DigitsOfFormat(n);
      assert IsDigit(d[0]);
    }
  }

  /** A minus sign followed by the digits of `m` parses to `-m`. */
  lemma NegativeParse(s: string, m: nat)
    requires |s| >= 2 && s[0] == '-' && AllDigits(s[1..]) && DigitsValue(s[1..]) == m
    requires m <= -MinInt64
    ensures ParseInt(s) == Some(-(m as int))
  {
  }

  /** Parsing accepts nothing but an optional sign and digits. */
  lemma ParseRejectsGarbage(s: string, i: nat)
    requires i < |s| && !IsDigit(s[i]) && !(i == 0 && (s[0] == '+' || s[0] == '-'))
    ensures ParseInt(s) == None
  {
    if |s| > 0 && (s[0] == '+' || s[0] == '-') {
      assert s[1..][i - 1] == s[i];
    }
  }

  /** The strings the parser accepts: an optional sign, then at least one
      digit, with a signed value in the 64-bit range; that value is the
      result. */
  lemma ParseIntAccepts(s: string)
    ensures var signed := |s| > 0 && (s[0] == '+' || s[0] == '-');
      var digits := if signed then s[1..] else s;
      && (ParseInt(s).Some? <==>
            && |digits| > 0 && AllDigits(digits)
            && IsInt64(if signed && s[0] == '-' then -(DigitsValue(digits) as int) else DigitsValue(digits) as int))
      && (ParseInt(s).Some? ==>
            ParseInt(s).value == if signed && s[0] == '-' then -(DigitsValue(digits) as int) else DigitsValue(digits) as int)
  {
  }

  /** A leading plus and leading zeros are accepted; an empty string and a
      bare sign are not. */
  lemma ParseIntExamples()
    ensures ParseInt("+5") == Some(5) && ParseInt("007") == Some(7)
    ensures ParseInt("") == None && ParseInt("+") == None && ParseInt("-") == None
  {
    assert DigitsValue("5") == 5;
    assert DigitsValue("00") == 0;
    assert DigitsValue("007") == 7;
  }

}
