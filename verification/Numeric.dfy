/** JavaScript's `parseInt(s, 10)` on integers of unbounded size, and the
    decimal rendering of a natural number used by template literals. */
module Numeric {
  import opened Wrappers

  /** The characters `parseInt` skips before the number: the ECMAScript
      StrWhiteSpaceChar set (white space and line terminators). */
  predicate IsWhiteSpace(c: char) {
    c == '\U{9}' || c == '\U{B}' || c == '\U{C}' || c == '\U{20}' || c == '\U{A0}' || c == '\U{FEFF}'
    || c == '\U{A}' || c == '\U{D}' || c == '\U{2028}' || c == '\U{2029}'
    || c == '\U{1680}' || ('\U{2000}' <= c <= '\U{200A}') || c == '\U{202F}' || c == '\U{205F}' || c == '\U{3000}'
  }

  predicate IsDigit(c: char) {
    '0' <= c <= '9'
  }

  function DigitValue(c: char): (d: nat)
    requires IsDigit(c)
    ensures d < 10
  {
    (c as int) - ('0' as int)
  }

  function DigitChar(d: nat): (c: char)
    requires d < 10
    ensures IsDigit(c) && DigitValue(c) == d
  {
    (('0' as int) + d) as char
  }

  /** `s` with its leading white space removed. */
  function TrimStart(s: string): (r: string)
    ensures |r| <= |s| && r == s[|s| - |r|..]
    ensures |r| > 0 ==> !IsWhiteSpace(r[0])
    ensures forall i :: 0 <= i < |s| - |r| ==> IsWhiteSpace(s[i])
  {
    if |s| > 0 && IsWhiteSpace(s[0]) then
      var r := TrimStart(s[1..]);
      assert s[1..][|s| - 1 - |r|..] == s[|s| - |r|..];
      assert forall i :: 1 <= i < |s| - |r| ==> s[i] == s[1..][i - 1];
      r
    else s
  }

  /** The longest prefix of `s` made of decimal digits. */
  function DigitPrefix(s: string): (r: string)
    ensures |r| <= |s| && r == s[..|r|]
    ensures forall i :: 0 <= i < |r| ==> IsDigit(r[i])
    ensures |r| < |s| ==> !IsDigit(s[|r|])
  {
    if |s| > 0 && IsDigit(s[0]) then [s[0]] + DigitPrefix(s[1..]) else ""
  }

  /** The value of a string of decimal digits, most significant first. */
  function DigitsValue(ds: string): nat
    requires forall i :: 0 <= i < |ds| ==> IsDigit(ds[i])
  {
    if |ds| == 0 then 0
    else 10 * DigitsValue(ds[..|ds| - 1]) + DigitValue(ds[|ds| - 1])
  }

  /** `parseInt(s, 10)`: None is NaN. Leading white space is skipped, one
      optional sign is read, then the longest run of digits; trailing text is
      ignored, and no digit at all gives NaN. */
  function ParseInt(s: string): Option<int>
  {
    var t := TrimStart(s);
    var negative := |t| > 0 && t[0] == '-';
    var body := if |t| > 0 && (t[0] == '-' || t[0] == '+') then t[1..] else t;
    var ds := DigitPrefix(body);
    if |ds| == 0 then None
    else if negative then Option<int>.Some(-(DigitsValue(ds) as int))
    else Some(DigitsValue(ds))
  }

  /** The decimal rendering of `n`, without leading zeros (`${n}`). */
  function DecimalString(n: nat): (s: string)
    ensures |s| > 0
    ensures forall i :: 0 <= i < |s| ==> IsDigit(s[i])
    ensures DigitsValue(s) == n
  {
    if n < 10 then [DigitChar(n)]
    else
      var s := DecimalString(n / 10) + [DigitChar(n % 10)];
      assert s[..|s| - 1] == DecimalString(n / 10);
      s
  }

  /** The only strings `parseInt` reads as NaN are those with no digit after
      the white space and the optional sign. */
  lemma ParseIntNaN(s: string)
    ensures ParseInt(s).None? <==>
      (var t := TrimStart(s);
       var body := if |t| > 0 && (t[0] == '-' || t[0] == '+') then t[1..] else t;
       |body| == 0 || !IsDigit(body[0]))
  {
    var t := TrimStart(s);
    var body := if |t| > 0 && (t[0] == '-' || t[0] == '+') then t[1..] else t;
    if |body| > 0 && IsDigit(body[0]) {
      assert |DigitPrefix(body)| > 0;
    }
  }

  /** `parseInt` reads a number only when the first character after the white
      space is a digit or a sign, and a negative number only after a minus. */
  lemma ParseIntSign(s: string)
    ensures ParseInt(s).Some? ==>
      && |TrimStart(s)| > 0
      && (IsDigit(TrimStart(s)[0]) || TrimStart(s)[0] == '-' || TrimStart(s)[0] == '+')
    ensures ParseInt(s).Some? && ParseInt(s).value < 0 ==> TrimStart(s)[0] == '-'
  {
  }

  /** A string of digits followed by anything that is not a digit has the
      digits as its digit prefix. */
  lemma {:induction false} DigitPrefixOf(ds: string, rest: string)
    requires forall i :: 0 <= i < |ds| ==> IsDigit(ds[i])
    requires |rest| > 0 ==> !IsDigit(rest[0])
    ensures DigitPrefix(ds + rest) == ds
  {
    if |ds| > 0 {
      DigitPrefixOf(ds[1..], rest);
      assert (ds + rest)[1..] == ds[1..] + rest;
      assert [ds[0]] + ds[1..] == ds;
    }
  }

  lemma DigitNotWhiteSpace(c: char)
    requires IsDigit(c)
    ensures !IsWhiteSpace(c)
  {
  }

  /** A non-empty string of digits reads as its decimal value. */
  lemma ParseDigits(ds: string)
    requires |ds| > 0 && forall i :: 0 <= i < |ds| ==> IsDigit(ds[i])
    ensures ParseInt(ds) == Some(DigitsValue(ds))
  {
    assert TrimStart(ds) == ds by { DigitNotWhiteSpace(ds[0]); }
    assert ds[0] != '-' && ds[0] != '+';
    assert DigitPrefix(ds) == ds by {
      DigitPrefixOf(ds, "");
      assert ds + "" == ds;
    }
  }

  /** Round trip: `parseInt` reads back the decimal rendering of any natural
      number, whatever non-digit text follows it. */
  lemma ParseDecimal(n: nat, rest: string)
    requires |rest| > 0 ==> !IsDigit(rest[0])
    ensures ParseInt(DecimalString(n) + rest) == Some(n)
  {
    var s := DecimalString(n) + rest;
    assert s[0] == DecimalString(n)[0];
    assert !IsWhiteSpace(s[0]) && s[0] != '-' && s[0] != '+';
    assert TrimStart(s) == s;
    DigitPrefixOf(DecimalString(n), rest);
  }

  /** Round trip for a negative number rendered with a leading minus sign. */
  lemma ParseNegativeDecimal(n: nat)
    ensures ParseInt("-" + DecimalString(n)) == Option<int>.Some(-(n as int))
  {
    var ds := DecimalString(n);
    var s := "-" + ds;
    assert s[0] == '-' && s[1..] == ds;
    assert DigitPrefix(s[1..]) == ds by {
      DigitPrefixOf(ds, "");
      assert ds + "" == ds;
    }
    ParseMinus(s);
  }

  /** Text that starts with a minus sign and then digits reads as the
      negated digits. */
  lemma ParseMinus(s: string)
    requires |s| > 0 && s[0] == '-' && |DigitPrefix(s[1..])| > 0
    ensures ParseInt(s) == Option<int>.Some(-(DigitsValue(DigitPrefix(s[1..])) as int))
  {
    TrimNonBlank(s);
  }

  /** Text that does not start with white space is left as it is. */
  lemma TrimNonBlank(s: string)
    requires |s| > 0 && !IsWhiteSpace(s[0])
    ensures TrimStart(s) == s
  {
  }

  /** A leading zero does not change the value: the two-digit fields of a
      short date such as "07" read as 7. */
  lemma {:induction false} LeadingZero(ds: string)
    requires forall i :: 0 <= i < |ds| ==> IsDigit(ds[i])
    ensures DigitsValue("0" + ds) == DigitsValue(ds)
  {
    if |ds| > 0 {
      var z := "0" + ds;
      assert z[..|z| - 1] == "0" + ds[..|ds| - 1];
      LeadingZero(ds[..|ds| - 1]);
    }
  }
}
