/** The two JavaScript number conversions the booking code relies on, restricted to
    decimal text: `Number(text)` (used by `toDecimal`) and `parseInt(text, 10)` (used by
    the DELETE handler), plus the decimal rendering `${n}` the client puts in a URL. */
module Numerals {
  import opened Wrappers

  predicate IsDigit(c: char) { '0' <= c <= '9' }

  predicate AllDigits(s: string) { forall i :: 0 <= i < |s| ==> IsDigit(s[i]) }

  function DigitValue(c: char): (d: nat)
    requires IsDigit(c)
    ensures d < 10
  {
    c as int - '0' as int
  }

  function DigitChar(d: nat): (c: char)
    requires d < 10
    ensures IsDigit(c) && DigitValue(c) == d
  {
    ('0' as int + d) as char
  }

  /** The value of a run of decimal digits, most significant first. */
  function DigitsValue(s: string): nat
    requires AllDigits(s)
  {
    if s == [] then 0 else DigitsValue(s[..|s| - 1]) * 10 + DigitValue(s[|s| - 1])
  }

  /** Decimal rendering of a natural number, as a template literal `${n}` produces it. */
  function ShowNat(n: nat): (s: string)
    ensures |s| > 0 && AllDigits(s)
  {
    if n < 10 then [DigitChar(n)] else ShowNat(n / 10) + [DigitChar(n % 10)]
  }

  lemma {:induction false} ShowNatValue(n: nat)
    ensures DigitsValue(ShowNat(n)) == n
  {
    if n >= 10 {
      var s := ShowNat(n);
      assert s[..|s| - 1] == ShowNat(n / 10);
      ShowNatValue(n / 10);
    }
  }

  /** Length of the longest prefix of `s` made of decimal digits. */
  function LeadingDigits(s: string): (k: nat)
    ensures k <= |s| && AllDigits(s[..k])
    ensures k < |s| ==> !IsDigit(s[k])
  {
    if s == [] || !IsDigit(s[0]) then 0
    else
      var k := 1 + LeadingDigits(s[1..]);
      assert s[..k] == [s[0]] + s[1..][..k - 1];
      k
  }

  lemma {:induction false} LeadingDigitsOfRun(d: string, rest: string)
    requires AllDigits(d)
    requires rest == [] || !IsDigit(rest[0])
    ensures LeadingDigits(d + rest) == |d|
  {
    if d != [] {
      assert (d + rest)[1..] == d[1..] + rest;
      LeadingDigitsOfRun(d[1..], rest);
    }
  }

  /** JavaScript `Number(text)` on the text forms this model covers: the empty text
      reads as 0, a run of decimal digits as its value, anything else as NaN (`None`). */
  function NumberValue(text: string): (r: Option<nat>)
    ensures r.Some? <==> AllDigits(text)
    ensures text == [] ==> r == Some(0)
  {
    if AllDigits(text) then Some(DigitsValue(text)) else None
  }

  /** JavaScript `parseInt(text, 10)`: an optional sign, then the longest run of
      decimal digits; NaN (`None`) when that run is empty. Trailing text is ignored. */
  function ParseInt(text: string): (r: Option<int>)
    ensures r.Some? <==> exists k :: 0 <= k <= 1 && k < |text| && IsDigit(text[k]) &&
                                      (k == 1 ==> text[0] == '-' || text[0] == '+')
  {
    var signed := |text| > 0 && (text[0] == '-' || text[0] == '+');
    var digits := if signed then text[1..] else text;
    var k := LeadingDigits(digits);
    if k == 0 then None
    else if signed && text[0] == '-' then Some(0 - DigitsValue(digits[..k]))
    else Some(DigitsValue(digits[..k]))
  }

  /** Reading back a rendered index gives the index, whatever non-digit text follows it. */
  lemma ParseIntShowNat(n: nat, rest: string)
    requires rest == [] || !IsDigit(rest[0])
    ensures ParseInt(ShowNat(n) + rest) == Some(n)
  {
    var d := ShowNat(n);
    LeadingDigitsOfRun(d, rest);
    assert (d + rest)[..|d|] == d;
    ShowNatValue(n);
  }

  lemma ParseIntNegative(n: nat)
    ensures ParseInt("-" + ShowNat(n)) == Some(0 - n)
  {
    var d := ShowNat(n);
    var t := "-" + d;
    assert t[0] == '-' && t[1..] == d + [];
    LeadingDigitsOfRun(d, []);
    assert d + [] == d && d[..|d|] == d;
    ShowNatValue(n);
  }
}
