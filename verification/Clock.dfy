/** Reading a time of day written "HH:MM" (Booking.js `toDecimal`). The source turns
    the text into hours as a floating-point number; the model keeps that reading as an
    exact `real` and also as whole minutes, which is what the availability checks use. */
module Clock {
  import opened Wrappers
  import opened Numerals

  /** JavaScript `text.split(sep)` for a one-character separator: the pieces between
      separators, in order; always at least one piece. */
  function Split(text: string, sep: char): (parts: seq<string>)
    ensures |parts| >= 1
  {
    if text == [] then [""]
    else
      var rest := Split(text[1..], sep);
      if text[0] == sep then [""] + rest
      else [[text[0]] + rest[0]] + rest[1..]
  }

  lemma {:induction false} SplitWithoutSeparator(text: string, sep: char)
    requires sep !in text
    ensures Split(text, sep) == [text]
  {
    if text != [] {
      SplitWithoutSeparator(text[1..], sep);
      assert [text[0]] + text[1..] == text;
    }
  }

  lemma {:induction false} SplitAtSeparator(x: string, y: string, sep: char)
    requires sep !in x && sep !in y
    ensures Split(x + [sep] + y, sep) == [x, y]
  {
    if x == [] {
      assert (x + [sep] + y)[1..] == y;
      SplitWithoutSeparator(y, sep);
    } else {
      assert (x + [sep] + y)[1..] == x[1..] + [sep] + y;
      SplitAtSeparator(x[1..], y, sep);
      assert [x[0]] + x[1..] == x;
    }
  }

  /** Text that `toDecimal` can read: `split(':')` gives at least two pieces, and the
      first two are each empty or a run of decimal digits. */
  predicate WellFormedTime(time: string)
  {
    var parts := Split(time, ':');
    |parts| >= 2 && AllDigits(parts[0]) && AllDigits(parts[1])
  }

  /** The parse `toDecimal` starts with: split on ':' and read the first two pieces with
      `Number` as hours and minutes; a missing or unreadable piece makes the result NaN
      (`None`). Pieces after the second are ignored. */
  function Reading(time: string): (r: Option<(nat, nat)>)
    ensures r.Some? <==> WellFormedTime(time)
  {
    var parts := Split(time, ':');
    if |parts| < 2 then None
    else match (NumberValue(parts[0]), NumberValue(parts[1]))
      case (Some(h), Some(m)) => Some((h, m))
      case _ => None
  }

  /** `toDecimal`: the reading as hours, `h + m / 60`. */
  function ToDecimal(time: string): (r: Option<real>)
    ensures r.Some? <==> WellFormedTime(time)
    ensures r.Some? ==> 0.0 <= r.value
  {
    match Reading(time)
    case Some((h, m)) => Some(h as real + m as real / 60.0)
    case None => None
  }

  /** The same reading in whole minutes since midnight. */
  function ToMinutes(time: string): (r: Option<int>)
    ensures r.Some? <==> WellFormedTime(time)
    ensures r.Some? ==> 0 <= r.value
  {
    match Reading(time)
    case Some((h, m)) => Some(h * 60 + m)
    case None => None
  }

  /** The minute reading is the decimal reading scaled by 60, and both are NaN together. */
  lemma MinutesAreScaledDecimal(time: string)
    ensures ToMinutes(time).Some? <==> ToDecimal(time).Some?
    ensures ToMinutes(time).Some? ==> ToDecimal(time).value == ToMinutes(time).value as real / 60.0
  {
  }

  /** Comparing minute readings gives the same answer as comparing `toDecimal` readings,
      in both directions and for both `<` and `==`. */
  lemma MinutesOrderMatchesDecimal(a: string, b: string)
    requires ToMinutes(a).Some? && ToMinutes(b).Some?
    ensures ToMinutes(a).value < ToMinutes(b).value <==> ToDecimal(a).value < ToDecimal(b).value
    ensures ToMinutes(a).value == ToMinutes(b).value <==> ToDecimal(a).value == ToDecimal(b).value
  {
    MinutesAreScaledDecimal(a);
    MinutesAreScaledDecimal(b);
  }

  /** Well-formed "HH:MM" text. */
  predicate IsClockText(t: string)
  {
    |t| == 5 && IsDigit(t[0]) && IsDigit(t[1]) && t[2] == ':' && IsDigit(t[3]) && IsDigit(t[4])
  }

  /** The two-digit, zero-padded rendering of a number below 100. */
  function TwoDigitText(n: nat): string
    requires n < 100
  {
    [DigitChar(n / 10), DigitChar(n % 10)]
  }

  /** The "HH:MM" text of an hour and a minute. */
  function ClockText(h: nat, m: nat): (t: string)
    requires h < 100 && m < 100
    ensures IsClockText(t)
  {
    TwoDigitText(h) + [':'] + TwoDigitText(m)
  }

  /** Reading a rendered time gives back its hour and minute. */
  lemma ClockTextReading(h: nat, m: nat)
    requires h < 100 && m < 100
    ensures ToMinutes(ClockText(h, m)) == Some(h * 60 + m)
    ensures ToDecimal(ClockText(h, m)) == Some(h as real + m as real / 60.0)
  {
    ClockReading(ClockText(h, m));
    ClockDecimal(ClockText(h, m));
  }

  /** "HH:MM" reads as h + m/60 hours. */
  lemma ClockDecimal(t: string)
    requires IsClockText(t)
    ensures var h := 10 * DigitValue(t[0]) + DigitValue(t[1]);
            var m := 10 * DigitValue(t[3]) + DigitValue(t[4]);
            ToDecimal(t) == Some(h as real + m as real / 60.0)
  {
    ClockReading(t);
    MinutesAreScaledDecimal(t);
  }

  /** "HH:MM" reads as h*60 + m minutes. */
  lemma ClockReading(t: string)
    requires IsClockText(t)
    ensures var h := 10 * DigitValue(t[0]) + DigitValue(t[1]);
            var m := 10 * DigitValue(t[3]) + DigitValue(t[4]);
            ToMinutes(t) == Some(h * 60 + m)
  {
    var hh, mm := t[..2], t[3..];
    assert t == hh + [':'] + mm;
    SplitAtSeparator(hh, mm, ':');
    TwoDigitsReading(hh);
    TwoDigitsReading(mm);
  }

  lemma TwoDigitsReading(s: string)
    requires |s| == 2 && AllDigits(s)
    ensures DigitsValue(s) == 10 * DigitValue(s[0]) + DigitValue(s[1])
  {
    var first := s[..1];
    assert first == [s[0]];
    assert first[..0] == [];
    assert DigitsValue(first) == DigitValue(s[0]);
    assert s[..|s| - 1] == first;
  }
}
