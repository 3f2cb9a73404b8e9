/**
 A calendar date as Python's `datetime.date` holds it, and `str(date)`,
 which is the ISO 8601 calendar form `YYYY-MM-DD` (`"%04d-%02d-%02d"`).
 A parser for that form is given as the formatter's inverse.
 */
module IsoDate {

  const MinYear := 1
  const MaxYear := 9999

  datatype Date = Date(year: int, month: int, day: int)

  datatype Option<T> = None | Some(value: T)

  /** Gregorian leap years, as `datetime` counts them. */
  predicate IsLeap(y: int)
    ensures IsLeap(y) ==> y % 4 == 0
    ensures y % 400 == 0 ==> IsLeap(y)
    ensures y % 100 == 0 && y % 400 != 0 ==> !IsLeap(y)
  {
    y % 4 == 0 && (y % 100 != 0 || y % 400 == 0)
  }

  /** The leap-year pattern repeats every 400 years. */
  lemma LeapCycle(y: int)
    ensures IsLeap(y) <==> IsLeap(y + 400)
  {
    assert (y + 400) % 4 == y % 4 && (y + 400) % 100 == y % 100 && (y + 400) % 400 == y % 400;
  }

  function DaysInMonth(y: int, m: int): (n: int)
    requires 1 <= m <= 12
    ensures 28 <= n <= 31
    ensures n == 29 <==> m == 2 && IsLeap(y)
  {
    if m == 2 then (if IsLeap(y) then 29 else 28)
    else if m == 4 || m == 6 || m == 9 || m == 11 then 30
    else 31
  }

  /** The dates a `datetime.date` object can hold. */
  predicate Valid(d: Date)
    ensures Valid(d) ==> 1 <= d.day <= 31
    ensures Valid(d) && d.month == 2 && d.day == 29 ==> IsLeap(d.year)
  {
    && MinYear <= d.year <= MaxYear
    && 1 <= d.month <= 12
    && 1 <= d.day <= DaysInMonth(d.year, d.month)
  }

  predicate IsDigit(c: char) {
    '0' <= c <= '9'
  }

  predicate AllDigits(s: string) {
    forall i :: 0 <= i < |s| ==> IsDigit(s[i])
  }

  function Pow10(n: nat): (r: nat)
    ensures r >= 1
  {
    if n == 0 then 1 else 10 * Pow10(n - 1)
  }

  function DigitChar(d: nat): (c: char)
    requires d < 10
    ensures IsDigit(c)
  {
    ('0' as int + d) as char
  }

  function DigitValue(c: char): (d: nat)
    requires IsDigit(c)
    ensures d < 10
  {
    c as int - '0' as int
  }

  /** `"%0<width>d" % n`: exactly `width` decimal digits, zero-padded on the left. */
  function PadDigits(n: nat, width: nat): (s: string)
    requires n < Pow10(width)
    ensures |s| == width
    ensures AllDigits(s)
  {
    if width == 0 then []
    else PadDigits(n / 10, width - 1) + [DigitChar(n % 10)]
  }

  /** The value of a string of decimal digits, most significant first. */
  function ParseDigits(s: string): (n: nat)
    requires AllDigits(s)
    ensures n < Pow10(|s|)
  {
    if s == [] then 0
    else 10 * ParseDigits(s[..|s| - 1]) + DigitValue(s[|s| - 1])
  }

  lemma {:induction false} ParsePadDigits(n: nat, width: nat)
    requires n < Pow10(width)
    ensures ParseDigits(PadDigits(n, width)) == n
  {
    if width > 0 {
      var s := PadDigits(n, width);
      ParsePadDigits(n / 10, width - 1);
      assert s[..|s| - 1] == PadDigits(n / 10, width - 1);
      assert DigitValue(s[|s| - 1]) == n % 10;
    }
  }

  /** Solver helper with no claim about dates: division of `10 * q + d` by ten. */
  lemma DivModTen(q: nat, d: nat)
    requires d < 10
    ensures (10 * q + d) / 10 == q && (10 * q + d) % 10 == d
  {
  }

  lemma {:induction false} PadParseDigits(s: string)
    requires AllDigits(s)
    ensures PadDigits(ParseDigits(s), |s|) == s
  {
    if s != [] {
      var init, last := s[..|s| - 1], s[|s| - 1];
      PadParseDigits(init);
      var n := ParseDigits(s);
      assert n == 10 * ParseDigits(init) + DigitValue(last);
      DivModTen(ParseDigits(init), DigitValue(last));
      assert DigitChar(n % 10) == last;
      assert s == init + [last];
    }
  }

  /** `str(d)` for a `datetime.date`. */
  function IsoFormat(d: Date): (s: string)
    requires Valid(d)
    ensures |s| == 10
    ensures s[4] == '-' && s[7] == '-'
    ensures forall i :: 0 <= i < 10 && i != 4 && i != 7 ==> IsDigit(s[i])
  {
    PadDigits(d.year, 4) + "-" + PadDigits(d.month, 2) + "-" + PadDigits(d.day, 2)
  }

  /** Reads `YYYY-MM-DD` back; `None` for any other shape or an impossible date. */
  function ParseIsoDate(s: string): Option<Date> {
    if |s| == 10 && s[4] == '-' && s[7] == '-'
       && AllDigits(s[..4]) && AllDigits(s[5..7]) && AllDigits(s[8..])
    then
      var d := Date(ParseDigits(s[..4]), ParseDigits(s[5..7]), ParseDigits(s[8..]));
      if Valid(d) then Some(d) else None
    else None
  }

  /** Parsing the formatted date gives back year, month and day. */
  lemma IsoFormatRoundTrip(d: Date)
    requires Valid(d)
    ensures ParseIsoDate(IsoFormat(d)) == Some(d)
  {
    var s := IsoFormat(d);
    assert s[..4] == PadDigits(d.year, 4);
    assert s[5..7] == PadDigits(d.month, 2);
    assert s[8..] == PadDigits(d.day, 2);
    ParsePadDigits(d.year, 4);
    ParsePadDigits(d.month, 2);
    ParsePadDigits(d.day, 2);
  }

  /** Every string the parser accepts is the formatting of the date it returns. */
  lemma ParseIsoDateSound(s: string)
    requires ParseIsoDate(s).Some?
    ensures Valid(ParseIsoDate(s).value)
    ensures IsoFormat(ParseIsoDate(s).value) == s
  {
    PadParseDigits(s[..4]);
    PadParseDigits(s[5..7]);
    PadParseDigits(s[8..]);
    assert s == s[..4] + "-" + s[5..7] + "-" + s[8..];
  }

  /** Distinct dates format to distinct strings. */
  lemma IsoFormatInjective(d1: Date, d2: Date)
    requires Valid(d1) && Valid(d2)
    requires IsoFormat(d1) == IsoFormat(d2)
    ensures d1 == d2
  {
    IsoFormatRoundTrip(d1);
    IsoFormatRoundTrip(d2);
  }
}
