/** The "YYYY-MM-DD" text an event's `date` holds: what `format(d, 'yyyy-MM-dd')` writes and
    what `new Date(s)` reads back as a calendar day. */
module DateStrings {
  import opened Options
  import opened Dates

  predicate IsDigit(c: char)
  {
    '0' <= c <= '9'
  }

  predicate AllDigits(s: string)
  {
    forall i :: 0 <= i < |s| ==> IsDigit(s[i])
  }

  function DigitChar(n: int): (c: char)
    requires 0 <= n <= 9
    ensures IsDigit(c)
  {
    (n + '0' as int) as char
  }

  function DigitValue(c: char): (n: int)
    requires IsDigit(c)
    ensures 0 <= n <= 9
    ensures DigitChar(n) == c
  {
    c as int - '0' as int
  }

  function Pow10(k: nat): (p: nat)
    ensures p >= 1
  {
    if k == 0 then 1 else 10 * Pow10(k - 1)
  }

  /** The decimal numeral of a string of digits; leading zeros allowed. */
  function NumberValue(s: string): (n: nat)
    requires AllDigits(s)
    ensures n < Pow10(|s|)
  {
    if |s| == 0 then 0
    else NumberValue(s[..|s| - 1]) * 10 + DigitValue(s[|s| - 1])
  }

  /** `n` written with exactly `width` digits, padded with leading zeros. */
  function Digits(n: nat, width: nat): (s: string)
    requires n < Pow10(width)
    ensures |s| == width && AllDigits(s)
  {
    if width == 0 then ""
    else Digits(n / 10, width - 1) + [DigitChar(n % 10)]
  }

  lemma {:induction false} NumberOfDigits(n: nat, width: nat)
    requires n < Pow10(width)
    ensures NumberValue(Digits(n, width)) == n
  {
    if width > 0 {
      NumberOfDigits(n / 10, width - 1);
      var s := Digits(n, width);
      assert s[..|s| - 1] == Digits(n / 10, width - 1);
    }
  }

  lemma {:induction false} DigitsOfNumber(s: string)
    requires AllDigits(s)
    ensures Digits(NumberValue(s), |s|) == s
  {
    if |s| > 0 {
      var front := s[..|s| - 1];
      DigitsOfNumber(front);
      var n := NumberValue(s);
      assert n / 10 == NumberValue(front);
      assert n % 10 == DigitValue(s[|s| - 1]);
      assert s == front + [s[|s| - 1]];
    }
  }

  /** The years the model formats: 0 (written as its era year, 1 BC) through 9999.
      "yyyy" also writes years -9998 through -1 with four digits; those, and all years
      after 9999, are not modelled. */
  predicate FourDigitYear(d: Date)
  {
    0 <= d.year <= 9999
  }

  /** The years "yyyy" writes as themselves: 1 through 9999. */
  predicate CommonEraYear(d: Date)
  {
    1 <= d.year <= 9999
  }

  /** The era year "yyyy" prints: a year before 1 is counted backwards as a year BC. */
  function EraYear(year: int): (e: int)
    ensures e >= 1
    ensures year >= 1 ==> e == year
    ensures year < 1 ==> e + year == 1
  {
    if year >= 1 then year else 1 - year
  }

  /** format(d, 'yyyy-MM-dd'). */
  function FormatDate(d: Date): (s: string)
    requires ValidDate(d) && FourDigitYear(d)
    ensures |s| == 10 && s[4] == '-' && s[7] == '-'
    ensures AllDigits(s[..4]) && NumberValue(s[..4]) == EraYear(d.year)
    ensures AllDigits(s[5..7]) && NumberValue(s[5..7]) == d.month
    ensures AllDigits(s[8..]) && NumberValue(s[8..]) == d.day
  {
    var y, m, dd := Digits(EraYear(d.year), 4), Digits(d.month, 2), Digits(d.day, 2);
    NumberOfDigits(EraYear(d.year), 4);
    NumberOfDigits(d.month, 2);
    NumberOfDigits(d.day, 2);
    var s := y + "-" + m + "-" + dd;
    assert s[..4] == y && s[5..7] == m && s[8..] == dd;
    s
  }

  /** The calendar day a date-only ISO string "YYYY-MM-DD" denotes, or None for any other
      string. The date input writes only "" or this form; strings in other forms are
      read here as None, which is not what every JavaScript engine does with them. */
  function ParseDate(s: string): (r: Option<Date>)
    ensures r.Some? ==> ValidDate(r.value) && FourDigitYear(r.value)
  {
    if |s| == 10 && s[4] == '-' && s[7] == '-'
       && AllDigits(s[..4]) && AllDigits(s[5..7]) && AllDigits(s[8..])
    then
      var d := Date(NumberValue(s[..4]), NumberValue(s[5..7]), NumberValue(s[8..]));
      if ValidDate(d) then Some(d) else None
    else None
  }

  /** Writing a day of the common era and reading it back yields the same day. */
  lemma ParseFormat(d: Date)
    requires ValidDate(d) && CommonEraYear(d)
    ensures ParseDate(FormatDate(d)) == Some(d)
  {
  }

  /** Year 0 does not survive the trip: "yyyy" writes it as its era year 1, and the
      string read back is a day of year 1. */
  lemma YearZeroIsWrittenAsOne()
    ensures FormatDate(Date(0, 1, 1)) == "0001-01-01"
    ensures ParseDate(FormatDate(Date(0, 1, 1))) == Some(Date(1, 1, 1))
  {
    assert Digits(1, 4) == "0001" by {
      assert Digits(1, 4) == Digits(0, 3) + [DigitChar(1)];
    }
  }

  /** A string that reads as a day of the common era is exactly that day written out: no
      two strings name the same day. */
  lemma FormatParse(s: string)
    requires ParseDate(s).Some?
    ensures CommonEraYear(ParseDate(s).value) ==> FormatDate(ParseDate(s).value) == s
  {
    DigitsOfNumber(s[..4]);
    DigitsOfNumber(s[5..7]);
    DigitsOfNumber(s[8..]);
    assert s == s[..4] + "-" + s[5..7] + "-" + s[8..];
  }
}
