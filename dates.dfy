/**
 * Calendar dates as `datetime.strptime(text, "%Y-%m-%d").date()` reads
 * them, and the `YYYY-MM-DD` text the mail reader produces for them.
 */
module Dates {
  import opened Wrappers
  import opened Text

  datatype Date = Date(year: int, month: int, day: int)

  predicate IsLeapYear(y: int) {
    y % 4 == 0 && (y % 100 != 0 || y % 400 == 0)
  }

  function DaysInMonth(y: int, m: int): int {
    if m == 2 then (if IsLeapYear(y) then 29 else 28)
    else if m == 4 || m == 6 || m == 9 || m == 11 then 30
    else 31
  }

  /** A date `datetime` can represent (years 1 to 9999). */
  predicate IsValid(d: Date) {
    1 <= d.year <= 9999 && 1 <= d.month <= 12 && 1 <= d.day <= DaysInMonth(d.year, d.month)
  }

  predicate DigitsAt(s: string, from: nat, n: nat) {
    from + n <= |s| && forall k :: from <= k < from + n ==> IsDigit(s[k])
  }

  function Number(s: string, from: nat, n: nat): nat
    requires DigitsAt(s, from, n)
    decreases n
  {
    if n == 0 then 0 else 10 * Number(s, from, n - 1) + DigitValue(s[from + n - 1])
  }

  /** `strptime(s, "%Y-%m-%d")`; `None` stands for the `ValueError` it raises. */
  function ParseDate(s: string): (r: Option<Date>)
    ensures r.Some? ==> IsValid(r.value) && |s| == 10
  {
    if |s| == 10 && s[4] == '-' && s[7] == '-' && DigitsAt(s, 0, 4) && DigitsAt(s, 5, 2) && DigitsAt(s, 8, 2) then
      var d := Date(Number(s, 0, 4), Number(s, 5, 2), Number(s, 8, 2));
      if IsValid(d) then Some(d) else None
    else None
  }

  function Pad2(n: nat): string
    requires n < 100
  {
    [DigitChar(n / 10), DigitChar(n % 10)]
  }

  function Pad4(n: nat): string
    requires n < 10000
  {
    [DigitChar(n / 1000), DigitChar(n / 100 % 10), DigitChar(n / 10 % 10), DigitChar(n % 10)]
  }

  /** `str(msg.date)[:10]`: the zero-padded `YYYY-MM-DD` form of a date. */
  function FormatDate(d: Date): string
    requires IsValid(d)
  {
    Pad4(d.year) + "-" + Pad2(d.month) + "-" + Pad2(d.day)
  }

  lemma Number2(s: string, from: nat)
    requires DigitsAt(s, from, 2)
    ensures Number(s, from, 2) == 10 * DigitValue(s[from]) + DigitValue(s[from + 1])
  {
    assert Number(s, from, 1) == DigitValue(s[from]);
  }

  lemma Number4(s: string)
    requires DigitsAt(s, 0, 4)
    ensures Number(s, 0, 4) == 1000 * DigitValue(s[0]) + 100 * DigitValue(s[1]) + 10 * DigitValue(s[2]) + DigitValue(s[3])
  {
    Number2(s, 0);
    assert Number(s, 0, 3) == 100 * DigitValue(s[0]) + 10 * DigitValue(s[1]) + DigitValue(s[2]);
  }

  lemma CharOfValue(c: char)
    requires IsDigit(c)
    ensures DigitChar(DigitValue(c)) == c
  {
  }

  lemma Split2(n: nat, a: nat, b: nat)
    requires a < 10 && b < 10 && n == 10 * a + b
    ensures n / 10 == a && n % 10 == b
  {
  }

  lemma Split4(n: nat, a: nat, b: nat, c: nat, d: nat)
    requires a < 10 && b < 10 && c < 10 && d < 10
    requires n == 1000 * a + 100 * b + 10 * c + d
    ensures n / 1000 == a && n / 100 % 10 == b && n / 10 % 10 == c && n % 10 == d
  {
    assert n / 10 == 100 * a + 10 * b + c;
    assert n / 100 == 10 * a + b;
  }

  lemma Join2(n: nat)
    requires n < 100
    ensures 10 * (n / 10) + n % 10 == n
  {
  }

  lemma Join4(n: nat)
    requires n < 10000
    ensures 1000 * (n / 1000) + 100 * (n / 100 % 10) + 10 * (n / 10 % 10) + n % 10 == n
  {
    assert n == 10 * (n / 10) + n % 10;
    assert n / 10 == 10 * (n / 100) + n / 10 % 10;
    assert n / 100 == 10 * (n / 1000) + n / 100 % 10;
  }

  /** Two padded digits at `from` read back as their value. */
  lemma ReadPad2(s: string, from: nat, n: nat)
    requires n < 100 && from + 2 <= |s| && s[from..from + 2] == Pad2(n)
    ensures DigitsAt(s, from, 2) && Number(s, from, 2) == n
  {
    assert s[from] == DigitChar(n / 10) && s[from + 1] == DigitChar(n % 10);
    Number2(s, from);
    Join2(n);
  }

  /** Four padded digits at the start read back as their value. */
  lemma ReadPad4(s: string, n: nat)
    requires n < 10000 && 4 <= |s|
    requires s[0] == DigitChar(n / 1000) && s[1] == DigitChar(n / 100 % 10)
    requires s[2] == DigitChar(n / 10 % 10) && s[3] == DigitChar(n % 10)
    ensures DigitsAt(s, 0, 4) && Number(s, 0, 4) == n
  {
    Number4(s);
    Join4(n);
  }

  /** Reading back the formatted text of a valid date gives the date. */
  lemma ParseFormatted(d: Date)
    requires IsValid(d)
    ensures ParseDate(FormatDate(d)) == Some(d)
  {
    var s := FormatDate(d);
    assert s[..4] == Pad4(d.year) && s[5..7] == Pad2(d.month) && s[8..10] == Pad2(d.day);
    assert s[0] == s[..4][0] && s[1] == s[..4][1] && s[2] == s[..4][2] && s[3] == s[..4][3];
    ReadPad4(s, d.year);
    ReadPad2(s, 5, d.month);
    ReadPad2(s, 8, d.day);
  }

  /** The only text `strptime` accepts for a date here is its formatted form. */
  lemma FormattedParsed(s: string)
    requires ParseDate(s).Some?
    ensures FormatDate(ParseDate(s).value) == s
  {
    var d := ParseDate(s).value;
    Number4(s);
    Number2(s, 5);
    Number2(s, 8);
    Split4(d.year, DigitValue(s[0]), DigitValue(s[1]), DigitValue(s[2]), DigitValue(s[3]));
    Split2(d.month, DigitValue(s[5]), DigitValue(s[6]));
    Split2(d.day, DigitValue(s[8]), DigitValue(s[9]));
    var f := FormatDate(d);
    forall k | k in {0, 1, 2, 3, 5, 6, 8, 9} ensures f[k] == s[k] {
      CharOfValue(s[k]);
    }
    assert f == s;
  }
}
