/**
 * Proleptic Gregorian dates as Python's `datetime.date` has them: stepping
 * one day at a time through a month, and `isoformat()`.
 */
module Calendar {
  import opened Digits
  import opened LexOrder

  datatype Date = Date(year: nat, month: nat, day: nat)

  predicate IsLeapYear(y: int) {
    y % 4 == 0 && (y % 100 != 0 || y % 400 == 0)
  }

  function DaysInMonth(y: int, m: int): (n: int)
    requires 1 <= m <= 12
    ensures 28 <= n <= 31
    ensures n == 31 <==> m in {1, 3, 5, 7, 8, 10, 12}
    ensures m in {4, 6, 9, 11} ==> n == 30
    ensures m == 2 ==> (n == 29 <==> IsLeapYear(y))
    ensures m == 2 && !IsLeapYear(y) ==> n == 28
  {
    if m == 2 then (if IsLeapYear(y) then 29 else 28)
    else if m in {4, 6, 9, 11} then 30
    else 31
  }

  /** The range `date` accepts. */
  predicate ValidDate(d: Date) {
    1 <= d.year <= 9999 && 1 <= d.month <= 12 && 1 <= d.day <= DaysInMonth(d.year, d.month)
  }

  /** `d + timedelta(days=1)`, with the year left unbounded. */
  function NextDay(d: Date): (n: Date)
    requires 1 <= d.month <= 12 && 1 <= d.day <= DaysInMonth(d.year, d.month)
    ensures 1 <= n.month <= 12 && 1 <= n.day <= DaysInMonth(n.year, n.month)
    ensures n.month == d.month <==> d.day < DaysInMonth(d.year, d.month)
  {
    if d.day < DaysInMonth(d.year, d.month) then Date(d.year, d.month, d.day + 1)
    else if d.month < 12 then Date(d.year, d.month + 1, 1)
    else Date(d.year + 1, 1, 1)
  }

  /** The days of month `m` of year `y`, first to last. */
  function MonthDays(y: nat, m: nat): seq<Date>
    requires 1 <= m <= 12
  {
    seq(DaysInMonth(y, m), i requires 0 <= i => Date(y, m, i + 1))
  }

  /**
   * `iter_days_of_month`: start at the first of the month and step one day
   * while the month stays the same.
   */
  method DaysOfMonth(year: int, month: int) returns (days: seq<Date>)
    requires 1 <= year <= 9999 && 1 <= month <= 12
    ensures days == MonthDays(year, month)
    ensures |days| == DaysInMonth(year, month)
    ensures forall i :: 0 <= i < |days| ==> ValidDate(days[i]) && days[i].month == month
    ensures days[0] == Date(year, month, 1)
    ensures forall i :: 0 <= i < |days| - 1 ==> NextDay(days[i]) == days[i + 1]
    ensures NextDay(days[|days| - 1]).month != month
  {
    var d := Date(year, month, 1);
    days := [];
    while d.month == month
      invariant 1 <= d.month <= 12 && 1 <= d.day <= DaysInMonth(d.year, d.month)
      invariant |days| <= DaysInMonth(year, month)
      invariant forall i :: 0 <= i < |days| ==> days[i] == Date(year, month, i + 1)
      invariant d.month == month ==> d == Date(year, month, |days| + 1)
      invariant d.month != month ==> |days| == DaysInMonth(year, month) && |days| > 0 &&
                                     d == NextDay(days[|days| - 1])
      decreases DaysInMonth(year, month) - |days|
    {
      days := days + [d];
      d := NextDay(d);
    }
  }

  /**
   * `s` with zeros in front until it is `width` long, as `%0<width>d` does:
   * exactly the longer of `s` and `width`, `s` at the end, `0` before it.
   */
  function ZeroPad(s: string, width: nat): (r: string)
    ensures |r| == if |s| >= width then |s| else width
    ensures r[|r| - |s|..] == s
    ensures forall i :: 0 <= i < |r| - |s| ==> r[i] == '0'
    decreases width - |s|
  {
    if |s| >= width then s
    else
      var r := ZeroPad("0" + s, width);
      PadOneMore(r, s, |r| - |s| - 1);
      r
  }

  /** A padded string ending with `"0" + s` after `k` zeros ends with `s` after `k + 1` zeros. */
  lemma PadOneMore(r: string, s: string, k: nat)
    requires k + 1 + |s| == |r| && r[k..] == "0" + s
    requires forall i :: 0 <= i < k ==> r[i] == '0'
    ensures r[k + 1..] == s
    ensures forall i :: 0 <= i < k + 1 ==> r[i] == '0'
  {
    assert r[k + 1..] == r[k..][1..];
    assert r[k] == r[k..][0];
  }

  /** `%02d` of a number below 100: two digits, the tens first. */
  lemma TwoDigits(n: nat)
    requires n < 100
    ensures ZeroPad(Decimal(n), 2) == [DigitChar(n / 10), DigitChar(n % 10)]
  {
    if n < 10 {
      OneDigitPadded(n);
    } else {
      TwoDigitsUnpadded(n);
    }
  }

  lemma OneDigitPadded(n: nat)
    requires n < 10
    ensures ZeroPad(Decimal(n), 2) == [DigitChar(0), DigitChar(n)]
  {
    var ds := Decimal(n);
    assert ds == [DigitChar(n)];
    assert ZeroPad("0" + ds, 2) == "0" + ds;
  }

  lemma TwoDigitsUnpadded(n: nat)
    requires 10 <= n < 100
    ensures ZeroPad(Decimal(n), 2) == [DigitChar(n / 10), DigitChar(n % 10)]
  {
    var ds := Decimal(n);
    assert ds == Decimal(n / 10) + [DigitChar(n % 10)];
    assert Decimal(n / 10) == [DigitChar(n / 10)];
  }

  /** `a-b` with a two-character `b` ends with `b`. */
  lemma DashedTail(a: string, b: string, b0: char, b1: char)
    requires b == [b0, b1]
    ensures var r := a + "-" + b;
            |r| >= 2 && r[|r| - 2..] == [b0, b1]
  {
    var r := a + "-" + b;
    assert r[|r| - 2..] == [r[|r| - 2], r[|r| - 1]];
  }

  /**
   * `date.isoformat()`: `%04d-%02d-%02d`. It ends with the day of the month
   * as two digits, the tens first.
   */
  function IsoFormat(d: Date): (r: string)
    ensures d.day < 100 ==> |r| >= 2 && r[|r| - 2..] == [DigitChar(d.day / 10), DigitChar(d.day % 10)]
  {
    var head := ZeroPad(Decimal(d.year), 4) + "-" + ZeroPad(Decimal(d.month), 2);
    var dd := ZeroPad(Decimal(d.day), 2);
    if d.day < 100 then
      TwoDigits(d.day);
      DashedTail(head, dd, DigitChar(d.day / 10), DigitChar(d.day % 10));
      head + "-" + dd
    else head + "-" + dd
  }

  lemma TwoDigitOrder(a: nat, b: nat)
    requires a < b < 100
    ensures LexLe(ZeroPad(Decimal(a), 2), ZeroPad(Decimal(b), 2))
    ensures ZeroPad(Decimal(a), 2) != ZeroPad(Decimal(b), 2)
  {
    TwoDigits(a);
    TwoDigits(b);
    var sa, sb := ZeroPad(Decimal(a), 2), ZeroPad(Decimal(b), 2);
    if a / 10 == b / 10 {
      assert sa[1..] == [sa[1]] && sb[1..] == [sb[1]];
      assert sa[1] < sb[1];
    } else {
      assert sa[0] < sb[0];
    }
  }

  /**
   * Within one month, the ISO strings of two days compare as the days do,
   * so sorting the date keys as strings sorts the days.
   */
  lemma IsoFormatOrder(d1: Date, d2: Date)
    requires ValidDate(d1) && ValidDate(d2)
    requires d1.year == d2.year && d1.month == d2.month && d1.day < d2.day
    ensures LexLe(IsoFormat(d1), IsoFormat(d2)) && IsoFormat(d1) != IsoFormat(d2)
  {
    var prefix := ZeroPad(Decimal(d1.year), 4) + "-" + ZeroPad(Decimal(d1.month), 2) + "-";
    var s1, s2 := ZeroPad(Decimal(d1.day), 2), ZeroPad(Decimal(d2.day), 2);
    assert IsoFormat(d1) == prefix + s1;
    assert IsoFormat(d2) == prefix + s2;
    TwoDigitOrder(d1.day, d2.day);
    LexLeCommonPrefix(prefix, s1, s2);
    assert (prefix + s1)[|prefix|..] == s1 && (prefix + s2)[|prefix|..] == s2;
  }

  /** The ISO strings of the days of a month, in order, strictly ascend. */
  lemma MonthKeysAscend(y: nat, m: nat)
    requires 1 <= y <= 9999 && 1 <= m <= 12
    ensures var days := MonthDays(y, m);
            forall i, j :: 0 <= i < j < |days| ==>
              LexLe(IsoFormat(days[i]), IsoFormat(days[j])) && IsoFormat(days[i]) != IsoFormat(days[j])
  {
    var days := MonthDays(y, m);
    forall i, j | 0 <= i < j < |days|
      ensures LexLe(IsoFormat(days[i]), IsoFormat(days[j])) && IsoFormat(days[i]) != IsoFormat(days[j])
    {
      IsoFormatOrder(days[i], days[j]);
    }
  }
}
