/**
 * Proleptic Gregorian calendar arithmetic on (year, month, day) triples, the calendar that
 * both JavaScript's `Date` and Python's `datetime.date` follow. Months are 0-based, as
 * `Date.getMonth()` reports them; the Python side adds one when it prints a date.
 */
module Dates {
  import opened Strs

  datatype Date = Date(year: int, month: int, day: int)

  predicate IsLeap(y: int)
  {
    y % 4 == 0 && (y % 100 != 0 || y % 400 == 0)
  }

  function DaysInMonth(y: int, m: int): (n: int)
    requires 0 <= m < 12
    ensures 28 <= n <= 31
  {
    if m == 1 then (if IsLeap(y) then 29 else 28)
    else if m == 3 || m == 5 || m == 8 || m == 10 then 30
    else 31
  }

  predicate Valid(d: Date)
  {
    0 <= d.month < 12 && 1 <= d.day <= DaysInMonth(d.year, d.month)
  }

  /** The month before (y, m): January steps back to December of the previous year. */
  function PrevMonth(y: int, m: int): (r: (int, int))
    requires 0 <= m < 12
    ensures 0 <= r.1 < 12
  {
    if m == 0 then (y - 1, 11) else (y, m - 1)
  }

  /** The month after (y, m): December steps on to January of the next year. */
  function NextMonth(y: int, m: int): (r: (int, int))
    requires 0 <= m < 12
    ensures 0 <= r.1 < 12
  {
    if m == 11 then (y + 1, 0) else (y, m + 1)
  }

  /** Stepping back a month and forward again (or the other way round) changes nothing. */
  lemma MonthStepsInverse(y: int, m: int)
    requires 0 <= m < 12
    ensures NextMonth(PrevMonth(y, m).0, PrevMonth(y, m).1) == (y, m)
    ensures PrevMonth(NextMonth(y, m).0, NextMonth(y, m).1) == (y, m)
  {
  }

  /** The calendar day after `d`. */
  function NextDay(d: Date): (r: Date)
    requires Valid(d)
    ensures Valid(r) && DateLt(d, r)
  {
    if d.day < DaysInMonth(d.year, d.month) then Date(d.year, d.month, d.day + 1)
    else
      var (ny, nm) := NextMonth(d.year, d.month);
      Date(ny, nm, 1)
  }

  /** The date `k` days after `d`. */
  function AddDays(d: Date, k: nat): (r: Date)
    requires Valid(d)
    ensures Valid(r) && r.year >= d.year
  {
    if k == 0 then d else NextDay(AddDays(d, k - 1))
  }

  /** Leap years in [0, y) for y >= 0 (and minus those in [y, 0) for y < 0). */
  function LeapsBefore(y: int): int
  {
    (y + 3) / 4 - (y + 99) / 100 + (y + 399) / 400
  }

  lemma LeapsBeforeStep(y: int)
    ensures LeapsBefore(y + 1) == LeapsBefore(y) + (if IsLeap(y) then 1 else 0)
  {
    assert LeapsBefore(y + 1) == (y + 4) / 4 - (y + 100) / 100 + (y + 400) / 400;
    QuarterStep(y);
    CenturyStep(y);
    QuadricentennialStep(y);
    DivisibilityChain(y);
  }

  /** Every multiple of 400 is a multiple of 100, and every multiple of 100 a multiple of 4. */
  lemma DivisibilityChain(y: int)
    ensures y % 400 == 0 ==> y % 100 == 0
    ensures y % 100 == 0 ==> y % 4 == 0
  {
    if y % 400 == 0 {
      var d := 4 * (y / 400) - y / 100;
      assert y % 100 == 100 * d;
    }
    if y % 100 == 0 {
      var d := 25 * (y / 100) - y / 4;
      assert y % 4 == 4 * d;
    }
  }

  lemma QuarterStep(y: int)
    ensures (y + 4) / 4 == (y + 3) / 4 + (if y % 4 == 0 then 1 else 0)
  {
  }

  lemma CenturyStep(y: int)
    ensures (y + 100) / 100 == (y + 99) / 100 + (if y % 100 == 0 then 1 else 0)
  {
  }

  lemma QuadricentennialStep(y: int)
    ensures (y + 400) / 400 == (y + 399) / 400 + (if y % 400 == 0 then 1 else 0)
  {
  }

  /** Days of year `y` before the first of month `m`. */
  function DaysBeforeMonth(y: int, m: int): int
    requires 0 <= m < 12
  {
    [0, 31, 59, 90, 120, 151, 181, 212, 243, 273, 304, 334][m] + (if m >= 2 && IsLeap(y) then 1 else 0)
  }

  /** Days since 0000-01-01 (negative before it). */
  function DayNumber(d: Date): int
    requires 0 <= d.month < 12
  {
    365 * d.year + LeapsBefore(d.year) + DaysBeforeMonth(d.year, d.month) + d.day - 1
  }

  /** `Date.getDay()`: 0 is Sunday, 6 is Saturday (0000-01-01 was a Saturday). */
  function Weekday(d: Date): (w: int)
    requires 0 <= d.month < 12
    ensures 0 <= w < 7
  {
    (DayNumber(d) + 6) % 7
  }

  /** Calibration against known dates: 2000-01-01 was a Saturday and 2026-02-01 a Sunday. */
  lemma KnownWeekdays()
    ensures Weekday(Date(2000, 0, 1)) == 6
    ensures Weekday(Date(2026, 1, 1)) == 0
  {
  }

  lemma NextDayNumber(d: Date)
    requires Valid(d)
    ensures DayNumber(NextDay(d)) == DayNumber(d) + 1
  {
    if d.day == DaysInMonth(d.year, d.month) && d.month == 11 {
      LeapsBeforeStep(d.year);
    }
  }

  lemma {:induction false} AddDaysNumber(d: Date, k: nat)
    requires Valid(d)
    ensures DayNumber(AddDays(d, k)) == DayNumber(d) + k
  {
    if k > 0 {
      var e := AddDays(d, k - 1);
      assert AddDays(d, k) == NextDay(e);
      AddDaysNumber(d, k - 1);
      NextDayNumber(e);
    }
  }

  /** Python's `date < date`: by year, then month, then day. */
  predicate DateLt(a: Date, b: Date)
  {
    a.year < b.year || (a.year == b.year && (a.month < b.month || (a.month == b.month && a.day < b.day)))
  }

  /** Python's `date <= date`. */
  predicate DateLe(a: Date, b: Date)
  {
    DateLt(a, b) || a == b
  }

  /** Day numbers of the first of January. */
  function YearStart(y: int): int
  {
    365 * y + LeapsBefore(y)
  }

  /** Each month begins where the one before it ends, and December ends where the next year begins. */
  lemma MonthEnds(y: int, m: int)
    requires 0 <= m < 12
    ensures m < 11 ==> DaysBeforeMonth(y, m + 1) == DaysBeforeMonth(y, m) + DaysInMonth(y, m)
    ensures m == 11 ==> YearStart(y) + DaysBeforeMonth(y, m) + DaysInMonth(y, m) == YearStart(y + 1)
  {
    LeapsBeforeStep(y);
  }

  /** Day numbers of earlier months stay below those of later months in the same year. */
  lemma {:induction false} MonthsOrdered(y: int, m1: int, m2: int)
    requires 0 <= m1 < m2 < 12
    ensures DaysBeforeMonth(y, m1) + DaysInMonth(y, m1) <= DaysBeforeMonth(y, m2)
    decreases m2 - m1
  {
    MonthEnds(y, m1);
    if m1 + 1 < m2 {
      MonthsOrdered(y, m1 + 1, m2);
      MonthEnds(y, m1 + 1);
    }
  }

  /** Every day of year `y1` has a smaller day number than the first of a later year. */
  lemma {:induction false} YearsOrdered(y1: int, y2: int)
    requires y1 < y2
    ensures YearStart(y1 + 1) <= YearStart(y2)
    decreases y2 - y1
  {
    if y1 + 1 < y2 {
      YearsOrdered(y1 + 1, y2);
      LeapsBeforeStep(y1 + 1);
    }
  }

  /** The day number follows calendar order. */
  lemma DayNumberMonotone(a: Date, b: Date)
    requires Valid(a) && Valid(b) && DateLt(a, b)
    ensures DayNumber(a) < DayNumber(b)
  {
    if a.year < b.year {
      MonthEnds(a.year, a.month);
      if a.month < 11 {
        MonthsOrdered(a.year, a.month, 11);
        MonthEnds(a.year, 11);
      }
      YearsOrdered(a.year, b.year);
    } else if a.month < b.month {
      MonthsOrdered(a.year, a.month, b.month);
    }
  }

  /** Valid dates with the same day number are the same date, and `<=` is `<=` on day numbers. */
  lemma DayNumberOrder(a: Date, b: Date)
    requires Valid(a) && Valid(b)
    ensures DayNumber(a) == DayNumber(b) ==> a == b
    ensures DateLe(a, b) <==> DayNumber(a) <= DayNumber(b)
  {
    if DateLt(a, b) {
      DayNumberMonotone(a, b);
    } else if DateLt(b, a) {
      DayNumberMonotone(b, a);
    }
  }

  /** Each date in `ds` is the day after the one before it. */
  predicate Consecutive(ds: seq<Date>)
  {
    (forall k :: 0 <= k < |ds| ==> Valid(ds[k])) &&
    forall k :: 0 <= k < |ds| - 1 ==> ds[k + 1] == NextDay(ds[k])
  }

  lemma {:induction false} ConsecutiveNumbers(ds: seq<Date>, k: int)
    requires Consecutive(ds)
    requires 0 <= k < |ds|
    ensures DayNumber(ds[k]) == DayNumber(ds[0]) + k
  {
    if k > 0 {
      ConsecutiveNumbers(ds, k - 1);
      NextDayNumber(ds[k - 1]);
    }
  }

  /** Consecutive dates stay between the first and the last. */
  lemma ConsecutiveWithinEnds(ds: seq<Date>)
    requires Consecutive(ds) && |ds| > 0
    ensures forall k :: 0 <= k < |ds| ==> DayNumber(ds[0]) <= DayNumber(ds[k]) <= DayNumber(ds[|ds| - 1])
  {
    ConsecutiveNumbers(ds, |ds| - 1);
    forall k | 0 <= k < |ds|
      ensures DayNumber(ds[0]) <= DayNumber(ds[k]) <= DayNumber(ds[|ds| - 1])
    {
      ConsecutiveNumbers(ds, k);
    }
  }

  /** Consecutive dates are pairwise different. */
  lemma ConsecutiveDistinct(ds: seq<Date>, i: int, j: int)
    requires Consecutive(ds)
    requires 0 <= i < j < |ds|
    ensures ds[i] != ds[j]
  {
    ConsecutiveNumbers(ds, i);
    ConsecutiveNumbers(ds, j);
  }

  /** The year `new Date(year, ...)` uses: JavaScript reads 0..99 as 1900..1999. */
  function JsYear(year: int): int
  {
    if 0 <= year <= 99 then 1900 + year else year
  }

  /**
   * The month `new Date(year, month, 1)` lands in: an out-of-range month carries into the
   * year (floor division), so month -1 is December of the year before.
   */
  function TargetMonth(year: int, month: int): (r: (int, int))
    ensures 0 <= r.1 < 12
  {
    (JsYear(year) + month / 12, month % 12)
  }

  /** `formatDateStr` (frontend/src/utils/date.ts): year, then 1-based month and day, two digits each. */
  function FormatDateStr(d: Date): string
    requires Valid(d)
  {
    IntToString(d.year) + "-" + Pad2(d.month + 1) + "-" + Pad2(d.day)
  }

  /** The printed form: the year, a dash, two month digits, a dash, two day digits. */
  lemma FormatDateStrDigits(d: Date)
    requires Valid(d)
    ensures FormatDateStr(d) == IntToString(d.year) + "-" + [DigitChar((d.month + 1) / 10), DigitChar((d.month + 1) % 10)]
                                + "-" + [DigitChar(d.day / 10), DigitChar(d.day % 10)]
  {
  }

  /** Different valid dates format differently. */
  lemma FormatDateStrInjective(a: Date, b: Date)
    requires Valid(a) && Valid(b)
    requires FormatDateStr(a) == FormatDateStr(b)
    ensures a == b
  {
    FormatDateStrDigits(a);
    FormatDateStrDigits(b);
    var s := FormatDateStr(a);
    var ya, yb := IntToString(a.year), IntToString(b.year);
    assert |ya| == |yb|;
    assert ya == s[..|ya|];
    assert yb == s[..|yb|];
    IntToStringInjective(a.year, b.year);
    assert s[|ya| + 1] == DigitChar((a.month + 1) / 10) == DigitChar((b.month + 1) / 10);
    assert s[|ya| + 2] == DigitChar((a.month + 1) % 10) == DigitChar((b.month + 1) % 10);
    assert s[|ya| + 4] == DigitChar(a.day / 10) == DigitChar(b.day / 10);
    assert s[|ya| + 5] == DigitChar(a.day % 10) == DigitChar(b.day % 10);
  }

  /** Python `str(date)` (ISO format): a four-digit year, then two-digit month and day. */
  function IsoFormat(d: Date): (s: string)
    requires Valid(d) && 1 <= d.year
    ensures d.year <= 9999 ==> |s| == 10 && s[4] == '-' && s[7] == '-'
    ensures d.year <= 9999 ==> s == Digits4(d.year) + "-" + [DigitChar((d.month + 1) / 10), DigitChar((d.month + 1) % 10)]
                                    + "-" + [DigitChar(d.day / 10), DigitChar(d.day % 10)]
  {
    Pad4(d.year) + "-" + Pad2(d.month + 1) + "-" + Pad2(d.day)
  }

  /** Different dates of years 1..9999 have different ISO forms. */
  lemma IsoFormatInjective(a: Date, b: Date)
    requires Valid(a) && Valid(b) && 1 <= a.year <= 9999 && 1 <= b.year <= 9999
    requires IsoFormat(a) == IsoFormat(b)
    ensures a == b
  {
    var s := IsoFormat(a);
    assert Pad4(a.year) == s[..4] == Pad4(b.year);
    Pad4Injective(a.year, b.year);
    assert s[5] == DigitChar((a.month + 1) / 10) == DigitChar((b.month + 1) / 10);
    assert s[6] == DigitChar((a.month + 1) % 10) == DigitChar((b.month + 1) % 10);
    assert s[8] == DigitChar(a.day / 10) == DigitChar(b.day / 10);
    assert s[9] == DigitChar(a.day % 10) == DigitChar(b.day % 10);
  }

  /** For four-digit years, the back end's ISO form and the front end's `formatDateStr` agree. */
  lemma IsoFormatIsFormatDateStr(d: Date)
    requires Valid(d) && 1000 <= d.year <= 9999
    ensures IsoFormat(d) == FormatDateStr(d)
  {
    NatToStringSmall(d.year);
  }

  /** The last date Python's `datetime.date` can represent (`date.max`). */
  const MaxDate := Date(9999, 11, 31)
}
