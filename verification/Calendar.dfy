/**
 Local calendar time at a fixed offset, as the JavaScript Date setters compute it: MakeDay with
 overflowing month and day (section 21.4.1 of ECMA-262).
 */
module Calendar {

  const DAY_MS := 86_400_000

  predicate Leap(y: int) {
    y % 4 == 0 && (y % 100 != 0 || y % 400 == 0)
  }

  function DaysInYear(y: int): int {
    if Leap(y) then 366 else 365
  }

  /** The day number of 1 January, counted from 1 January 1970. */
  function DayFromYear(y: int): int
    decreases if y >= 1970 then y - 1970 else 1970 - y
  {
    if y == 1970 then 0
    else if y > 1970 then DayFromYear(y - 1) + DaysInYear(y - 1)
    else DayFromYear(y + 1) - DaysInYear(y)
  }

  function DaysInMonth(y: int, m: int): (r: int)
    requires 0 <= m < 12
    ensures 28 <= r <= 31
  {
    if m == 1 then (if Leap(y) then 29 else 28)
    else if m == 3 || m == 5 || m == 8 || m == 10 then 30
    else 31
  }

  /** Days of the year before month `m`. */
  function DaysBefore(y: int, m: int): (r: int)
    requires 0 <= m <= 12
    ensures 0 <= r <= 31 * m
  {
    if m == 0 then 0 else DaysBefore(y, m - 1) + DaysInMonth(y, m - 1)
  }

  function DayNumber(y: int, m: int, d: int): int
    requires 0 <= m < 12
  {
    DayFromYear(y) + DaysBefore(y, m) + d - 1
  }

  /** MakeDay: `m` and `d` may lie outside the year and the month. */
  function MakeDay(y: int, m: int, d: int): int {
    DayNumber(y + m / 12, m % 12, d)
  }

  /** The length of the month that MakeDay finds for month number `m` of year `y`. */
  function MonthLength(y: int, m: int): (r: int)
    ensures 28 <= r <= 31
  {
    DaysInMonth(y + m / 12, m % 12)
  }

  datatype Civil = Civil(year: int, month: int, day: int, ms: int) {
    predicate Valid() {
      0 <= month < 12 && 1 <= day <= DaysInMonth(year, month) && 0 <= ms < DAY_MS
    }

    function Day(): int
      requires Valid()
    {
      DayNumber(year, month, day)
    }
  }

  function YearOfMonthBefore(y: int, m: int): int {
    if m == 0 then y - 1 else y
  }

  function YearOfMonthAfter(y: int, m: int): int {
    if m == 11 then y + 1 else y
  }

  function MonthBefore(m: int): (r: int)
    requires 0 <= m < 12
    ensures 0 <= r < 12
  {
    if m == 0 then 11 else m - 1
  }

  function MonthAfter(m: int): (r: int)
    requires 0 <= m < 12
    ensures 0 <= r < 12
  {
    if m == 11 then 0 else m + 1
  }

  /** The calendar date of month `m` and day `d` of year `y`, overflow carried into other months. */
  function Normalize(y: int, m: int, d: int, ms: int): Civil
    requires 0 <= m < 12
    decreases d < 1, if d < 1 then -d else d
  {
    if d < 1 then
      var y', m' := YearOfMonthBefore(y, m), MonthBefore(m);
      Normalize(y', m', d + DaysInMonth(y', m'), ms)
    else if d > DaysInMonth(y, m) then
      Normalize(YearOfMonthAfter(y, m), MonthAfter(m), d - DaysInMonth(y, m), ms)
    else Civil(y, m, d, ms)
  }

  function WithMonth(c: Civil, m: int): Civil {
    Normalize(c.year + m / 12, m % 12, c.day, c.ms)
  }

  function WithDay(c: Civil, d: int): Civil
    requires c.Valid()
  {
    Normalize(c.year, c.month, d, c.ms)
  }

  function WithYear(c: Civil, y: int): Civil
    requires c.Valid()
  {
    Normalize(y, c.month, c.day, c.ms)
  }

  // ---- The day count --------------------------------------------------------------------

  /** Month numbers one apart, as a year and a month. */
  lemma SplitMonth(m: int)
    ensures m % 12 < 11 ==> (m + 1) / 12 == m / 12 && (m + 1) % 12 == m % 12 + 1
    ensures m % 12 == 11 ==> (m + 1) / 12 == m / 12 + 1 && (m + 1) % 12 == 0
  {
  }

  lemma MonthByMonth(y: int, m: int)
    requires 0 <= m < 12
    ensures DaysBefore(y, m + 1) == DaysBefore(y, m) + DaysInMonth(y, m)
  {
  }

  lemma QuarterTotal(y: int, m: int)
    requires 0 <= m <= 9
    ensures DaysBefore(y, m + 3) == DaysBefore(y, m) + DaysInMonth(y, m) + DaysInMonth(y, m + 1) + DaysInMonth(y, m + 2)
  {
    MonthByMonth(y, m);
    MonthByMonth(y, m + 1);
    MonthByMonth(y, m + 2);
  }

  lemma YearTotal(y: int)
    ensures DaysBefore(y, 12) == DaysInYear(y)
  {
    QuarterTotal(y, 0);
    QuarterTotal(y, 3);
    QuarterTotal(y, 6);
    QuarterTotal(y, 9);
  }

  /**
   The days before each month of a common year, as section 21.4.1 of ECMA-262 lists them, and one more after a
   29 February.
   */
  lemma {:induction false} MonthTable(y: int, m: int)
    requires 0 <= m <= 12
    ensures DaysBefore(y, m)
            == [0, 31, 59, 90, 120, 151, 181, 212, 243, 273, 304, 334, 365][m] + if m >= 2 && Leap(y) then 1 else 0
  {
    if m > 0 {
      MonthTable(y, m - 1);
      MonthByMonth(y, m - 1);
    }
  }

  lemma YearLength(y: int)
    ensures DayFromYear(y + 1) == DayFromYear(y) + DaysInYear(y)
    ensures DaysInYear(y) == DaysBefore(y, 12)
  {
    YearTotal(y);
  }

  lemma FourthYears(y: int)
    ensures (y - 1968) / 4 == (y - 1969) / 4 + if y % 4 == 0 then 1 else 0
  {
  }

  lemma HundredthYears(y: int)
    ensures (y - 1900) / 100 == (y - 1901) / 100 + if y % 100 == 0 then 1 else 0
  {
  }

  lemma FourHundredthYears(y: int)
    ensures (y - 1600) / 400 == (y - 1601) / 400 + if y % 400 == 0 then 1 else 0
  {
  }

  lemma FourthCenturyIsCentury(y: int)
    ensures y % 400 == 0 ==> y % 100 == 0
  {
  }

  lemma CenturyIsFourthYear(y: int)
    ensures y % 100 == 0 ==> y % 4 == 0
  {
  }

  /** DayFromYear of section 21.4.1 of ECMA-262 in closed form. */
  lemma {:induction false} DayFromYearFormula(y: int)
    ensures DayFromYear(y) == 365 * (y - 1970) + (y - 1969) / 4 - (y - 1901) / 100 + (y - 1601) / 400
    decreases if y >= 1970 then y - 1970 else 1970 - y
  {
    if y > 1970 {
      DayFromYearFormula(y - 1);
      LeapYears(y - 1);
    } else if y < 1970 {
      DayFromYearFormula(y + 1);
      LeapYears(y);
    }
  }

  lemma LeapYears(y: int)
    ensures (y - 1968) / 4 - (y - 1900) / 100 + (y - 1600) / 400
            == (y - 1969) / 4 - (y - 1901) / 100 + (y - 1601) / 400 + if Leap(y) then 1 else 0
  {
    FourthYears(y);
    HundredthYears(y);
    FourHundredthYears(y);
    CenturyIsFourthYear(y);
    FourthCenturyIsCentury(y);
  }

  /** One month later is as many days later as the month has. */
  lemma MonthStep(y: int, m: int, d: int)
    ensures MakeDay(y, m + 1, d) == MakeDay(y, m, d) + MonthLength(y, m)
  {
    SplitMonth(m);
    YearLength(y + m / 12);
  }

  lemma WithinYear(y: int, m: int, d: int)
    requires 0 <= m < 12
    ensures MakeDay(y, m, d) == DayNumber(y, m, d) && MonthLength(y, m) == DaysInMonth(y, m)
  {
  }

  /** The same day, counted from the month after. */
  lemma CountFromMonthAfter(y: int, m: int, d: int)
    requires 0 <= m < 12
    ensures DayNumber(YearOfMonthAfter(y, m), MonthAfter(m), d - DaysInMonth(y, m)) == DayNumber(y, m, d)
  {
    YearLength(y);
  }

  /** The setters land on a valid date, on the day that the overflowing month and day name. */
  lemma {:induction false} NormalizeKeepsDay(y: int, m: int, d: int, ms: int)
    requires 0 <= m < 12 && 0 <= ms < DAY_MS
    ensures Normalize(y, m, d, ms).Valid() && Normalize(y, m, d, ms).Day() == DayNumber(y, m, d)
    ensures Normalize(y, m, d, ms).ms == ms
    decreases d < 1, if d < 1 then -d else d
  {
    if d < 1 {
      var y', m' := YearOfMonthBefore(y, m), MonthBefore(m);
      CountFromMonthAfter(y', m', d + DaysInMonth(y', m'));
      NormalizeKeepsDay(y', m', d + DaysInMonth(y', m'), ms);
    } else if d > DaysInMonth(y, m) {
      CountFromMonthAfter(y, m, d);
      NormalizeKeepsDay(YearOfMonthAfter(y, m), MonthAfter(m), d - DaysInMonth(y, m), ms);
    }
  }

  lemma {:induction false} YearsGrow(y: int, z: int)
    requires y < z
    ensures DayFromYear(y + 1) <= DayFromYear(z)
    decreases z - y
  {
    if y + 1 < z {
      YearsGrow(y, z - 1);
      YearLength(z - 1);
    }
  }

  lemma {:induction false} MonthsGrow(y: int, m: int, n: int)
    requires 0 <= m < n <= 12
    ensures DaysBefore(y, m) + DaysInMonth(y, m) <= DaysBefore(y, n)
    decreases n - m
  {
    if m + 1 < n {
      MonthsGrow(y, m, n - 1);
    } else {
    }
  }

  lemma DayWithinYear(c: Civil)
    requires c.Valid()
    ensures DayFromYear(c.year) <= c.Day() < DayFromYear(c.year + 1)
  {
    MonthsGrow(c.year, c.month, 12);
    YearLength(c.year);
  }

  lemma EarlierYear(a: Civil, b: Civil)
    requires a.Valid() && b.Valid() && a.year < b.year
    ensures a.Day() < b.Day()
  {
    DayWithinYear(a);
    DayWithinYear(b);
    YearsGrow(a.year, b.year);
  }

  lemma EarlierMonth(a: Civil, b: Civil)
    requires a.Valid() && b.Valid() && a.year == b.year && a.month < b.month
    ensures a.Day() < b.Day()
  {
    DayWithinYear(a);
    DayWithinYear(b);
    MonthsGrow(a.year, a.month, b.month);
  }

  /** A day number and a time of day belong to one calendar date only, so the setters' results are determined. */
  lemma CivilIsUnique(a: Civil, b: Civil)
    requires a.Valid() && b.Valid() && a.Day() == b.Day() && a.ms == b.ms
    ensures a == b
  {
    if a.year < b.year {
      EarlierYear(a, b);
    } else if b.year < a.year {
      EarlierYear(b, a);
    } else if a.month < b.month {
      EarlierMonth(a, b);
    } else if b.month < a.month {
      EarlierMonth(b, a);
    }
  }

  lemma WithMonthIsMakeDay(c: Civil, m: int)
    requires c.Valid()
    ensures WithMonth(c, m).Valid() && WithMonth(c, m).Day() == MakeDay(c.year, m, c.day) && WithMonth(c, m).ms == c.ms
  {
    NormalizeKeepsDay(c.year + m / 12, m % 12, c.day, c.ms);
  }

  /** `setMonth` moves a date by as many days as MakeDay moves between the two month numbers. */
  lemma JumpMoves(c: Civil, k: int)
    requires c.Valid()
    ensures WithMonth(c, c.month + k).Valid() && WithMonth(c, c.month + k).ms == c.ms
    ensures WithMonth(c, c.month + k).Day() - c.Day() == MakeDay(c.year, c.month + k, c.day) - MakeDay(c.year,
            c.month, c.day)
  {
    WithMonthIsMakeDay(c, c.month + k);
    WithinYear(c.year, c.month, c.day);
  }

  lemma {:induction false} SameMonthNextYear(y: int, m: int)
    requires 0 <= m <= 12
    ensures DaysBefore(y + 1, m) - DaysBefore(y, m) == if m < 2 then 0 else DaysInYear(y + 1) - DaysInYear(y)
  {
    if m > 0 {
      SameMonthNextYear(y, m - 1);
    }
  }

  /** The same date a year later is one year's length later, the year with the 29 February passed on the way. */
  lemma YearStep(y: int, m: int, d: int)
    requires 0 <= m < 12
    ensures DayNumber(y + 1, m, d) - DayNumber(y, m, d) == DaysInYear(if m < 2 then y else y + 1)
  {
    YearLength(y);
    SameMonthNextYear(y, m);
  }

  // ---- Jumps of whole months ------------------------------------------------------------

  /** The length of the month `k` months after the date's own. */
  function LengthAfter(c: Civil, k: int): int {
    MonthLength(c.year, c.month + k)
  }

  /** The date with day `d` in the month `k` months after the month of `c`. */
  ghost predicate IsInMonth(r: Civil, c: Civil, k: int, d: int) {
    r == Civil(c.year + (c.month + k) / 12, (c.month + k) % 12, d, c.ms)
  }

  /** A day of the month that fits stays; one that does not moves into the month after. */
  lemma NormalizeOnce(y: int, m: int, d: int, ms: int)
    requires 1 <= d <= 31
    ensures d <= MonthLength(y, m) ==> Normalize(y + m / 12, m % 12, d, ms) == Civil(y + m / 12, m % 12, d, ms)
    ensures d > MonthLength(y, m)
            ==> Normalize(y + m / 12, m % 12, d, ms) == Civil(y + (m + 1) / 12, (m + 1) % 12, d - MonthLength(y, m), ms)
  {
    SplitMonth(m);
  }

  lemma SplitSum(m: int, k: int)
    ensures m / 12 + (m % 12 + k) / 12 == (m + k) / 12 && (m % 12 + k) % 12 == (m + k) % 12
  {
  }

  lemma JumpIsNormalize(r: Civil, y: int, m: int, k: int)
    requires r.year == y + m / 12 && r.month == m % 12
    ensures WithMonth(r, r.month + k) == Normalize(y + (m + k) / 12, (m + k) % 12, r.day, r.ms)
  {
    SplitSum(m, k);
  }

  /** A jump of `k` months from day `d` of month `j` after `c`: it keeps the day, or overflows into the month after. */
  lemma JumpFrom(r: Civil, c: Civil, j: int, d: int, k: int)
    requires c.Valid() && IsInMonth(r, c, j, d) && 1 <= d <= 31
    ensures d <= LengthAfter(c, j + k) ==> IsInMonth(WithMonth(r, r.month + k), c, j + k, d)
    ensures d > LengthAfter(c, j + k)
            ==> IsInMonth(WithMonth(r, r.month + k), c, j + k + 1, d - LengthAfter(c, j + k))
  {
    var m := c.month + j;
    JumpIsNormalize(r, c.year, m, k);
    NormalizeOnce(c.year, m + k, d, c.ms);
  }

  /** A jump of `k` months from a date itself. */
  lemma JumpLands(c: Civil, k: int)
    requires c.Valid()
    ensures c.day <= LengthAfter(c, k) ==> IsInMonth(WithMonth(c, c.month + k), c, k, c.day)
    ensures c.day > LengthAfter(c, k) ==> IsInMonth(WithMonth(c, c.month + k), c, k + 1, c.day - LengthAfter(c, k))
  {
    JumpFrom(c, c, 0, c.day, k);
  }

  lemma MonthsDiffer(c: Civil, n: int)
    requires c.Valid()
    ensures (c.month + n) % 12 != (c.month + n + 1) % 12
  {
    SplitMonth(c.month + n);
  }

  /** A Date object holding local fields; its setters overflow like MakeDay. */
  class JsDate {
    var fields: Civil

    constructor (fields: Civil)
      requires fields.Valid()
      ensures this.fields == fields
    {
      this.fields := fields;
    }

    method SetMonth(m: int)
      requires fields.Valid()
      modifies this
      ensures fields == WithMonth(old(fields), m) && fields.Valid()
      ensures fields.Day() == MakeDay(old(fields).year, m, old(fields).day) && fields.ms == old(fields).ms
    {
      WithMonthIsMakeDay(fields, m);
      fields := WithMonth(fields, m);
    }

    method SetDate(d: int)
      requires fields.Valid()
      modifies this
      ensures fields == WithDay(old(fields), d) && fields.Valid()
      ensures fields.Day() == DayNumber(old(fields).year, old(fields).month, d) && fields.ms == old(fields).ms
    {
      NormalizeKeepsDay(fields.year, fields.month, d, fields.ms);
      fields := WithDay(fields, d);
    }

    method SetFullYear(y: int)
      requires fields.Valid()
      modifies this
      ensures fields == WithYear(old(fields), y) && fields.Valid()
      ensures fields.Day() == DayNumber(y, old(fields).month, old(fields).day) && fields.ms == old(fields).ms
    {
      NormalizeKeepsDay(y, fields.month, fields.day, fields.ms);
      fields := WithYear(fields, y);
    }
  }
}
