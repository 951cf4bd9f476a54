/** `calculateNextRunAt` of the payment helpers: how far each interval moves, and how intervals compose. */
module PaymentSchedule {
  import opened Calendar

  /** `Other` is any value outside the enumeration, which takes the source's default branch. */
  datatype Interval = Weekly | Monthly | Quarterly | Yearly | Other

  function NextRunAt(c: Civil, i: Interval): Civil
    requires c.Valid()
  {
    match i
    case Weekly => WithDay(c, c.day + 7)
    case Monthly => WithMonth(c, c.month + 1)
    case Quarterly => WithMonth(c, c.month + 3)
    case Yearly => WithYear(c, c.year + 1)
    case Other => WithDay(c, c.day + 30)
  }

  method AddDays(date: JsDate, days: int) returns (next: JsDate)
    requires date.fields.Valid()
    ensures fresh(next) && next.fields == WithDay(date.fields, date.fields.day + days) && next.fields.Valid()
    ensures next.fields.Day() == date.fields.Day() + days && next.fields.ms == date.fields.ms
  {
    next := new JsDate(date.fields);
    next.SetDate(next.fields.day + days);
  }

  method CalculateNextRunAt(date: JsDate, i: Interval) returns (next: JsDate)
    requires date.fields.Valid()
    ensures fresh(next) && next.fields == NextRunAt(date.fields, i) && next.fields.Valid()
    ensures date.fields == old(date.fields)
  {
    next := new JsDate(date.fields);
    match i
    case Weekly => next := AddDays(next, 7);
    case Monthly => next.SetMonth(next.fields.month + 1);
    case Quarterly => next.SetMonth(next.fields.month + 3);
    case Yearly => next.SetFullYear(next.fields.year + 1);
    case Other => next := AddDays(next, 30);
  }

  /** Three consecutive months have 89 to 92 days. */
  lemma QuarterLength(y: int, m: int)
    requires 0 <= m < 12
    ensures 89 <= MonthLength(y, m) + MonthLength(y, m + 1) + MonthLength(y, m + 2) <= 92
  {
    SplitMonth(m);
    SplitMonth(m + 1);
  }

  lemma ThreeMonths(y: int, m: int, d: int)
    ensures MakeDay(y, m + 3, d) - MakeDay(y, m, d) == MonthLength(y, m) + MonthLength(y, m + 1) + MonthLength(y, m + 2)
  {
    MonthStep(y, m, d);
    MonthStep(y, m + 1, d);
    MonthStep(y, m + 2, d);
  }

  lemma QuarterStep(y: int, m: int, d: int)
    requires 0 <= m < 12
    ensures 89 <= MakeDay(y, m + 3, d) - MakeDay(y, m, d) <= 92
  {
    ThreeMonths(y, m, d);
    QuarterLength(y, m);
  }

  ghost predicate Advances(i: Interval, c: Civil, days: int)
    requires c.Valid()
  {
    match i
    case Weekly => days == 7
    case Monthly => days == DaysInMonth(c.year, c.month)
    case Quarterly => 89 <= days <= 92
    case Yearly => days == DaysInYear(if c.month < 2 then c.year else c.year + 1)
    case Other => days == 30
  }

  /** A jump of `k` months moves a date as far as its month numbers are apart. */
  lemma JumpAdvances(c: Civil, k: int, least: int, most: int)
    requires c.Valid()
    requires least <= MakeDay(c.year, c.month + k, c.day) - MakeDay(c.year, c.month, c.day) <= most
    ensures WithMonth(c, c.month + k).Valid() && WithMonth(c, c.month + k).ms == c.ms
    ensures least <= WithMonth(c, c.month + k).Day() - c.Day() <= most
  {
    JumpMoves(c, k);
  }

  lemma MonthlyIsMonthAfter(c: Civil)
    requires c.Valid()
    ensures NextRunAt(c, Monthly) == Normalize(YearOfMonthAfter(c.year, c.month), MonthAfter(c.month), c.day, c.ms)
  {
  }

  lemma MonthAdvances(c: Civil)
    requires c.Valid()
    ensures NextRunAt(c, Monthly).Valid() && NextRunAt(c, Monthly).ms == c.ms
    ensures NextRunAt(c, Monthly).Day() - c.Day() == DaysInMonth(c.year, c.month)
  {
    MonthlyIsMonthAfter(c);
    NormalizeKeepsDay(YearOfMonthAfter(c.year, c.month), MonthAfter(c.month), c.day, c.ms);
    CountFromMonthAfter(c.year, c.month, c.day + DaysInMonth(c.year, c.month));
  }

  lemma QuarterAdvances(c: Civil)
    requires c.Valid()
    ensures NextRunAt(c, Quarterly).Valid() && NextRunAt(c, Quarterly).ms == c.ms
    ensures 89 <= NextRunAt(c, Quarterly).Day() - c.Day() <= 92
  {
    QuarterStep(c.year, c.month, c.day);
    JumpAdvances(c, 3, 89, 92);
  }

  lemma YearAdvances(c: Civil)
    requires c.Valid()
    ensures NextRunAt(c, Yearly).Valid() && NextRunAt(c, Yearly).ms == c.ms
    ensures NextRunAt(c, Yearly).Day() - c.Day() == DaysInYear(if c.month < 2 then c.year else c.year + 1)
  {
    NormalizeKeepsDay(c.year + 1, c.month, c.day, c.ms);
    YearStep(c.year, c.month, c.day);
  }

  /**
   The next run is later at the same time of day: by 7 days, by the length of the month it leaves,
   by 89 to 92 days, by the length of a year (365 or 366 days) or, by default, by 30 days.
   */
  lemma NextRunAdvances(c: Civil, i: Interval)
    requires c.Valid()
    ensures NextRunAt(c, i).Valid() && NextRunAt(c, i).ms == c.ms
    ensures Advances(i, c, NextRunAt(c, i).Day() - c.Day())
  {
    match i
    case Weekly => NormalizeKeepsDay(c.year, c.month, c.day + 7, c.ms);
    case Other => NormalizeKeepsDay(c.year, c.month, c.day + 30, c.ms);
    case Monthly => MonthAdvances(c);
    case Quarterly => QuarterAdvances(c);
    case Yearly => YearAdvances(c);
  }

  // ---- Composing monthly steps ----------------------------------------------------------

  /** `n` monthly runs one after the other. */
  function MonthlyRuns(c: Civil, n: nat): (r: Civil)
    requires c.Valid()
    ensures r.Valid()
  {
    if n == 0 then c
    else
      var before := MonthlyRuns(c, n - 1);
      WithMonthIsMakeDay(before, before.month + 1);
      NextRunAt(before, Monthly)
  }

  /** The first of the months 1, 2, ... too short for the day of the month, or `n` if there is none before. */
  function FirstTooShort(c: Civil, k: nat, n: nat): (r: nat)
    requires k <= n
    ensures k <= r <= n
    ensures forall j :: k <= j < r ==> c.day <= LengthAfter(c, j)
    ensures r < n ==> c.day > LengthAfter(c, r)
    decreases n - k
  {
    if k == n || c.day > LengthAfter(c, k) then k else FirstTooShort(c, k + 1, n)
  }

  /** The next monthly run after one that is in month `k`: in the month after, or past it when that is too short. */
  lemma OneMoreRun(c: Civil, n: nat, k: int, d: int)
    requires c.Valid() && IsInMonth(MonthlyRuns(c, n), c, k, d)
    ensures d <= LengthAfter(c, k + 1) ==> IsInMonth(MonthlyRuns(c, n + 1), c, k + 1, d)
    ensures d > LengthAfter(c, k + 1) ==> IsInMonth(MonthlyRuns(c, n + 1), c, k + 2, d - LengthAfter(c, k + 1))
  {
    var r := MonthlyRuns(c, n);
    JumpFrom(r, c, k, d, 1);
    assert MonthlyRuns(c, n + 1) == WithMonth(r, r.month + 1);
  }

  /** While every month on the way is long enough, monthly runs keep the day of the month. */
  lemma {:induction false} RunsKeepDay(c: Civil, n: nat)
    requires c.Valid() && forall j :: 1 <= j <= n ==> c.day <= LengthAfter(c, j)
    ensures IsInMonth(MonthlyRuns(c, n), c, n, c.day)
  {
    if n > 0 {
      RunsKeepDay(c, n - 1);
      OneMoreRun(c, n - 1, n - 1, c.day);
    }
  }

  lemma RunsOverflow(c: Civil, f: nat)
    requires c.Valid() && 1 <= f && c.day > LengthAfter(c, f)
    requires forall j :: 1 <= j < f ==> c.day <= LengthAfter(c, j)
    ensures IsInMonth(MonthlyRuns(c, f), c, f + 1, c.day - LengthAfter(c, f))
  {
    RunsKeepDay(c, f - 1);
    OneMoreRun(c, f - 1, f - 1, c.day);
  }

  /** After a month that is too short the runs stay one month late, on one of the first three days. */
  lemma {:induction false} RunsAfterOverflow(c: Civil, f: nat, n: nat)
    requires c.Valid() && 1 <= f <= n && c.day > LengthAfter(c, f)
    requires forall j :: 1 <= j < f ==> c.day <= LengthAfter(c, j)
    ensures IsInMonth(MonthlyRuns(c, n), c, n + 1, c.day - LengthAfter(c, f))
  {
    if n == f {
      RunsOverflow(c, f);
    } else {
      RunsAfterOverflow(c, f, n - 1);
      OneMoreRun(c, n - 1, n, c.day - LengthAfter(c, f));
    }
  }

  lemma OverflowingRunsEqualJumpIff(c: Civil, f: nat, n: nat)
    requires c.Valid() && 1 <= f < n && c.day > LengthAfter(c, f)
    requires forall j :: 1 <= j < f ==> c.day <= LengthAfter(c, j)
    ensures MonthlyRuns(c, n) == WithMonth(c, c.month + n) <==> LengthAfter(c, f) == LengthAfter(c, n)
  {
    RunsAfterOverflow(c, f, n);
    JumpLands(c, n);
    MonthsDiffer(c, n);
  }

  lemma RunsReachLastMonth(c: Civil, n: nat)
    requires c.Valid() && n >= 1 && forall j :: 1 <= j < n ==> c.day <= LengthAfter(c, j)
    ensures MonthlyRuns(c, n) == WithMonth(c, c.month + n)
  {
    if c.day > LengthAfter(c, n) {
      RunsAfterOverflow(c, n, n);
      JumpLands(c, n);
    } else {
      RunsKeepDay(c, n);
      JumpLands(c, n);
    }
  }

  /**
   `n` monthly runs equal one jump of `n` months if and only if the first month on the way that
   is too short for the day (if any) is as long as the last month.
   */
  lemma RunsEqualJumpIff(c: Civil, n: nat)
    requires c.Valid() && n >= 1
    ensures MonthlyRuns(c, n) == WithMonth(c, c.month + n)
            <==> var f := FirstTooShort(c, 1, n);
                 f == n || LengthAfter(c, f) == LengthAfter(c, n)
  {
    var f := FirstTooShort(c, 1, n);
    if f < n {
      OverflowingRunsEqualJumpIff(c, f, n);
    } else {
      RunsReachLastMonth(c, n);
    }
  }

  lemma YearIsTwelveMonths(c: Civil)
    requires c.Valid()
    ensures NextRunAt(c, Yearly) == WithMonth(c, c.month + 12)
  {
  }

  function MonthsIn(i: Interval): nat
    requires i.Quarterly? || i.Yearly?
  {
    if i.Quarterly? then 3 else 12
  }

  /** For a day of the month up to 28 no month is too short. */
  lemma {:induction false} NoneTooShort(c: Civil, k: nat, n: nat)
    requires k <= n && c.day <= 28
    ensures FirstTooShort(c, k, n) == n
    decreases n - k
  {
    if k < n {
      NoneTooShort(c, k + 1, n);
    }
  }

  /** For a day of the month up to 28, three MONTHLY runs are one QUARTERLY and twelve are one YEARLY. */
  lemma IntervalsCompose(c: Civil, i: Interval)
    requires c.Valid() && c.day <= 28 && (i.Quarterly? || i.Yearly?)
    ensures MonthlyRuns(c, MonthsIn(i)) == NextRunAt(c, i)
  {
    var n := MonthsIn(i);
    NoneTooShort(c, 1, n);
    RunsEqualJumpIff(c, n);
    YearIsTwelveMonths(c);
  }

  /** The last days of a month break it: from 31 January, three monthly runs end on 3 May, a quarter on 1 May. */
  lemma JanuaryThirtyFirst(ms: int)
    requires 0 <= ms < DAY_MS
    ensures var c := Civil(2023, 0, 31, ms);
            c.Valid() && MonthlyRuns(c, 3) == Civil(2023, 4, 3, ms) && NextRunAt(c, Quarterly) == Civil(2023, 4, 1, ms)
  {
    var c := Civil(2023, 0, 31, ms);
    RunsAfterOverflow(c, 1, 3);
    JumpLands(c, 3);
  }
}
