/** `renew` of the agreements service: month arithmetic on the end of a lease. */
module LeaseRenewal {
  import opened RentContract
  import opened Wrappers
  import opened Calendar

  const DEFAULT_EXTENSION := 12

  datatype RenewalError = RenewalRefused | RenewalOptionNotSet

  function ExtensionMonths(extendMonths: Option<int>): int {
    match extendMonths
    case Some(months) => months
    case None => DEFAULT_EXTENSION
  }

  /** The date the extension is counted from. */
  function Base(endDate: Option<Civil>, now: Civil): Civil {
    match endDate
    case Some(end) => end
    case None => now
  }

  // ---- How far an extension reaches -----------------------------------------------------

  lemma {:induction false} MonthsAhead(y: int, m: int, d: int, k: nat)
    ensures 28 * k <= MakeDay(y, m + k, d) - MakeDay(y, m, d) <= 31 * k
  {
    if k > 0 {
      MonthsAhead(y, m, d, k - 1);
      MonthStep(y, m + k - 1, d);
    }
  }

  /** An extension by `k` months moves the end of the lease by 28k to 31k days, at the same time of day. */
  lemma ExtensionReaches(c: Civil, k: nat)
    requires c.Valid()
    ensures WithMonth(c, c.month + k).Valid() && WithMonth(c, c.month + k).ms == c.ms
    ensures 28 * k <= WithMonth(c, c.month + k).Day() - c.Day() <= 31 * k
  {
    JumpMoves(c, k);
    MonthsAhead(c.year, c.month, c.day, k);
  }

  lemma TwelveMonthsIsAYear(c: Civil)
    requires c.Valid()
    ensures WithMonth(c, c.month + DEFAULT_EXTENSION) == WithYear(c, c.year + 1)
  {
  }

  /** The default extension moves the end by the length of one year. */
  lemma DefaultExtensionIsAYear(c: Civil)
    requires c.Valid()
    ensures WithMonth(c, c.month + ExtensionMonths(None)).Valid()
    ensures WithMonth(c, c.month + ExtensionMonths(None)).Day() - c.Day()
            == DaysInYear(if c.month < 2 then c.year else c.year + 1)
  {
    TwelveMonthsIsAYear(c);
    NormalizeKeepsDay(c.year + 1, c.month, c.day, c.ms);
    YearStep(c.year, c.month, c.day);
  }

  lemma JumpsFromOneMonthAgree(r: Civil, c: Civil, j: nat, k: nat)
    requires c.Valid() && IsInMonth(r, c, j, c.day)
    ensures WithMonth(r, r.month + k) == WithMonth(c, c.month + (j + k))
  {
    JumpIsNormalize(r, c.year, c.month + j, k);
    JumpIsNormalize(c, c.year, c.month, j + k);
  }

  lemma SecondJumpAfterFit(c: Civil, j: nat, k: nat)
    requires c.Valid() && c.day <= LengthAfter(c, j)
    ensures var r := WithMonth(c, c.month + j);
            WithMonth(r, r.month + k) == WithMonth(c, c.month + (j + k))
  {
    JumpLands(c, j);
    JumpsFromOneMonthAgree(WithMonth(c, c.month + j), c, j, k);
  }

  lemma SecondJumpAfterOverflow(c: Civil, j: nat, k: nat)
    requires c.Valid() && c.day > LengthAfter(c, j)
    ensures var r := WithMonth(c, c.month + j);
            IsInMonth(WithMonth(r, r.month + k), c, j + k + 1, c.day - LengthAfter(c, j))
  {
    JumpLands(c, j);
    JumpFrom(WithMonth(c, c.month + j), c, j + 1, c.day - LengthAfter(c, j), k);
  }

  /**
   Renewing by `j` and then by `k` months ends on the same day as renewing once by `j + k` if and only if
   the day of the month fits in the month between, or that month is as long as the last one.
   */
  lemma RenewalsComposeIff(c: Civil, j: nat, k: nat)
    requires c.Valid()
    ensures var r := WithMonth(c, c.month + j);
            WithMonth(r, r.month + k) == WithMonth(c, c.month + (j + k))
            <==> c.day <= LengthAfter(c, j) || LengthAfter(c, j) == LengthAfter(c, j + k)
  {
    if c.day <= LengthAfter(c, j) {
      SecondJumpAfterFit(c, j, k);
    } else {
      SecondJumpAfterOverflow(c, j, k);
      JumpLands(c, j + k);
      MonthsDiffer(c, j + k);
    }
  }

  /** How far the end is moved, by the months asked for or by default. */
  ghost predicate Moved(from: Civil, end: Civil, extendMonths: Option<int>)
    requires from.Valid() && end.Valid()
  {
    match extendMonths
    case Some(k) => k >= 0 ==> 28 * k <= end.Day() - from.Day() <= 31 * k
    case None => end.Day() - from.Day() == DaysInYear(if from.month < 2 then from.year else from.year + 1)
  }

  lemma ExtensionMoves(c: Civil, extendMonths: Option<int>)
    requires c.Valid()
    ensures WithMonth(c, c.month + ExtensionMonths(extendMonths)).Valid()
    ensures Moved(c, WithMonth(c, c.month + ExtensionMonths(extendMonths)), extendMonths)
  {
    match extendMonths
    case Some(k) =>
      if k >= 0 {
        ExtensionReaches(c, k);
      } else {
        WithMonthIsMakeDay(c, c.month + k);
      }
    case None => DefaultExtensionIsAYear(c);
  }

  // ---- The agreement ---------------------------------------------------------------------

  /** A copy of the date with its month set `months` later. */
  method ExtendedBy(from: Civil, months: int) returns (end: Civil)
    requires from.Valid()
    ensures end == WithMonth(from, from.month + months) && end.Valid() && end.ms == from.ms
    ensures end.Day() == MakeDay(from.year, from.month + months, from.day)
  {
    var date := new JsDate(from);
    date.SetMonth(date.fields.month + months);
    end := date.fields;
  }

  class Agreement {
    var status: AgreementStatus
    const renewalOption: Option<bool>
    var endDate: Option<Civil>

    constructor (status: AgreementStatus, renewalOption: Option<bool>, endDate: Option<Civil>)
      ensures this.status == status && this.renewalOption == renewalOption && this.endDate == endDate
    {
      this.status, this.renewalOption, this.endDate := status, renewalOption, endDate;
    }

    /** Extends the lease, and only if renewal is allowed; the new end is MakeDay of the old end, `months` later. */
    method Renew(extendMonths: Option<int>, now: Civil) returns (r: Result<(), RenewalError>)
      requires Base(endDate, now).Valid()
      modifies this
      ensures r.Ok? <==> renewalOption == Some(true)
      ensures r.Err? ==> r.error == if renewalOption == Some(false) then RenewalRefused else RenewalOptionNotSet
      ensures r.Err? ==> endDate == old(endDate) && status == old(status)
      ensures r.Ok? ==> status == if old(status).Expired? then Active else old(status)
      ensures r.Ok?
              ==> var from := Base(old(endDate), now);
                  && endDate.Some? && endDate.value.Valid() && endDate.value.ms == from.ms
                  && endDate.value == WithMonth(from, from.month + ExtensionMonths(extendMonths))
                  && endDate.value.Day() == MakeDay(from.year, from.month + ExtensionMonths(extendMonths), from.day)
      ensures r.Ok? ==> Moved(if old(endDate).Some? then old(endDate).value else now, endDate.value, extendMonths)
    {
      if renewalOption != Some(true) {
        return Err(if renewalOption == Some(false) then RenewalRefused else RenewalOptionNotSet);
      }
      var months := ExtensionMonths(extendMonths);
      var from := Base(endDate, now);
      var newEnd := ExtendedBy(from, months);
      ExtensionMoves(from, extendMonths);
      endDate := Some(newEnd);
      if status == Expired || status == Active {
        status := Active;
      }
      r := Ok(());
    }
  }
}
