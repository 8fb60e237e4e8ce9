/** Civil dates and local times: a date plus the second of the day. */
module Calendar {

  datatype Date = Date(year: int, month: int, day: int)

  datatype Moment = Moment(date: Date, second: int)

  predicate Leap(year: int) {
    year % 4 == 0 && (year % 100 != 0 || year % 400 == 0)
  }

  /** `calendar.monthrange(year, month)[1]`. */
  function DaysIn(year: int, month: int): int {
    if month == 2 then (if Leap(year) then 29 else 28)
    else if month in {4, 6, 9, 11} then 30
    else 31
  }

  predicate ValidDate(d: Date) {
    1 <= d.month <= 12 && 1 <= d.day <= DaysIn(d.year, d.month)
  }

  predicate ValidMoment(t: Moment) {
    ValidDate(t.date) && 0 <= t.second < 86400
  }

  predicate DateLt(a: Date, b: Date) {
    a.year < b.year || (a.year == b.year && (a.month < b.month || (a.month == b.month && a.day < b.day)))
  }

  predicate DateLe(a: Date, b: Date) {
    a == b || DateLt(a, b)
  }

  predicate MomentLe(a: Moment, b: Moment) {
    DateLt(a.date, b.date) || (a.date == b.date && a.second <= b.second)
  }

  function Midnight(d: Date): Moment {
    Moment(d, 0)
  }

  /** The date plus `timedelta(days=1)`. */
  function NextDay(d: Date): (n: Date)
    requires ValidDate(d)
    ensures ValidDate(n) && DateLt(d, n)
  {
    if d.day < DaysIn(d.year, d.month) then d.(day := d.day + 1)
    else if d.month < 12 then Date(d.year, d.month + 1, 1)
    else Date(d.year + 1, 1, 1)
  }

  /** No date lies strictly between a day and its successor. */
  lemma NextDayIsNext(d: Date, e: Date)
    requires ValidDate(d) && ValidDate(e) && DateLt(d, e)
    ensures DateLe(NextDay(d), e)
  {}

  /** The date plus `timedelta(days=n)`. */
  function AddDays(d: Date, n: nat): (r: Date)
    requires ValidDate(d)
    ensures ValidDate(r) && DateLe(d, r) && (n > 0 ==> DateLt(d, r))
  {
    if n == 0 then d else NextDay(AddDays(d, n - 1))
  }

  lemma {:induction false} AddDaysAdds(d: Date, m: nat, n: nat)
    requires ValidDate(d)
    ensures AddDays(AddDays(d, m), n) == AddDays(d, m + n)
  {
    if n > 0 {
      AddDaysAdds(d, m, n - 1);
    }
  }

  lemma {:induction false} AddDaysMonotone(d: Date, e: Date, n: nat)
    requires ValidDate(d) && ValidDate(e) && DateLe(d, e)
    ensures DateLe(AddDays(d, n), AddDays(e, n))
  {
    if n > 0 {
      AddDaysMonotone(d, e, n - 1);
      var p, q := AddDays(d, n - 1), AddDays(e, n - 1);
      if p != q {
        NextDayIsNext(p, q);
      }
    }
  }

  // ---- counting days ----

  /** The days of all years before the given one. */
  function YearStart(year: int): int {
    365 * (year - 1) + (year - 1) / 4 - (year - 1) / 100 + (year - 1) / 400
  }

  /** The days of a year before the given month. */
  function MonthStart(year: int, month: int): int
    decreases month
  {
    if month <= 1 then 0 else MonthStart(year, month - 1) + DaysIn(year, month - 1)
  }

  /** `date.toordinal()`. */
  function Ordinal(d: Date): int {
    YearStart(d.year) + MonthStart(d.year, d.month) + d.day
  }

  /** A quotient grows at the multiples. */
  lemma QuotientStep(year: int)
    ensures year / 4 - (year - 1) / 4 == if year % 4 == 0 then 1 else 0
    ensures year / 100 - (year - 1) / 100 == if year % 100 == 0 then 1 else 0
    ensures year / 400 - (year - 1) / 400 == if year % 400 == 0 then 1 else 0
  {}

  lemma MultiplesNest(year: int)
    ensures year % 400 == 0 ==> year % 100 == 0
    ensures year % 100 == 0 ==> year % 4 == 0
  {}

  lemma MonthsSum(year: int)
    ensures MonthStart(year, 13) == 337 + DaysIn(year, 2)
  {
    assert MonthStart(year, 4) == 62 + DaysIn(year, 2);
    assert MonthStart(year, 7) == MonthStart(year, 4) + 91;
    assert MonthStart(year, 10) == MonthStart(year, 7) + 92;
    assert MonthStart(year, 13) == MonthStart(year, 10) + 92;
  }

  lemma YearLength(year: int)
    ensures YearStart(year + 1) == YearStart(year) + MonthStart(year, 13)
  {
    QuotientStep(year);
    MultiplesNest(year);
    MonthsSum(year);
  }

  lemma NextDayCounts(d: Date)
    requires ValidDate(d)
    ensures Ordinal(NextDay(d)) == Ordinal(d) + 1
  {
    if d.day == DaysIn(d.year, d.month) {
      assert MonthStart(d.year, d.month + 1) == MonthStart(d.year, d.month) + DaysIn(d.year, d.month);
      if d.month == 12 {
        YearLength(d.year);
      }
    }
  }

  /** Adding days adds exactly that many. */
  lemma {:induction false} AddDaysCounts(d: Date, n: nat)
    requires ValidDate(d)
    ensures Ordinal(AddDays(d, n)) == Ordinal(d) + n
  {
    if n > 0 {
      AddDaysCounts(d, n - 1);
      NextDayCounts(AddDays(d, n - 1));
    }
  }

  lemma {:induction false} MonthStartGrows(year: int, a: int, b: int)
    requires 1 <= a < b
    ensures MonthStart(year, a) + DaysIn(year, a) <= MonthStart(year, b)
    decreases b
  {
    if a < b - 1 {
      MonthStartGrows(year, a, b - 1);
    }
  }

  lemma {:induction false} YearStartGrows(a: int, b: int)
    requires a < b
    ensures YearStart(a) + MonthStart(a, 13) <= YearStart(b)
    decreases b - a
  {
    YearLength(a);
    if a + 1 < b {
      YearStartGrows(a + 1, b);
      YearLength(a + 1);
    }
  }

  /** Dates are ordered as their numbers are. */
  lemma OrdinalOrders(a: Date, b: Date)
    requires ValidDate(a) && ValidDate(b)
    ensures DateLt(a, b) <==> Ordinal(a) < Ordinal(b)
  {
    OrdinalGrows(a, b);
    OrdinalGrows(b, a);
  }

  lemma OrdinalGrows(a: Date, b: Date)
    requires ValidDate(a) && ValidDate(b)
    ensures DateLt(a, b) ==> Ordinal(a) < Ordinal(b)
  {
    if a.year < b.year {
      YearStartGrows(a.year, b.year);
      MonthStartGrows(a.year, a.month, 13);
      if b.month > 1 {
        MonthStartGrows(b.year, 1, b.month);
      }
    } else if a.year == b.year && a.month < b.month {
      MonthStartGrows(a.year, a.month, b.month);
    }
  }

  /** A midnight of no later a day is no later. */
  lemma MidnightFirst(a: Moment, b: Moment)
    requires ValidMoment(a) && ValidMoment(b) && a.second == 0 && Ordinal(a.date) <= Ordinal(b.date)
    ensures MomentLe(a, b)
  {
    OrdinalGrows(b.date, a.date);
  }

  /** Midnight of the day with a given number. */
  predicate OnDay(t: Moment, day: int) {
    ValidMoment(t) && t.second == 0 && Ordinal(t.date) == day
  }
}
