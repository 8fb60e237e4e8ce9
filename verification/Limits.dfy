/** Traffic-limit periods, usage and status, and access deadlines. */
module Limits {
  import opened Wrappers
  import opened Calendar

  datatype Period = Daily | Monthly

  /** The text of a period key determines the date (or month) it was printed from. */
  datatype PeriodKey = DayKey(date: Date) | MonthKey(year: int, month: int)

  datatype Limit = Limit(period: Period, bytes: int)

  datatype Bucket = Bucket(incoming: int, outgoing: int)

  /** Hourly buckets of one client by date. */
  type History = map<Date, seq<Bucket>>

  datatype Status = Status(period: Period, periodKey: PeriodKey, limitBytes: int, usedBytes: int,
                           remainingBytes: int, resetAt: Moment, exceeded: bool)

  function KeyOfDate(period: Period, d: Date): PeriodKey {
    match period
    case Daily => DayKey(d)
    case Monthly => MonthKey(d.year, d.month)
  }

  function Key(period: Period, now: Moment): PeriodKey {
    KeyOfDate(period, now.date)
  }

  function ResetTime(period: Period, now: Moment): (r: Moment)
    requires ValidMoment(now)
    ensures ValidMoment(r)
  {
    match period
    case Daily => Midnight(NextDay(now.date))
    case Monthly =>
      var year := now.date.year + (if now.date.month == 12 then 1 else 0);
      var month := if now.date.month == 12 then 1 else now.date.month + 1;
      Midnight(Date(year, month, 1))
  }

  /** The reset time is exact: from now on the period key changes at that instant and not before. */
  lemma ResetExact(period: Period, now: Moment, t: Moment)
    requires ValidMoment(now) && ValidMoment(t) && MomentLe(now, t)
    ensures Key(period, t) != Key(period, now) <==> MomentLe(ResetTime(period, now), t)
  {
    if DateLt(now.date, t.date) {
      NextDayIsNext(now.date, t.date);
    }
  }

  /** Once the reset time has passed the key never comes back. */
  lemma KeyNeverReturns(period: Period, now: Moment, t: Moment, u: Moment)
    requires ValidMoment(now) && ValidMoment(t) && ValidMoment(u) && MomentLe(now, t) && MomentLe(t, u)
    requires Key(period, t) != Key(period, now)
    ensures Key(period, u) != Key(period, now)
  {
    ResetExact(period, now, t);
    ResetExact(period, now, u);
  }

  function BucketBytes(b: Bucket): int {
    b.incoming + b.outgoing
  }

  function BucketsBytes(bs: seq<Bucket>): int {
    if bs == [] then 0 else BucketsBytes(bs[..|bs| - 1]) + BucketBytes(bs[|bs| - 1])
  }

  function DayBytes(history: History, d: Date): int {
    if d in history then BucketsBytes(history[d]) else 0
  }

  /** Bytes of the days 1..`last` of a month. */
  function MonthBytes(history: History, year: int, month: int, last: int): int
    decreases last
  {
    if last <= 0 then 0
    else MonthBytes(history, year, month, last - 1) + DayBytes(history, Date(year, month, last))
  }

  /** Bytes counted against a limit at `now`. */
  function Usage(history: History, period: Period, now: Moment): int {
    match period
    case Daily => DayBytes(history, now.date)
    case Monthly => MonthBytes(history, now.date.year, now.date.month, now.date.day)
  }

  method DayTotal(history: History, d: Date) returns (incoming: int, outgoing: int)
    ensures incoming + outgoing == DayBytes(history, d)
    ensures d !in history ==> incoming == outgoing == 0
  {
    incoming, outgoing := 0, 0;
    if d in history {
      var hours := history[d];
      for i := 0 to |hours|
        invariant incoming + outgoing == BucketsBytes(hours[..i])
      {
        incoming := incoming + hours[i].incoming;
        outgoing := outgoing + hours[i].outgoing;
        assert hours[..i + 1][..i] == hours[..i];
      }
      assert hours[..|hours|] == hours;
    }
  }

  /** Walks the dates from the first of the month to today, both ends included. */
  method MonthTotal(history: History, now: Moment) returns (incoming: int, outgoing: int)
    requires ValidMoment(now)
    ensures incoming + outgoing == MonthBytes(history, now.date.year, now.date.month, now.date.day)
  {
    incoming, outgoing := 0, 0;
    var today := now.date;
    var current := Date(today.year, today.month, 1);
    ghost var k := 1;
    while DateLe(current, today)
      invariant ValidDate(current) && 1 <= k <= today.day + 1
      invariant k <= today.day ==> current == Date(today.year, today.month, k)
      invariant k == today.day + 1 ==> DateLt(today, current)
      invariant incoming + outgoing == MonthBytes(history, today.year, today.month, k - 1)
      decreases today.day + 1 - k
    {
      var dayIn, dayOut := DayTotal(history, current);
      incoming, outgoing := incoming + dayIn, outgoing + dayOut;
      current := NextDay(current);
      k := k + 1;
    }
  }

  method TrafficLimitUsage(history: History, period: Period, now: Moment) returns (used: int)
    requires ValidMoment(now)
    ensures used == Usage(history, period, now)
  {
    var incoming, outgoing;
    match period {
      case Daily => incoming, outgoing := DayTotal(history, now.date);
      case Monthly => incoming, outgoing := MonthTotal(history, now);
    }
    used := incoming + outgoing;
  }

  function AddBucket(history: History, d: Date, b: Bucket): History {
    history[d := (if d in history then history[d] else []) + [b]]
  }

  lemma {:induction false} MonthBytesAddBucket(history: History, year: int, month: int, last: int, d: Date, b: Bucket)
    requires d.day >= 1
    ensures MonthBytes(AddBucket(history, d, b), year, month, last)
         == MonthBytes(history, year, month, last)
            + (if d.year == year && d.month == month && d.day <= last then BucketBytes(b) else 0)
    decreases last
  {
    if last > 0 {
      MonthBytesAddBucket(history, year, month, last - 1, d, b);
      DayBytesAddBucket(history, Date(year, month, last), d, b);
    }
  }

  lemma DayBytesAddBucket(history: History, e: Date, d: Date, b: Bucket)
    ensures DayBytes(AddBucket(history, d, b), e)
         == DayBytes(history, e) + (if e == d then BucketBytes(b) else 0)
  {
    if e == d {
      BucketsAppend(if d in history then history[d] else [], b);
    }
  }

  lemma BucketsAppend(bs: seq<Bucket>, b: Bucket)
    ensures BucketsBytes(bs + [b]) == BucketsBytes(bs) + BucketBytes(b)
  {
    assert (bs + [b])[..|bs|] == bs;
  }

  /** Usage is a sum: a new bucket counts exactly when its date lies in the period of `now`, not after today. */
  lemma UsageCountsBucket(history: History, period: Period, now: Moment, d: Date, b: Bucket)
    requires ValidMoment(now) && ValidDate(d)
    ensures Usage(AddBucket(history, d, b), period, now)
         == Usage(history, period, now)
            + (if KeyOfDate(period, d) == Key(period, now) && DateLe(d, now.date) then BucketBytes(b) else 0)
  {
    match period {
      case Daily => DayBytesAddBucket(history, now.date, d, b);
      case Monthly => MonthBytesAddBucket(history, now.date.year, now.date.month, now.date.day, d, b);
    }
  }

  lemma {:induction false} MonthBytesEmpty(history: History, year: int, month: int, last: int)
    requires forall k :: 1 <= k <= last ==> Date(year, month, k) !in history
    ensures MonthBytes(history, year, month, last) == 0
    decreases last
  {
    if last > 0 {
      MonthBytesEmpty(history, year, month, last - 1);
    }
  }

  /** Traffic recorded in earlier periods no longer counts. */
  lemma UsageStartsAtZero(history: History, period: Period, now: Moment)
    requires forall d | d in history :: KeyOfDate(period, d) != Key(period, now)
    ensures Usage(history, period, now) == 0
  {
    if period.Monthly? {
      var d := now.date;
      assert forall k :: KeyOfDate(Monthly, Date(d.year, d.month, k)) == Key(Monthly, now);
      MonthBytesEmpty(history, d.year, d.month, d.day);
    }
  }

  /** A limit without positive bytes is no limit. */
  function EffectiveLimit(limit: Option<Limit>): Option<Limit> {
    if limit.Some? && limit.value.bytes > 0 then limit else None
  }

  function TrafficLimitStatus(limit: Option<Limit>, history: History, now: Moment): Option<Status>
    requires ValidMoment(now)
  {
    match EffectiveLimit(limit)
    case None => None
    case Some(l) =>
      var used := Usage(history, l.period, now);
      Some(Status(l.period, Key(l.period, now), l.bytes, used, if l.bytes > used then l.bytes - used else 0,
                  ResetTime(l.period, now), used >= l.bytes))
  }

  predicate Exceeded(limit: Option<Limit>, history: History, now: Moment)
    requires ValidMoment(now)
  {
    var status := TrafficLimitStatus(limit, history, now);
    status.Some? && status.value.exceeded
  }

  /** Nothing remains exactly when the limit is exceeded, and otherwise used and remaining add up to it. */
  lemma StatusBalances(limit: Option<Limit>, history: History, now: Moment)
    requires ValidMoment(now)
    requires TrafficLimitStatus(limit, history, now).Some?
    ensures var s := TrafficLimitStatus(limit, history, now).value;
            (s.exceeded <==> s.remainingBytes == 0)
            && (!s.exceeded ==> s.usedBytes + s.remainingBytes == s.limitBytes)
  {}

  predicate AccessExpired(expiresAt: Option<Moment>, now: Moment) {
    expiresAt.Some? && MomentLe(expiresAt.value, now)
  }

  function ExpiresAtFromDays(days: Option<nat>, now: Moment): Option<Moment>
    requires ValidMoment(now)
  {
    match days
    case None => None
    case Some(n) => Some(Midnight(AddDays(now.date, n)))
  }

  function LaterDate(a: Date, b: Date): Date {
    if DateLt(a, b) then b else a
  }

  function ExtendedExpiresAt(expiresAt: Option<Moment>, days: nat, now: Moment): Moment
    requires ValidMoment(now) && (expiresAt.Some? ==> ValidMoment(expiresAt.value))
  {
    var base := if expiresAt.None? then now.date else LaterDate(expiresAt.value.date, now.date);
    Midnight(AddDays(base, days))
  }

  /** After setting or extending by at least one day the access is not expired. */
  lemma FreshAccessIsNotExpired(expiresAt: Option<Moment>, days: nat, now: Moment)
    requires ValidMoment(now) && days >= 1 && (expiresAt.Some? ==> ValidMoment(expiresAt.value))
    ensures !AccessExpired(ExpiresAtFromDays(Some(days), now), now)
    ensures !AccessExpired(Some(ExtendedExpiresAt(expiresAt, days, now)), now)
  {}

  /** Extending twice at one instant is extending once by the sum, from any starting deadline. */
  lemma ExtendComposes(expiresAt: Option<Moment>, m: nat, n: nat, now: Moment)
    requires ValidMoment(now) && (expiresAt.Some? ==> ValidMoment(expiresAt.value))
    ensures ExtendedExpiresAt(Some(ExtendedExpiresAt(expiresAt, m, now)), n, now)
         == ExtendedExpiresAt(expiresAt, m + n, now)
  {
    var base := if expiresAt.None? then now.date else LaterDate(expiresAt.value.date, now.date);
    AddDaysAdds(base, m, n);
  }

  /** Extension never shortens access: a midnight deadline moves later, by at least the days added. */
  lemma ExtendNeverShortens(expiresAt: Moment, days: nat, now: Moment)
    requires ValidMoment(now) && ValidMoment(expiresAt) && expiresAt.second == 0
    ensures MomentLe(Midnight(AddDays(expiresAt.date, days)), ExtendedExpiresAt(Some(expiresAt), days, now))
  {
    AddDaysMonotone(expiresAt.date, LaterDate(expiresAt.date, now.date), days);
  }
}
