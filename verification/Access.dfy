/** Setting or extending the access of a client, followed by reconciliation with the policy. */
module Access {
  import opened Wrappers
  import opened Calendar
  import opened Limits
  import opened ClientState
  import opened Switching
  import opened Policy
  import opened Crud
  import opened Enforcement
  import opened Ticks

  datatype Outcome = NowOverLimit | NowExpired | NowEnabled

  function Verdict(e: Entry, traffic: Traffic, name: string, now: Moment): Outcome
    requires ValidMoment(now)
  {
    if OverLimit(e, traffic, name, now) then NowOverLimit
    else if AccessExpired(e.expiresAt, now) then NowExpired
    else NowEnabled
  }

  /** The marks of a client that reconciliation disables. */
  function ReconcileMark(e: Entry, traffic: Traffic, name: string, now: Moment, stamp: string): DisabledState
    requires ValidMoment(now)
  {
    if OverLimit(e, traffic, name, now) then
      var status := StatusOf(e, traffic, name, now).value;
      DisabledState(stamp, TrafficLimitReached, "", stamp, Some(status.periodKey), status.usedBytes, Some(status.resetAt))
    else
      DisabledState(stamp, AccessEnded, stamp, "", None, 0, None)
  }

  /** Both copies after `reconcile_client_access_status`. */
  ghost predicate Reconciled(s: State, s': State, name: string, traffic: Traffic, now: Moment, stamp: string)
    requires ValidMoment(now)
  {
    && name in s.clients
    && Touches(s, s', {name})
    && var e := s.clients[name];
       if Verdict(e, traffic, name, now).NowEnabled? then PolicyEnabled(s, s', name, e)
       else PolicyDisabled(s, s', name, e, ReconcileMark(e, traffic, name, now, stamp))
  }

  method Reconcile(config: Config, db: Db, name: string, traffic: Traffic, now: Moment, stamp: string)
      returns (r: Result<Outcome, Error>)
    requires ValidMoment(now) && name in db.clients && OwnEmails(name, db.clients[name])
    modifies config, db
    ensures r.Ok? ==> r.value == Verdict(old(db.clients)[name], traffic, name, now)
                      && Reconciled(old(View(config, db)), View(config, db), name, traffic, now, stamp)
    ensures r.Err? <==> Verdict(old(db.clients)[name], traffic, name, now).NowEnabled?
                        && Stuck(old(config.inbounds), name, old(db.clients)[name])
    ensures r.Err? ==> HalfEnabled(old(View(config, db)), View(config, db), name)
  {
    var e := db.clients[name];
    var verdict := Verdict(e, traffic, name, now);
    if !verdict.NowEnabled? {
      DisableForPolicy(config, db, name, e, ReconcileMark(e, traffic, name, now, stamp));
      return Ok(verdict);
    }
    var error := EnableForPolicy(config, db, name);
    r := if error.Some? then Err(error.value) else Ok(verdict);
  }

  lemma ReconcileKeeps(s: State, s': State, name: string, traffic: Traffic, now: Moment, stamp: string)
    requires Consistent(s) && ValidMoment(now) && Reconciled(s, s', name, traffic, now, stamp)
    ensures Consistent(s')
  {
    var e := s.clients[name];
    if Verdict(e, traffic, name, now).NowEnabled? {
      PolicyEnabledKeeps(s, s', name, e);
    } else {
      PolicyDisabledKeeps(s, s', name, e, ReconcileMark(e, traffic, name, now, stamp));
    }
    KeepsOne(s, s', name);
  }

  /** Afterwards the client is served exactly when its limit and its deadline allow it. */
  lemma ReconcileDecides(s: State, s': State, name: string, traffic: Traffic, now: Moment, stamp: string)
    requires Consistent(s) && ValidMoment(now) && Reconciled(s, s', name, traffic, now, stamp)
    ensures Active(s'.inbounds, name) <==>
              !OverLimit(s.clients[name], traffic, name, now) && !AccessExpired(s.clients[name].expiresAt, now)
  {
    var e := s.clients[name];
    ReconcileKeeps(s, s', name, traffic, now, stamp);
    ActiveIsEnabled(s', name);
    assert EntryOk(s.inbounds, name, e);
    if Verdict(e, traffic, name, now).NowEnabled? {
      AllEnabled(s, name, Reopened(e));
    } else {
      PolicyDisabledIsInactive(s, s', name, ReconcileMark(e, traffic, name, now, stamp));
    }
  }

  // ---- set-days and extend-days ----

  datatype AccessChange = SetDays(days: Option<nat>) | ExtendDays(more: nat)

  function ChangedDeadline(change: AccessChange, e: Entry, now: Moment): Option<Moment>
    requires ValidMoment(now) && (e.expiresAt.Some? ==> ValidMoment(e.expiresAt.value))
  {
    match change
    case SetDays(days) => ExpiresAtFromDays(days, now)
    case ExtendDays(days) => Some(ExtendedExpiresAt(e.expiresAt, days, now))
  }

  function WithDeadline(change: AccessChange, e: Entry, now: Moment): Entry
    requires ValidMoment(now) && (e.expiresAt.Some? ==> ValidMoment(e.expiresAt.value))
  {
    e.(expiresAt := ChangedDeadline(change, e, now), disabled := e.disabled.(expiredAt := ""))
  }

  /** The record that is updated: an unknown client that is active gets one. */
  function RecordToUpdate(s: State, name: string): Option<Entry> {
    if name in s.clients then Some(s.clients[name]) else Adopted(s.inbounds, name)
  }

  method UpdateAccess(config: Config, db: Db, name: string, change: AccessChange, traffic: Traffic, now: Moment,
                      stamp: string) returns (r: Result<Outcome, Error>, ghost updated: State)
    requires ValidMoment(now)
    requires forall e | RecordToUpdate(View(config, db), name) == Some(e) ::
               OwnEmails(name, e) && (e.expiresAt.Some? ==> ValidMoment(e.expiresAt.value))
    modifies config, db
    ensures RecordToUpdate(old(View(config, db)), name).Some? ==>
              var e := RecordToUpdate(old(View(config, db)), name).value;
              var changed := WithDeadline(change, e, now);
              && updated == old(View(config, db)).(clients := old(db.clients)[name := changed])
              && (r.Err? <==> Verdict(changed, traffic, name, now).NowEnabled? && Stuck(old(config.inbounds), name, changed))
              && (r.Ok? ==> Reconciled(updated, View(config, db), name, traffic, now, stamp))
              && (r.Err? ==> HalfEnabled(updated, View(config, db), name))
              && name in db.clients && DeadlineSet(change, e.expiresAt, now, db.clients[name].expiresAt)
    ensures RecordToUpdate(old(View(config, db)), name).None? ==>
              r == Err(ClientNotFound) && View(config, db) == old(View(config, db))
  {
    updated := View(config, db);
    var found := RecordToUpdate(View(config, db), name);
    if found.None? {
      return Err(ClientNotFound), updated;
    }
    db.clients := db.clients[name := WithDeadline(change, found.value, now)];
    updated := View(config, db);
    r := Reconcile(config, db, name, traffic, now, stamp);
    DeadlineKept(updated, View(config, db), name, traffic, now, stamp);
    ChangedAsAsked(change, found.value, now);
  }

  function Max(a: int, b: int): int {
    if a < b then b else a
  }

  /** The deadline asked for: none, or midnight that many days after today; when extending, after the later of today
      and the day of the old deadline. */
  predicate DeadlineSet(change: AccessChange, before: Option<Moment>, now: Moment, after: Option<Moment>) {
    var today := Ordinal(now.date);
    match change
    case SetDays(None) => after.None?
    case SetDays(Some(n)) => after.Some? && OnDay(after.value, today + n)
    case ExtendDays(n) =>
      after.Some? && OnDay(after.value, n + if before.None? then today else Max(today, Ordinal(before.value.date)))
  }

  lemma ChangedAsAsked(change: AccessChange, e: Entry, now: Moment)
    requires ValidMoment(now) && (e.expiresAt.Some? ==> ValidMoment(e.expiresAt.value))
    ensures DeadlineSet(change, e.expiresAt, now, ChangedDeadline(change, e, now))
  {
    match change {
      case SetDays(None) =>
      case SetDays(Some(n)) => AddDaysCounts(now.date, n);
      case ExtendDays(n) =>
        AddDaysCounts(now.date, n);
        if e.expiresAt.Some? {
          OrdinalOrders(e.expiresAt.value.date, now.date);
          AddDaysCounts(e.expiresAt.value.date, n);
        }
    }
  }

  /** Reconciliation, complete or half-way, leaves the deadline alone. */
  lemma DeadlineKept(s: State, s': State, name: string, traffic: Traffic, now: Moment, stamp: string)
    requires ValidMoment(now) && (Reconciled(s, s', name, traffic, now, stamp) || HalfEnabled(s, s', name))
    ensures name in s'.clients && s'.clients[name].expiresAt == s.clients[name].expiresAt
  {}

  /** The record has the deadline asked for, and extending never takes a day away. */
  lemma UpdatedDeadline(s: State, s': State, name: string, change: AccessChange, traffic: Traffic, now: Moment, stamp: string)
    requires ValidMoment(now) && name in s.clients
    requires s.clients[name].expiresAt.Some? ==> ValidMoment(s.clients[name].expiresAt.value)
    requires Reconciled(s.(clients := s.clients[name := WithDeadline(change, s.clients[name], now)]), s',
                        name, traffic, now, stamp)
    ensures name in s'.clients && DeadlineSet(change, s.clients[name].expiresAt, now, s'.clients[name].expiresAt)
    ensures change.ExtendDays? && s.clients[name].expiresAt.Some? && s.clients[name].expiresAt.value.second == 0 ==>
              MomentLe(s.clients[name].expiresAt.value, s'.clients[name].expiresAt.value)
  {
    var e := s.clients[name];
    DeadlineKept(s.(clients := s.clients[name := WithDeadline(change, e, now)]), s', name, traffic, now, stamp);
    ChangedAsAsked(change, e, now);
    if change.ExtendDays? && e.expiresAt.Some? && e.expiresAt.value.second == 0 {
      MidnightFirst(e.expiresAt.value, s'.clients[name].expiresAt.value);
    }
  }

  /** A client found past its deadline is marked with that, and no limit is. */
  lemma ExpiredIsMarked(s: State, s': State, name: string, traffic: Traffic, now: Moment, stamp: string)
    requires ValidMoment(now) && Reconciled(s, s', name, traffic, now, stamp)
    requires !OverLimit(s.clients[name], traffic, name, now) && AccessExpired(s.clients[name].expiresAt, now)
    ensures name in s'.clients
    ensures var d := s'.clients[name].disabled;
            d.at == d.expiredAt == stamp && d.reason.AccessEnded? && d.exceededPeriod.None? && d.resetAt.None?
  {}

  /** A client found over its limit is marked with this period and its reset, from which on it may return. */
  lemma OverLimitIsMarked(s: State, s': State, name: string, traffic: Traffic, now: Moment, stamp: string)
    requires Consistent(s) && ValidMoment(now) && Reconciled(s, s', name, traffic, now, stamp)
    requires OverLimit(s.clients[name], traffic, name, now)
    ensures DisabledAtTick(s'.clients[name], s.clients[name].limit.value, now)
    ensures var d := s'.clients[name].disabled;
            && d.at == d.exceededAt == stamp && d.expiredAt == ""
            && d.exceededBytes == Usage(TrafficOf(traffic, name), s.clients[name].limit.value.period, now)
  {
    var e := s.clients[name];
    assert EntryOk(s.inbounds, name, e);
    AllOff(s.inbounds, name, e);
  }

  /** A new deadline by itself does not touch the mirror. */
  lemma DeadlineKeeps(s: State, name: string, change: AccessChange, now: Moment)
    requires Consistent(s) && ValidMoment(now) && name in s.clients
    requires s.clients[name].expiresAt.Some? ==> ValidMoment(s.clients[name].expiresAt.value)
    ensures Consistent(s.(clients := s.clients[name := WithDeadline(change, s.clients[name], now)]))
  {
    var e := WithDeadline(change, s.clients[name], now);
    assert EntryOk(s.inbounds, name, s.clients[name]);
    assert EntryOk(s.inbounds, name, e) by {
      SameCredentialsOk(s.inbounds, name, s.clients[name], e);
    }
    assert MirrorOf(State(s.inbounds, s.connections, s.clients[name := e]), name) by {
      var s' := State(s.inbounds, s.connections, s.clients[name := e]);
      assert MirrorOf(s, name);
      forall t ensures MirrorAt(s', name, t) {
        assert MirrorAt(s, name, t);
      }
    }
    SameExceptRefl(s.inbounds, {name});
    KeepsRecord(s, s.inbounds, name, e);
  }

  lemma SameCredentialsOk(inbounds: seq<Inbound>, name: string, e: Entry, e': Entry)
    requires EntryOk(inbounds, name, e)
    requires e' == e.(expiresAt := e'.expiresAt, disabled := e'.disabled)
    ensures EntryOk(inbounds, name, e')
  {}

  lemma UpdateAccessKeeps(s: State, s': State, name: string, change: AccessChange, traffic: Traffic, now: Moment,
                          stamp: string)
    requires Consistent(s) && ValidMoment(now) && name in s.clients
    requires s.clients[name].expiresAt.Some? ==> ValidMoment(s.clients[name].expiresAt.value)
    requires Reconciled(s.(clients := s.clients[name := WithDeadline(change, s.clients[name], now)]), s',
                        name, traffic, now, stamp)
    ensures Consistent(s')
  {
    DeadlineKeeps(s, name, change, now);
    ReconcileKeeps(s.(clients := s.clients[name := WithDeadline(change, s.clients[name], now)]), s',
                   name, traffic, now, stamp);
  }

  /** Extending by at least a day always serves the client, unless its traffic limit stands in the way. */
  lemma ExtendingServes(s: State, s': State, name: string, days: nat, traffic: Traffic, now: Moment, stamp: string)
    requires Consistent(s) && ValidMoment(now) && name in s.clients && days >= 1
    requires s.clients[name].expiresAt.Some? ==> ValidMoment(s.clients[name].expiresAt.value)
    requires Reconciled(s.(clients := s.clients[name := WithDeadline(ExtendDays(days), s.clients[name], now)]), s',
                        name, traffic, now, stamp)
    ensures Active(s'.inbounds, name) <==> !OverLimit(s.clients[name], traffic, name, now)
  {
    DeadlineKeeps(s, name, ExtendDays(days), now);
    FreshAccessIsNotExpired(s.clients[name].expiresAt, days, now);
    ReconcileDecides(s.(clients := s.clients[name := WithDeadline(ExtendDays(days), s.clients[name], now)]), s',
                     name, traffic, now, stamp);
  }
}
