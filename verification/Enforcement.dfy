/** Periodic enforcement of traffic limits and access deadlines. */
module Enforcement {
  import opened Wrappers
  import opened Text
  import opened Calendar
  import opened Limits
  import opened ClientState
  import opened Switching
  import opened Policy

  /** Why clients are being disabled. */
  datatype Rule = TrafficRule(traffic: Traffic) | AccessRule

  predicate Violates(rule: Rule, e: Entry, name: string, now: Moment)
    requires ValidMoment(now)
  {
    match rule
    case TrafficRule(traffic) => OverLimit(e, traffic, name, now)
    case AccessRule => AccessExpired(e.expiresAt, now)
  }

  /** How the record of a disabled client is marked. */
  function Mark(rule: Rule, e: Entry, name: string, now: Moment, stamp: string): DisabledState
    requires ValidMoment(now) && Violates(rule, e, name, now)
  {
    match rule
    case TrafficRule(traffic) =>
      var status := StatusOf(e, traffic, name, now).value;
      e.disabled.(at := stamp, reason := TrafficLimitReached, exceededAt := stamp,
                  exceededPeriod := Some(status.periodKey), exceededBytes := status.usedBytes,
                  resetAt := Some(status.resetAt))
    case AccessRule =>
      e.disabled.(at := stamp, reason := AccessEnded, expiredAt := stamp)
  }

  // ---- collecting the due clients ----

  function NamesOf(items: seq<Item>): set<string> {
    if items == [] then {} else NamesOf(items[..|items| - 1]) + {Name(items[|items| - 1])}
  }

  lemma {:induction false} NamesOfOnly(items: seq<Item>, name: string)
    ensures name in NamesOf(items) <==> Only(items, name) != []
  {
    if items != [] {
      NamesOfOnly(items[..|items| - 1], name);
    }
  }

  function ActiveNames(inbounds: seq<Inbound>, k: nat): set<string>
    requires k <= |inbounds|
  {
    if k == 0 then {}
    else ActiveNames(inbounds, k - 1) + if Managed(inbounds[k - 1]) then NamesOf(inbounds[k - 1].clients) else {}
  }

  lemma {:induction false} ActiveNamesSpec(inbounds: seq<Inbound>, k: nat, name: string)
    requires k <= |inbounds|
    ensures name in ActiveNames(inbounds, k) <==>
              exists j | 0 <= j < k :: Managed(inbounds[j]) && Only(inbounds[j].clients, name) != []
  {
    if k > 0 {
      ActiveNamesSpec(inbounds, k - 1, name);
      NamesOfOnly(inbounds[k - 1].clients, name);
    }
  }

  /** Whoever is active and breaks the rule; an unrecorded client breaks none. */
  predicate Due(s: State, name: string, rule: Rule, now: Moment)
    requires ValidMoment(now)
  {
    name in s.clients && Active(s.inbounds, name) && Violates(rule, s.clients[name], name, now)
  }

  method CollectDue(inbounds: seq<Inbound>, clients: map<string, Entry>, rule: Rule, now: Moment) returns (due: set<string>)
    requires ValidMoment(now)
    ensures forall n :: n in due <==> Due(State(inbounds, map[], clients), n, rule, now)
  {
    due := {};
    for k := 0 to |inbounds|
      invariant forall n :: n in due <==> n in ActiveNames(inbounds, k) && n in clients && Violates(rule, clients[n], n, now)
    {
      if Managed(inbounds[k]) {
        var items := inbounds[k].clients;
        for j := 0 to |items|
          invariant forall n :: n in due <==> (n in ActiveNames(inbounds, k) || n in NamesOf(items[..j]))
                                              && n in clients && Violates(rule, clients[n], n, now)
        {
          var name := Name(items[j]);
          assert items[..j + 1][..j] == items[..j];
          if name !in due && name in clients && Violates(rule, clients[name], name, now) {
            due := due + {name};
          }
        }
        assert items[..|items|] == items;
      }
    }
    forall n ensures n in ActiveNames(inbounds, |inbounds|) <==> Active(inbounds, n) {
      ActiveNamesSpec(inbounds, |inbounds|, n);
    }
  }

  // ---- disabling them ----

  /** The clients in `done` have been disabled for breaking the rule. */
  ghost predicate AllDisabled(s: State, s': State, done: set<string>, rule: Rule, now: Moment, stamp: string)
    requires ValidMoment(now)
  {
    && Touches(s, s', done)
    && (done == {} ==> s' == s)
    && forall n | n in done :: DisabledFor(s, s', n, rule, now, stamp)
  }

  ghost predicate DisabledFor(s: State, s': State, n: string, rule: Rule, now: Moment, stamp: string)
    requires ValidMoment(now)
  {
    && n in s.clients
    && Violates(rule, s.clients[n], n, now)
    && PolicyDisabled(s, s', n, s.clients[n], Mark(rule, s.clients[n], n, now, stamp))
  }

  /** The last loop of `enforce_traffic_limits` and of `expire_due_clients`. */
  method DisableDue(config: Config, db: Db, due: set<string>, rule: Rule, now: Moment, stamp: string)
    requires ValidMoment(now)
    requires forall n | n in due :: n in db.clients && Violates(rule, db.clients[n], n, now)
    modifies config, db
    ensures AllDisabled(old(View(config, db)), View(config, db), due, rule, now, stamp)
  {
    ghost var s := View(config, db);
    var remaining := due;
    ghost var done := {};
    SameExceptRefl(s.inbounds, {});
    while remaining != {}
      invariant done !! remaining && done + remaining == due
      invariant AllDisabled(s, View(config, db), done, rule, now, stamp)
      decreases remaining
    {
      var name :| name in remaining;
      ghost var c := View(config, db);
      TouchesOthers(s, c, done, name);
      assert Record(c, name) == Record(s, name);
      var previous := db.clients[name];
      DisableForPolicy(config, db, name, previous, Mark(rule, previous, name, now, stamp));
      DisabledStep(s, c, View(config, db), done, name, rule, now, stamp);
      remaining, done := remaining - {name}, done + {name};
    }
    assert done == due;
  }

  lemma DisabledStep(s: State, c: State, s': State, done: set<string>, name: string, rule: Rule, now: Moment, stamp: string)
    requires ValidMoment(now) && AllDisabled(s, c, done, rule, now, stamp) && name !in done
    requires Touches(c, s', {name}) && SameFor(s, c, name) && DisabledFor(c, s', name, rule, now, stamp)
    ensures AllDisabled(s, s', done + {name}, rule, now, stamp)
  {
    assert Touches(s, s', done + {name}) by {
      TouchesTransitive(s, c, s', done, {name});
    }
    forall n | n in done + {name} ensures DisabledFor(s, s', n, rule, now, stamp) {
      if n == name {
        assert Record(c, n) == Record(s, n);
        DisabledFrom(s, c, s', n, s.clients[n], Mark(rule, s.clients[n], n, now, stamp));
      } else {
        assert DisabledFor(s, c, n, rule, now, stamp);
        TouchesOthers(c, s', {name}, n);
        DisabledTo(s, c, s', n, s.clients[n], Mark(rule, s.clients[n], n, now, stamp));
      }
    }
  }

  // ---- re-enabling ----

  /** Disabled for traffic, in another period than now, under the limit and not expired. */
  predicate Reactivates(e: Entry, name: string, traffic: Traffic, now: Moment)
    requires ValidMoment(now)
  {
    && !e.enabled && e.disabled.reason.TrafficLimitReached?
    && var status := StatusOf(e, traffic, name, now);
       && status.Some? && !status.value.exceeded
       && e.disabled.exceededPeriod != Some(status.value.periodKey)
       && !AccessExpired(e.expiresAt, now)
  }

  predicate Returns(s: State, name: string, traffic: Traffic, now: Moment)
    requires ValidMoment(now)
  {
    name in s.clients && Reactivates(s.clients[name], name, traffic, now)
  }

  ghost predicate AllEnabledAgain(s: State, s': State, names: set<string>)
  {
    && Touches(s, s', names)
    && (names == {} ==> s' == s)
    && forall n | n in names :: EnabledAgain(s, s', n)
  }

  ghost predicate EnabledAgain(s: State, s': State, n: string) {
    n in s.clients && PolicyEnabled(s, s', n, s.clients[n])
  }

  lemma EnabledAgainStep(s: State, c: State, s': State, names: set<string>, name: string)
    requires AllEnabledAgain(s, c, names) && name !in names
    requires Touches(c, s', {name}) && SameFor(s, c, name) && EnabledAgain(c, s', name)
    ensures AllEnabledAgain(s, s', names + {name})
  {
    assert Touches(s, s', names + {name}) by {
      TouchesTransitive(s, c, s', names, {name});
    }
    forall n | n in names + {name} ensures EnabledAgain(s, s', n) {
      if n == name {
        assert Record(c, n) == Record(s, n);
        ShapeOf(s.inbounds, c.inbounds, names);
        EnabledFrom(s, c, s', n, s.clients[n]);
      } else {
        assert EnabledAgain(s, c, n);
        TouchesOthers(c, s', {name}, n);
        EnabledTo(s, c, s', n, s.clients[n]);
      }
    }
  }

  ghost predicate EmailsOk(clients: map<string, Entry>) {
    forall n | n in clients :: OwnEmails(n, clients[n])
  }

  /** Some client that should return has a credential that cannot be enabled; then enforcement raises. */
  predicate CannotReturn(s: State, name: string, traffic: Traffic, now: Moment)
    requires ValidMoment(now)
  {
    Returns(s, name, traffic, now) && Stuck(s.inbounds, name, s.clients[name])
  }

  /** One turn of the first loop of `enforce_traffic_limits`. */
  method ReactivateOne(config: Config, db: Db, name: string, traffic: Traffic, now: Moment, reactivated: set<string>,
                       ghost s: State) returns (error: Option<Error>, after: set<string>)
    requires ValidMoment(now) && EmailsOk(s.clients) && name in s.clients && name !in reactivated
    requires AllEnabledAgain(s, View(config, db), reactivated)
    modifies config, db
    ensures error.None? ==> AllEnabledAgain(s, View(config, db), after)
    ensures error.None? ==> after == if Returns(s, name, traffic, now) then reactivated + {name} else reactivated
    ensures error.Some? <==> CannotReturn(s, name, traffic, now)
  {
    ghost var c := View(config, db);
    TouchesOthers(s, c, reactivated, name);
    assert Record(c, name) == Record(s, name);
    if !Reactivates(db.clients[name], name, traffic, now) {
      return None, reactivated;
    }
    ShapeOf(s.inbounds, c.inbounds, reactivated);
    StuckFrame(s, c, name, s.clients[name]);
    error := EnableForPolicy(config, db, name);
    after := reactivated + {name};
    if error.None? {
      EnabledAgainStep(s, c, View(config, db), reactivated, name);
    }
  }

  /** The first loop of `enforce_traffic_limits`. */
  method ReactivateClients(config: Config, db: Db, traffic: Traffic, now: Moment)
      returns (error: Option<Error>, reactivated: set<string>)
    requires ValidMoment(now) && EmailsOk(db.clients)
    modifies config, db
    ensures error.None? ==>
              && AllEnabledAgain(old(View(config, db)), View(config, db), reactivated)
              && forall n :: n in reactivated <==> Returns(old(View(config, db)), n, traffic, now)
    ensures error.Some? <==> exists n :: CannotReturn(old(View(config, db)), n, traffic, now)
  {
    ghost var s := View(config, db);
    error, reactivated := None, {};
    var remaining := db.clients.Keys;
    ghost var done: set<string> := {};
    SameExceptRefl(s.inbounds, {});
    while remaining != {}
      invariant done !! remaining && done + remaining == s.clients.Keys
      invariant error.None? && AllEnabledAgain(s, View(config, db), reactivated)
      invariant forall n :: n in reactivated <==> n in done && Returns(s, n, traffic, now)
      invariant forall n | n in done :: !CannotReturn(s, n, traffic, now)
      decreases remaining
    {
      var name :| name in remaining;
      error, reactivated := ReactivateOne(config, db, name, traffic, now, reactivated, s);
      if error.Some? {
        return;
      }
      remaining, done := remaining - {name}, done + {name};
    }
    assert done == s.clients.Keys;
  }

  // ---- the two periodic jobs ----

  /** Both copies after `enforce_traffic_limits`. */
  ghost predicate Enforced(s: State, s': State, traffic: Traffic, now: Moment, stamp: string,
                           reactivated: set<string>, due: set<string>)
    requires ValidMoment(now)
  {
    && Touches(s, s', reactivated + due)
    && (forall n :: n in reactivated <==> Returns(s, n, traffic, now))
    && (forall n :: n in due <==> Due(s, n, TrafficRule(traffic), now))
    && (forall n | n in reactivated :: EnabledAgain(s, s', n))
    && (forall n | n in due :: DisabledFor(s, s', n, TrafficRule(traffic), now, stamp))
    && (reactivated + due == {} ==> s' == s)
  }

  method EnforceTrafficLimits(config: Config, db: Db, traffic: Traffic, now: Moment, stamp: string)
      returns (error: Option<Error>, reactivated: set<string>, due: set<string>)
    requires ValidMoment(now) && EmailsOk(db.clients)
    modifies config, db
    ensures error.None? ==> Enforced(old(View(config, db)), View(config, db), traffic, now, stamp, reactivated, due)
    ensures error.Some? <==> exists n :: CannotReturn(old(View(config, db)), n, traffic, now)
  {
    ghost var s := View(config, db);
    due := {};
    error, reactivated := ReactivateClients(config, db, traffic, now);
    if error.Some? {
      return;
    }
    ghost var c := View(config, db);
    due := CollectDue(config.inbounds, db.clients, TrafficRule(traffic), now);
    DueUnchanged(s, c, reactivated, due, traffic, now);
    DisableDue(config, db, due, TrafficRule(traffic), now, stamp);
    Combine(s, c, View(config, db), reactivated, due, traffic, now, stamp);
  }

  /** Re-enabling clients does not change who is due, and it re-enables nobody who is. */
  lemma DueUnchanged(s: State, c: State, reactivated: set<string>, due: set<string>, traffic: Traffic, now: Moment)
    requires ValidMoment(now) && AllEnabledAgain(s, c, reactivated)
    requires forall n :: n in reactivated <==> Returns(s, n, traffic, now)
    requires forall n :: n in due <==> Due(State(c.inbounds, map[], c.clients), n, TrafficRule(traffic), now)
    ensures forall n :: n in due <==> Due(s, n, TrafficRule(traffic), now)
    ensures reactivated !! due
  {
    forall n ensures n in due <==> Due(s, n, TrafficRule(traffic), now) {
      if n in reactivated {
        assert EnabledAgain(s, c, n);
        KeepsLimit(s, c, n, s.clients[n]);
      } else {
        assert Record(c, n) == Record(s, n);
        ActiveFrame(s.inbounds, c.inbounds, reactivated, n);
      }
    }
  }

  lemma KeepsLimit(s: State, s': State, name: string, e: Entry)
    requires PolicyEnabled(s, s', name, e)
    ensures s'.clients[name].limit == e.limit && s'.clients[name].expiresAt == e.expiresAt
  {}

  lemma Combine(s: State, c: State, s': State, reactivated: set<string>, due: set<string>, traffic: Traffic, now: Moment,
                stamp: string)
    requires ValidMoment(now) && AllEnabledAgain(s, c, reactivated) && reactivated !! due
    requires AllDisabled(c, s', due, TrafficRule(traffic), now, stamp)
    ensures Touches(s, s', reactivated + due)
    ensures forall n | n in reactivated :: EnabledAgain(s, s', n)
    ensures forall n | n in due :: DisabledFor(s, s', n, TrafficRule(traffic), now, stamp)
    ensures reactivated + due == {} ==> s' == s
  {
    TouchesTransitive(s, c, s', reactivated, due);
    forall n | n in reactivated ensures EnabledAgain(s, s', n) {
      assert EnabledAgain(s, c, n);
      TouchesOthers(c, s', due, n);
      EnabledTo(s, c, s', n, s.clients[n]);
    }
    forall n | n in due ensures DisabledFor(s, s', n, TrafficRule(traffic), now, stamp) {
      assert DisabledFor(c, s', n, TrafficRule(traffic), now, stamp);
      TouchesOthers(s, c, reactivated, n);
      assert Record(c, n) == Record(s, n);
      DisabledFrom(s, c, s', n, s.clients[n], Mark(TrafficRule(traffic), s.clients[n], n, now, stamp));
    }
    assert reactivated + due == {} ==> reactivated == {} && due == {};
  }

  /** Both copies after `expire_due_clients`. */
  ghost predicate Expired(s: State, s': State, now: Moment, stamp: string, due: set<string>)
    requires ValidMoment(now)
  {
    && AllDisabled(s, s', due, AccessRule, now, stamp)
    && forall n :: n in due <==> Due(s, n, AccessRule, now)
  }

  method ExpireDueClients(config: Config, db: Db, now: Moment, stamp: string) returns (due: set<string>)
    requires ValidMoment(now)
    modifies config, db
    ensures Expired(old(View(config, db)), View(config, db), now, stamp, due)
  {
    due := CollectDue(config.inbounds, db.clients, AccessRule, now);
    DisableDue(config, db, due, AccessRule, now, stamp);
  }
}
