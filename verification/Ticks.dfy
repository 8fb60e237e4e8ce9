/** What enforcement achieves: after one run, after two runs, and over any run of ticks. */
module Ticks {
  import opened Wrappers
  import opened Calendar
  import opened Limits
  import opened ClientState
  import opened Switching
  import opened Policy
  import opened Enforcement

  lemma EnabledAgainKeeps(s: State, s': State, n: string)
    requires Consistent(s) && EnabledAgain(s, s', n)
    ensures n in s'.clients && MirrorOf(s', n) && EntryOk(s.inbounds, n, s'.clients[n])
  {
    PolicyEnabledKeeps(s, s', n, s.clients[n]);
  }

  lemma DisabledForKeeps(s: State, s': State, n: string, rule: Rule, now: Moment, stamp: string)
    requires Consistent(s) && ValidMoment(now) && DisabledFor(s, s', n, rule, now, stamp)
    ensures n in s'.clients && MirrorOf(s', n) && EntryOk(s.inbounds, n, s'.clients[n])
  {
    PolicyDisabledKeeps(s, s', n, s.clients[n], Mark(rule, s.clients[n], n, now, stamp));
  }

  lemma EnforceKeeps(s: State, s': State, traffic: Traffic, now: Moment, stamp: string,
                     reactivated: set<string>, due: set<string>)
    requires Consistent(s) && ValidMoment(now) && Enforced(s, s', traffic, now, stamp, reactivated, due)
    ensures Consistent(s')
  {
    forall n | n in reactivated + due ensures MirrorOf(s', n) && EntryOk(s.inbounds, n, s'.clients[n]) {
      if n in reactivated {
        EnabledAgainKeeps(s, s', n);
      } else {
        DisabledForKeeps(s, s', n, TrafficRule(traffic), now, stamp);
      }
    }
    ConsistentFrame(s, s', reactivated + due);
  }

  lemma ExpireKeeps(s: State, s': State, now: Moment, stamp: string, due: set<string>)
    requires Consistent(s) && ValidMoment(now) && Expired(s, s', now, stamp, due)
    ensures Consistent(s')
  {
    forall n | n in due ensures MirrorOf(s', n) && EntryOk(s.inbounds, n, s'.clients[n]) {
      DisabledForKeeps(s, s', n, AccessRule, now, stamp);
    }
    ConsistentFrame(s, s', due);
  }

  lemma DistinctAfter(s: State, s': State, names: set<string>)
    requires DistinctTags(s.inbounds) && Touches(s, s', names)
    ensures DistinctTags(s'.inbounds)
  {
    ShapeOf(s.inbounds, s'.inbounds, names);
    DistinctFrame(s.inbounds, s'.inbounds);
  }

  lemma DueGoesInactive(s: State, s': State, n: string, rule: Rule, now: Moment, stamp: string)
    requires Consistent(s) && ValidMoment(now) && DisabledFor(s, s', n, rule, now, stamp) && DistinctTags(s'.inbounds)
    ensures !Active(s'.inbounds, n)
  {
    PolicyDisabledIsInactive(s, s', n, Mark(rule, s.clients[n], n, now, stamp));
  }

  /** Nobody is re-enabled and disabled in one run. */
  lemma ReturningIsNotDue(s: State, name: string, traffic: Traffic, now: Moment)
    requires ValidMoment(now)
    ensures !(Returns(s, name, traffic, now) && Due(s, name, TrafficRule(traffic), now))
  {}

  /** Afterwards no recorded client that is active in a managed inbound is over its limit. */
  lemma NobodyOverLimit(s: State, s': State, traffic: Traffic, now: Moment, stamp: string,
                        reactivated: set<string>, due: set<string>, name: string)
    requires Consistent(s) && ValidMoment(now) && Enforced(s, s', traffic, now, stamp, reactivated, due)
    ensures !Due(s', name, TrafficRule(traffic), now)
  {
    DistinctAfter(s, s', reactivated + due);
    if name in due {
      DueGoesInactive(s, s', name, TrafficRule(traffic), now, stamp);
    } else if name in reactivated {
      assert EnabledAgain(s, s', name);
      KeepsLimit(s, s', name, s.clients[name]);
    } else {
      assert Record(s', name) == Record(s, name);
      ActiveFrame(s.inbounds, s'.inbounds, reactivated + due, name);
    }
  }

  /** Nobody could be re-enabled a second time. */
  lemma NobodyReturnsTwice(s: State, s': State, traffic: Traffic, now: Moment, stamp: string,
                           reactivated: set<string>, due: set<string>, name: string)
    requires Consistent(s) && ValidMoment(now) && Enforced(s, s', traffic, now, stamp, reactivated, due)
    ensures !Returns(s', name, traffic, now)
  {
    if name in due {
      assert DisabledFor(s, s', name, TrafficRule(traffic), now, stamp);
    } else if name in reactivated {
      assert EnabledAgain(s, s', name);
      ReturnedIsEnabled(s, s', name);
    } else {
      assert Record(s', name) == Record(s, name);
    }
  }

  lemma ReturnedIsEnabled(s: State, s': State, name: string)
    requires EnabledAgain(s, s', name)
    ensures s'.clients[name].enabled && s'.clients[name].disabled == NOT_DISABLED
  {
    AllEnabled(s, name, Reopened(s.clients[name]));
  }

  /** A second run at the same time and traffic changes nothing and reports nothing. */
  lemma EnforceTwice(s: State, s1: State, s2: State, traffic: Traffic, now: Moment, stamp: string, stamp2: string,
                     back1: set<string>, due1: set<string>, back2: set<string>, due2: set<string>)
    requires Consistent(s) && ValidMoment(now)
    requires Enforced(s, s1, traffic, now, stamp, back1, due1) && Enforced(s1, s2, traffic, now, stamp2, back2, due2)
    ensures back2 == {} && due2 == {} && s2 == s1
  {
    forall n ensures n !in back2 && n !in due2 {
      NobodyReturnsTwice(s, s1, traffic, now, stamp, back1, due1, n);
      NobodyOverLimit(s, s1, traffic, now, stamp, back1, due1, n);
    }
  }

  /** Nor can the second run raise. */
  lemma SecondRunSucceeds(s: State, s': State, traffic: Traffic, now: Moment, stamp: string,
                          reactivated: set<string>, due: set<string>)
    requires Consistent(s) && ValidMoment(now) && Enforced(s, s', traffic, now, stamp, reactivated, due)
    ensures !exists n :: CannotReturn(s', n, traffic, now)
  {
    forall n ensures !CannotReturn(s', n, traffic, now) {
      NobodyReturnsTwice(s, s', traffic, now, stamp, reactivated, due, n);
    }
  }

  /** Afterwards nobody whose access is over is active. */
  lemma NobodyExpired(s: State, s': State, now: Moment, stamp: string, due: set<string>, name: string)
    requires Consistent(s) && ValidMoment(now) && Expired(s, s', now, stamp, due)
    ensures !Due(s', name, AccessRule, now)
  {
    DistinctAfter(s, s', due);
    if name in due {
      DueGoesInactive(s, s', name, AccessRule, now, stamp);
    } else {
      assert Record(s', name) == Record(s, name);
      ActiveFrame(s.inbounds, s'.inbounds, due, name);
    }
  }

  // ---- runs of ticks ----

  /** One enforcement tick: it either succeeds, or raises and nothing is saved. */
  ghost predicate Tick(s: State, s': State, traffic: Traffic, now: Moment)
    requires ValidMoment(now)
  {
    if exists n :: CannotReturn(s, n, traffic, now) then s' == s
    else exists stamp, reactivated, due :: Enforced(s, s', traffic, now, stamp, reactivated, due)
  }

  /** A run of ticks: times do not go back, traffic is whatever was recorded by then. */
  ghost predicate TickRun(states: seq<State>, traffics: seq<Traffic>, times: seq<Moment>) {
    && |states| == |traffics| + 1 == |times| + 1
    && (forall i | 0 <= i < |times| :: ValidMoment(times[i]))
    && (forall i, j | 0 <= i < j < |times| :: MomentLe(times[i], times[j]))
    && forall i | 0 <= i < |times| :: Tick(states[i], states[i + 1], traffics[i], times[i])
  }

  /** A tick changes only clients that return or are due, and those only as described. */
  lemma TickCases(s: State, s': State, traffic: Traffic, now: Moment, name: string)
    requires ValidMoment(now) && Tick(s, s', traffic, now) && name in s.clients
    ensures if Record(s', name) == Record(s, name) then true
            else if Returns(s, name, traffic, now) then s'.clients[name].enabled
            else Due(s, name, TrafficRule(traffic), now)
    ensures Returns(s, name, traffic, now) && !(exists n :: CannotReturn(s, n, traffic, now)) ==>
              EnabledAgain(s, s', name)
    ensures Record(s', name).Some?
  {
    if !exists n :: CannotReturn(s, n, traffic, now) {
      var stamp, reactivated, due :| Enforced(s, s', traffic, now, stamp, reactivated, due);
      if name in reactivated {
        assert EnabledAgain(s, s', name);
        ReturnedIsEnabled(s, s', name);
      } else if name in due {
        assert DisabledFor(s, s', name, TrafficRule(traffic), now, stamp);
      } else {
        assert Record(s', name) == Record(s, name);
      }
    }
  }

  lemma TickKeeps(s: State, s': State, traffic: Traffic, now: Moment)
    requires Consistent(s) && ValidMoment(now) && Tick(s, s', traffic, now)
    ensures Consistent(s')
  {
    if !exists n :: CannotReturn(s, n, traffic, now) {
      var stamp, reactivated, due :| Enforced(s, s', traffic, now, stamp, reactivated, due);
      EnforceKeeps(s, s', traffic, now, stamp, reactivated, due);
    }
  }

  /** A record as a tick at `at` leaves it when the client was over its limit. */
  predicate DisabledAtTick(e: Entry, limit: Limit, at: Moment)
    requires ValidMoment(at)
  {
    && !e.enabled && limit.bytes > 0 && e.limit == Some(limit)
    && e.disabled.reason.TrafficLimitReached?
    && e.disabled.exceededPeriod == Some(Key(limit.period, at))
    && e.disabled.resetAt == Some(ResetTime(limit.period, at))
  }

  lemma DueIsDisabledAtTick(s: State, s': State, traffic: Traffic, now: Moment, stamp: string, name: string)
    requires Consistent(s) && ValidMoment(now) && DisabledFor(s, s', name, TrafficRule(traffic), now, stamp)
    ensures DisabledAtTick(s'.clients[name], s.clients[name].limit.value, now)
  {
    assert EntryOk(s.inbounds, name, s.clients[name]);
    AllOff(s.inbounds, name, s.clients[name]);
  }

  lemma AllOff(inbounds: seq<Inbound>, name: string, e: Entry)
    requires e.credentials != map[]
    ensures var credentials := DisabledCredentials(inbounds, name, e, e.credentials.Keys);
            credentials != map[] && !AnyEnabled(credentials)
  {
    var k :| k in e.credentials;
    assert k in DisabledCredentials(inbounds, name, e, e.credentials.Keys);
  }

  /** Until the reset a disabled client cannot return; from the reset on only its usage and its access decide. */
  lemma ReturnsFromReset(s: State, name: string, limit: Limit, at: Moment, traffic: Traffic, now: Moment)
    requires ValidMoment(at) && ValidMoment(now) && MomentLe(at, now)
    requires name in s.clients && DisabledAtTick(s.clients[name], limit, at)
    ensures Returns(s, name, traffic, now) <==>
              && MomentLe(ResetTime(limit.period, at), now)
              && Usage(TrafficOf(traffic, name), limit.period, now) < limit.bytes
              && !AccessExpired(s.clients[name].expiresAt, now)
  {
    ResetExact(limit.period, at, now);
  }

  /** When the client may come back at a tick. */
  predicate MayReturn(e: Entry, name: string, limit: Limit, at: Moment, traffic: Traffic, now: Moment)
    requires ValidMoment(at) && ValidMoment(now)
  {
    && MomentLe(ResetTime(limit.period, at), now)
    && Usage(TrafficOf(traffic, name), limit.period, now) < limit.bytes
    && !AccessExpired(e.expiresAt, now)
  }

  lemma {:induction false} TickRunKeeps(states: seq<State>, traffics: seq<Traffic>, times: seq<Moment>, k: nat)
    requires TickRun(states, traffics, times) && Consistent(states[0]) && k <= |times|
    ensures Consistent(states[k])
  {
    if k > 0 {
      var i := k - 1;
      TickRunKeeps(states, traffics, times, i);
      TickKeeps(states[i], states[i + 1], traffics[i], times[i]);
    }
  }

  /** Over any run of ticks a client disabled for traffic stays exactly as it is until the first tick, at or after
      the reset, at which it is under its limit and not expired. */
  lemma DisabledUntilReset(states: seq<State>, traffics: seq<Traffic>, times: seq<Moment>,
                           name: string, e: Entry, limit: Limit, at: Moment, k: nat)
    requires TickRun(states, traffics, times) && Consistent(states[0]) && k <= |times|
    requires ValidMoment(at) && forall i | 0 <= i < |times| :: MomentLe(at, times[i])
    requires Record(states[0], name) == Some(e) && DisabledAtTick(e, limit, at)
    requires forall i | 0 <= i < k :: !MayReturn(e, name, limit, at, traffics[i], times[i])
    ensures Record(states[k], name) == Some(e)
  {
    forall i | 0 <= i < k && Record(states[i], name) == Some(e) ensures Record(states[i + 1], name) == Some(e) {
      StaysAt(states, traffics, times, name, e, limit, at, i);
    }
    Persists(states, name, e, k);
  }

  lemma {:induction false} Persists(states: seq<State>, name: string, e: Entry, k: nat)
    requires k < |states| && Record(states[0], name) == Some(e)
    requires forall i | 0 <= i < k && Record(states[i], name) == Some(e) :: Record(states[i + 1], name) == Some(e)
    ensures Record(states[k], name) == Some(e)
  {
    if k > 0 {
      var i := k - 1;
      Persists(states, name, e, i);
      assert Record(states[i + 1], name) == Some(e);
    }
  }

  lemma StaysAt(states: seq<State>, traffics: seq<Traffic>, times: seq<Moment>,
                name: string, e: Entry, limit: Limit, at: Moment, i: nat)
    requires TickRun(states, traffics, times) && Consistent(states[0]) && i < |times|
    requires ValidMoment(at) && MomentLe(at, times[i])
    requires Record(states[i], name) == Some(e) && DisabledAtTick(e, limit, at)
    requires !MayReturn(e, name, limit, at, traffics[i], times[i])
    ensures Record(states[i + 1], name) == Some(e)
  {
    TickRunKeeps(states, traffics, times, i);
    StaysDisabled(states[i], states[i + 1], traffics[i], times[i], name, limit, at);
  }

  lemma StaysDisabled(s: State, s': State, traffic: Traffic, now: Moment, name: string, limit: Limit, at: Moment)
    requires Consistent(s) && ValidMoment(at) && ValidMoment(now) && MomentLe(at, now) && Tick(s, s', traffic, now)
    requires name in s.clients && DisabledAtTick(s.clients[name], limit, at)
    requires !MayReturn(s.clients[name], name, limit, at, traffic, now)
    ensures Record(s', name) == Record(s, name)
  {
    TickCases(s, s', traffic, now, name);
    ReturnsFromReset(s, name, limit, at, traffic, now);
    ActiveIsEnabled(s, name);
  }

  /** At that first tick, unless it raises, every credential of the client is live again. */
  lemma EnabledAtFirstChance(states: seq<State>, traffics: seq<Traffic>, times: seq<Moment>,
                             name: string, e: Entry, limit: Limit, at: Moment, k: nat)
    requires TickRun(states, traffics, times) && Consistent(states[0]) && k < |times|
    requires ValidMoment(at) && forall i | 0 <= i < |times| :: MomentLe(at, times[i])
    requires Record(states[0], name) == Some(e) && DisabledAtTick(e, limit, at)
    requires forall i | 0 <= i < k :: !MayReturn(e, name, limit, at, traffics[i], times[i])
    requires MayReturn(e, name, limit, at, traffics[k], times[k])
    requires !exists n :: CannotReturn(states[k], n, traffics[k], times[k])
    ensures BackInService(states[k + 1], name)
  {
    DisabledUntilReset(states, traffics, times, name, e, limit, at, k);
    ReturnsFromReset(states[k], name, limit, at, traffics[k], times[k]);
    TickCases(states[k], states[k + 1], traffics[k], times[k], name);
    ReturnedIsBack(states[k], states[k + 1], name);
  }

  /** Every credential is enabled and nothing marks the client as disabled. */
  predicate BackInService(s: State, name: string) {
    && name in s.clients && s.clients[name].enabled && s.clients[name].disabled == NOT_DISABLED
    && forall t | t in s.clients[name].credentials :: Enabled(s, name, t)
  }

  lemma ReturnedIsBack(s: State, s': State, name: string)
    requires EnabledAgain(s, s', name)
    ensures BackInService(s', name)
  {
    ReturnedIsEnabled(s, s', name);
    AllEnabled(s, name, Reopened(s.clients[name]));
  }
}
