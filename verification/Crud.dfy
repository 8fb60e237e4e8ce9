/** Disabling and enabling clients. */
module Crud {
  import opened Wrappers
  import opened Text
  import Email
  import opened Calendar
  import opened Limits
  import opened ClientState
  import opened Credentials
  import opened Switching

  /** The tags an operation works on: the one asked for, or all of them. */
  function Selected(e: Entry, tag: Option<string>): (r: Option<set<string>>)
    ensures r.Some? ==> r.value <= e.credentials.Keys
  {
    match tag
    case None => Some(e.credentials.Keys)
    case Some(t) => if t in e.credentials then Some({t}) else None
  }

  // ---- disable ----

  /** The record after disabling the tags in `sel`; the stamp is set once nothing is left enabled. */
  function DisabledEntry(inbounds: seq<Inbound>, name: string, e: Entry, sel: set<string>, stamp: string): Entry {
    var credentials := DisabledCredentials(inbounds, name, e, sel);
    var enabled := AnyEnabled(credentials);
    Sync(e.(credentials := credentials, enabled := enabled,
            disabled := if enabled then e.disabled else e.disabled.(at := stamp)))
  }

  ghost predicate ClientDisabled(s: State, s': State, name: string, tag: Option<string>, stamp: string) {
    && EntryFor(s, name).Some?
    && var e := EntryFor(s, name).value;
       && Selected(e, tag).Some?
       && var sel := Selected(e, tag).value;
          && SameExcept(s.inbounds, s'.inbounds, {name})
          && Cleared(s.inbounds, s'.inbounds, name, sel)
          && s' == State(s'.inbounds, s.connections,
                         s.clients[name := DisabledEntry(s.inbounds, name, e, sel, stamp)])
  }

  /** The tags that were still enabled, in either copy. */
  function StillOn(e: Entry, sel: set<string>, active: set<string>): set<string>
    requires sel <= e.credentials.Keys
  {
    set t | t in sel && (t in active || e.credentials[t].enabled)
  }

  lemma NoneStillOn(e: Entry, sel: set<string>, active: set<string>)
    requires active <= sel <= e.credentials.Keys
    ensures StillOn(e, sel, active) == {} <==> active == {} && forall t | t in sel :: !e.credentials[t].enabled
  {
    if t :| t in sel && (t in active || e.credentials[t].enabled) {
      assert t in StillOn(e, sel, active);
    }
  }

  /** Disables one credential or all; reports the tags that were not disabled before. */
  method DisableClient(config: Config, db: Db, name: string, tag: Option<string>, stamp: string)
      returns (r: Result<set<string>, Error>)
    modifies config, db
    ensures r.Ok? ==> ClientDisabled(old(View(config, db)), View(config, db), name, tag, stamp)
                      && forall t :: t in r.value <==>
                           var e := EntryFor(old(View(config, db)), name).value;
                           t in Selected(e, tag).value && (e.credentials[t].enabled || Items(old(config.inbounds), t, name) != [])
    ensures r.Err? ==> View(config, db) == old(View(config, db))
    ensures r.Err? <==>
              var e := EntryFor(old(View(config, db)), name);
              || e.None?
              || Selected(e.value, tag).None?
              || forall t | t in Selected(e.value, tag).value ::
                   !e.value.credentials[t].enabled && Items(old(config.inbounds), t, name) == []
    ensures r.Err? ==>
              var e := EntryFor(old(View(config, db)), name);
              r.error == if e.None? then ClientNotFound
                         else if Selected(e.value, tag).None? then CredentialNotFound
                         else if e.value.enabled then NotEnabled else AlreadyDisabled
  {
    var found := EntryFor(View(config, db), name);
    if found.None? {
      return Err(ClientNotFound);
    }
    var e := found.value;
    var selected := Selected(e, tag);
    if selected.None? {
      return Err(CredentialNotFound);
    }
    var sel := selected.value;
    var e', active := DisableTags(config, name, e, sel);
    var removed := StillOn(e, sel, active);
    if removed == {} {
      NoneStillOn(e, sel, active);
      return Err(if e.enabled then NotEnabled else AlreadyDisabled);
    }
    var enabled := AnyEnabled(e'.credentials);
    e' := e'.(enabled := enabled, disabled := if enabled then e'.disabled else e'.disabled.(at := stamp));
    db.clients := db.clients[name := Sync(e')];
    NoneStillOn(e, sel, active);
    r := Ok(removed);
  }

  lemma DisabledEntryIsOk(inbounds: seq<Inbound>, name: string, e: Entry, sel: set<string>, stamp: string)
    requires EntryOk(inbounds, name, e)
    ensures EntryOk(inbounds, name, DisabledEntry(inbounds, name, e, sel, stamp))
  {
    var credentials := DisabledCredentials(inbounds, name, e, sel);
    var enabled := AnyEnabled(credentials);
    SyncIdempotent(e.(credentials := credentials, enabled := enabled,
                      disabled := if enabled then e.disabled else e.disabled.(at := stamp)));
    DisabledEntryOk(inbounds, name, e, sel, DisabledEntry(inbounds, name, e, sel, stamp));
  }

  lemma DisableTouches(s: State, s': State, name: string, tag: Option<string>, stamp: string)
    requires ClientDisabled(s, s', name, tag, stamp)
    ensures Touches(s, s', {name})
  {}

  lemma DisableKeeps(s: State, s': State, name: string, tag: Option<string>, stamp: string)
    requires Consistent(s) && ClientDisabled(s, s', name, tag, stamp)
    ensures Consistent(s')
  {
    NobodyToAdopt(s, name);
    var e := s.clients[name];
    var sel := Selected(e, tag).value;
    DisableTouches(s, s', name, tag, stamp);
    DisabledKeeps(s, s', name, e, sel, stamp);
  }

  lemma DisabledKeeps(s: State, s': State, name: string, e: Entry, sel: set<string>, stamp: string)
    requires Consistent(s) && Touches(s, s', {name}) && Record(s, name) == Some(e)
    requires Cleared(s.inbounds, s'.inbounds, name, sel) && sel <= e.credentials.Keys
    requires Record(s', name) == Some(DisabledEntry(s.inbounds, name, e, sel, stamp))
    ensures Consistent(s')
  {
    assert MirrorOf(s, name) && EntryOk(s.inbounds, name, s.clients[name]);
    assert MirrorOf(s', name) by {
      DisabledMirrors(s, s', name, e, sel);
    }
    assert EntryOk(s.inbounds, name, s'.clients[name]) by {
      DisabledEntryIsOk(s.inbounds, name, e, sel, stamp);
    }
    KeepsOne(s, s', name);
  }

  // ---- enable ----

  ghost predicate ClientEnabled(s: State, s': State, name: string, tag: Option<string>, traffic: History, now: Moment)
    requires ValidMoment(now)
  {
    && name in s.clients
    && var e := Sync(s.clients[name]);
       && !AccessExpired(e.expiresAt, now) && !Exceeded(e.limit, traffic, now)
       && Selected(e, tag).Some?
       && Touches(s, s', {name})
       && EnabledIn(s, s', name, e.(disabled := NOT_DISABLED), Selected(e, tag).value)
  }

  lemma DisabledStateFrame(s: State, s': State, name: string, e: Entry, sel: set<string>, d: DisabledState)
    requires EnabledIn(s, s', name, e, sel)
    ensures EnabledIn(s, s'.(clients := s'.clients[name := s'.clients[name].(disabled := d)]), name, e.(disabled := d), sel)
  {
    forall t | t in e.credentials
      ensures Upserted(s.inbounds, name, e.(disabled := d), t) == Upserted(s.inbounds, name, e, t) {
      UpsertedFrame(s.inbounds, s.inbounds, name, e, e.(disabled := d), t);
    }
    assert EnabledCredentials(s.inbounds, name, e.(disabled := d), sel) == EnabledCredentials(s.inbounds, name, e, sel);
  }

  lemma EnabledIsEnabled(s: State, s': State, name: string, e: Entry, sel: set<string>, tag: string)
    requires EnabledIn(s, s', name, e, sel) && tag in sel
    ensures s'.clients[name].enabled
  {
    var credentials := EnabledCredentials(s.inbounds, name, e, sel);
    assert tag in credentials && credentials[tag].enabled;
  }

  /** The record as `normalize_entry_credentials` leaves it in memory. */
  function Normalized(s: State, name: string): State {
    if name in s.clients then s.(clients := s.clients[name := Sync(s.clients[name])]) else s
  }

  /** Exactly when `enable` raises: unknown, access over, limit exceeded, no such credential, something selected that
      cannot be enabled, or nothing selected that needs to be. */
  predicate CannotEnable(s: State, name: string, tag: Option<string>, traffic: History, now: Moment)
    requires ValidMoment(now)
  {
    || name !in s.clients
    || AccessExpired(s.clients[name].expiresAt, now)
    || Exceeded(s.clients[name].limit, traffic, now)
    || Selected(s.clients[name], tag).None?
    || (exists t | t in Selected(s.clients[name], tag).value :: Blocked(s.inbounds, name, s.clients[name], t))
    || (forall t | t in Selected(s.clients[name], tag).value :: !NeedsEnable(s.inbounds, name, s.clients[name], t))
  }

  /** Which error it raises; of several credentials that cannot be enabled, any may be the first. */
  predicate EnableRaises(s: State, name: string, tag: Option<string>, traffic: History, now: Moment, error: Error)
    requires ValidMoment(now)
  {
    if name !in s.clients then error.ClientNotFound?
    else if AccessExpired(s.clients[name].expiresAt, now) then error.AccessOver?
    else if Exceeded(s.clients[name].limit, traffic, now) then error.TrafficExceeded?
    else if Selected(s.clients[name], tag).None? then error.CredentialNotFound?
    else SwitchingRaises(s.inbounds, name, s.clients[name], Selected(s.clients[name], tag).value, error)
  }

  predicate SwitchingRaises(inbounds: seq<Inbound>, name: string, e: Entry, sel: set<string>, error: Error)
    requires sel <= e.credentials.Keys
  {
    if exists t | t in sel :: Blocked(inbounds, name, e, t) then exists t | t in sel :: Raises(inbounds, name, e, t, error)
    else error.AlreadyEnabled? && forall t | t in sel :: !NeedsEnable(inbounds, name, e, t)
  }

  /** Enables one credential or all. A failure half-way leaves both copies enabled as far as it got. */
  method EnableClient(config: Config, db: Db, name: string, tag: Option<string>, traffic: History, now: Moment)
      returns (r: Result<set<string>, Error>)
    requires ValidMoment(now)
    requires name in db.clients ==> OwnEmails(name, db.clients[name])
    modifies config, db
    ensures r.Ok? ==> ClientEnabled(old(View(config, db)), View(config, db), name, tag, traffic, now)
                      && r.value == ToSwitch(old(config.inbounds), name, old(db.clients)[name],
                                             Selected(old(db.clients)[name], tag).value)
    ensures r.Err? <==> CannotEnable(old(View(config, db)), name, tag, traffic, now)
    ensures r.Err? ==> EnableRaises(old(View(config, db)), name, tag, traffic, now, r.error)
    ensures r.Err? ==> View(config, db) == old(View(config, db)) || HalfEnabled(old(View(config, db)), View(config, db), name)
  {
    if name !in db.clients {
      return Err(ClientNotFound);
    }
    var e := db.clients[name];
    if AccessExpired(e.expiresAt, now) {
      return Err(AccessOver);
    }
    if Exceeded(e.limit, traffic, now) {
      return Err(TrafficExceeded);
    }
    var selected := Selected(e, tag);
    if selected.None? {
      return Err(CredentialNotFound);
    }
    r := EnableSelected(config, db, name, selected.value);
  }

  /** Both copies stopped at the same credential. */
  ghost predicate HalfEnabled(s: State, s': State, name: string) {
    && name in s.clients
    && exists done, enabled :: EnabledSoFar(Normalized(s, name), s', name, Sync(s.clients[name]), done, enabled)
  }

  /** The tags that have to be switched. */
  function ToSwitch(inbounds: seq<Inbound>, name: string, e: Entry, sel: set<string>): set<string>
    requires sel <= e.credentials.Keys
  {
    set t | t in sel && NeedsEnable(inbounds, name, e, t)
  }

  /** The part of `enable_client` behind its guards. */
  method EnableSelected(config: Config, db: Db, name: string, sel: set<string>) returns (r: Result<set<string>, Error>)
    requires name in db.clients && OwnEmails(name, db.clients[name]) && sel <= db.clients[name].credentials.Keys
    modifies config, db
    ensures var s, e := old(View(config, db)), old(db.clients)[name];
            && (r.Ok? ==> Touches(s, View(config, db), {name})
                          && EnabledIn(s, View(config, db), name, Sync(e).(disabled := NOT_DISABLED), sel)
                          && r.value == ToSwitch(s.inbounds, name, e, sel))
            && (r.Err? <==> (exists t | t in sel :: Blocked(s.inbounds, name, e, t))
                            || (forall t | t in sel :: !NeedsEnable(s.inbounds, name, e, t)))
            && (r.Err? ==> SwitchingRaises(s.inbounds, name, e, sel, r.error) && HalfEnabled(s, View(config, db), name))
  {
    ghost var s := View(config, db);
    var e := Sync(db.clients[name]);
    SyncIdempotent(s.clients[name]);
    db.clients := db.clients[name := e];
    var error, enabled, done := EnableTags(config, db, name, sel);
    ghost var s1 := View(config, db);
    assert EnabledSoFar(Normalized(s, name), s1, name, e, done, enabled);
    if error.Some? {
      SwitchingStopped(s.inbounds, name, s.clients[name], sel, error.value);
      return Err(error.value);
    }
    SwitchingDone(s, s1, name, s.clients[name], sel, enabled);
    if enabled == {} {
      return Err(AlreadyEnabled);
    }
    FinishEnable(s, s1, name, e, sel, enabled);
    db.clients := db.clients[name := Sync(db.clients[name].(enabled := true, disabled := NOT_DISABLED))];
    r := Ok(enabled);
  }

  /** Synchronising a record does not change what can be enabled. */
  lemma SameBlocked(inbounds: seq<Inbound>, name: string, e: Entry)
    ensures forall t | t in e.credentials ::
              && NeedsEnable(inbounds, name, Sync(e), t) == NeedsEnable(inbounds, name, e, t)
              && Upserted(inbounds, name, Sync(e), t) == Upserted(inbounds, name, e, t)
  {
    forall t | t in e.credentials ensures Upserted(inbounds, name, Sync(e), t) == Upserted(inbounds, name, e, t) {
      UpsertedFrame(inbounds, inbounds, name, e, Sync(e), t);
    }
  }

  lemma SwitchingStopped(inbounds: seq<Inbound>, name: string, e: Entry, sel: set<string>, error: Error)
    requires sel <= e.credentials.Keys && exists t | t in sel :: Raises(inbounds, name, Sync(e), t, error)
    ensures (exists t | t in sel :: Blocked(inbounds, name, e, t)) && SwitchingRaises(inbounds, name, e, sel, error)
  {
    SameBlocked(inbounds, name, e);
    var t :| t in sel && Raises(inbounds, name, Sync(e), t, error);
    assert Raises(inbounds, name, e, t, error) && Blocked(inbounds, name, e, t);
  }

  lemma SwitchingDone(s: State, s1: State, name: string, e: Entry, sel: set<string>, enabled: set<string>)
    requires sel <= e.credentials.Keys && EnabledSoFar(Normalized(s, name), s1, name, Sync(e), sel, enabled)
    ensures enabled == ToSwitch(s.inbounds, name, e, sel)
    ensures !exists t | t in sel :: Blocked(s.inbounds, name, e, t)
    ensures enabled == {} <==> forall t | t in sel :: !NeedsEnable(s.inbounds, name, e, t)
  {
    SameBlocked(s.inbounds, name, e);
    forall t | t in sel ensures !Blocked(s.inbounds, name, e, t) {
      assert Upserted(s.inbounds, name, Sync(e), t) == Upserted(s.inbounds, name, e, t);
    }
    if enabled == {} {
      forall t | t in sel ensures !NeedsEnable(s.inbounds, name, e, t) {
        assert t !in ToSwitch(s.inbounds, name, e, sel);
      }
    }
  }

  /** The stored secret that enabling needs. */
  predicate HasSecret(e: Entry, c: Credential) {
    if c.protocol.Trojan? then ValidPassword(Trim(c.client.password)) else c.client.id != "" || c.id != "" || e.id != ""
  }

  /** In a consistent state a credential is blocked exactly when it is disabled and has no usable secret. */
  lemma BlockedIff(s: State, name: string, t: string)
    requires Consistent(s) && name in s.clients && t in s.clients[name].credentials
    ensures var c := s.clients[name].credentials[t];
            && (NeedsEnable(s.inbounds, name, s.clients[name], t) <==> !c.enabled)
            && (Blocked(s.inbounds, name, s.clients[name], t) <==> !c.enabled && !HasSecret(s.clients[name], c))
  {
    assert MirrorOf(s, name) && MirrorAt(s, name, t);
    assert EntryOk(s.inbounds, name, s.clients[name]);
    assert CredentialOk(s.inbounds, name, t, s.clients[name].credentials[t]);
  }

  predicate Asked(tag: Option<string>, t: string) {
    tag.None? || tag.value == t
  }

  lemma SelectedIff(e: Entry, tag: Option<string>)
    requires Selected(e, tag).Some?
    ensures forall t :: t in Selected(e, tag).value <==> t in e.credentials && Asked(tag, t)
  {}

  /** Exactly when a consistent client can be enabled: access open, under the limit, and among the credentials asked
      for there is a disabled one and every disabled one has a usable secret. */
  lemma EnablesIff(s: State, name: string, tag: Option<string>, traffic: History, now: Moment)
    requires ValidMoment(now) && Consistent(s) && name in s.clients
    ensures var e := s.clients[name];
            !CannotEnable(s, name, tag, traffic, now) <==>
              && !AccessExpired(e.expiresAt, now) && !Exceeded(e.limit, traffic, now)
              && (exists t | t in e.credentials :: Asked(tag, t) && !e.credentials[t].enabled)
              && (forall t | t in e.credentials && Asked(tag, t) && !e.credentials[t].enabled ::
                    HasSecret(e, e.credentials[t]))
  {
    var e := s.clients[name];
    if Selected(e, tag).Some? {
      SelectedIff(e, tag);
      SwitchableIff(s, name, Selected(e, tag).value);
    }
  }

  lemma SwitchableIff(s: State, name: string, sel: set<string>)
    requires Consistent(s) && name in s.clients && sel <= s.clients[name].credentials.Keys
    ensures var e := s.clients[name];
            && ((exists t | t in sel :: Blocked(s.inbounds, name, e, t))
                <==> exists t | t in sel :: !e.credentials[t].enabled && !HasSecret(e, e.credentials[t]))
            && ((forall t | t in sel :: !NeedsEnable(s.inbounds, name, e, t)) <==> forall t | t in sel :: e.credentials[t].enabled)
  {
    forall t | t in sel
      ensures NeedsEnable(s.inbounds, name, s.clients[name], t) <==> !s.clients[name].credentials[t].enabled
      ensures Blocked(s.inbounds, name, s.clients[name], t)
              <==> !s.clients[name].credentials[t].enabled && !HasSecret(s.clients[name], s.clients[name].credentials[t])
    {
      BlockedIff(s, name, t);
    }
  }

  lemma FinishEnable(s: State, s1: State, name: string, e: Entry, sel: set<string>, enabled: set<string>)
    requires name in s.clients && e == Sync(s.clients[name])
    requires EnabledSoFar(Normalized(s, name), s1, name, e, sel, enabled) && enabled != {}
    ensures var e' := Sync(s1.clients[name].(enabled := true, disabled := NOT_DISABLED));
            var s' := s1.(clients := s1.clients[name := e']);
            Touches(s, s', {name}) && EnabledIn(s, s', name, e.(disabled := NOT_DISABLED), sel)
  {
    var n := Normalized(s, name);
    var tag :| tag in enabled;
    EnabledIsEnabled(n, s1, name, e, sel, tag);
    DisabledStateFrame(n, s1, name, e, sel, NOT_DISABLED);
    SyncIdempotent(e.(credentials := EnabledCredentials(n.inbounds, name, e, sel)));
    assert Sync(s1.clients[name].(enabled := true, disabled := NOT_DISABLED))
        == s1.clients[name].(disabled := NOT_DISABLED);
  }

  lemma EnableKeeps(s: State, s': State, name: string, tag: Option<string>, traffic: History, now: Moment)
    requires ValidMoment(now) && Consistent(s) && ClientEnabled(s, s', name, tag, traffic, now)
    ensures Consistent(s')
  {
    var e := s.clients[name].(disabled := NOT_DISABLED);
    EnabledInKeeps(s, s', name, e, Selected(s.clients[name], tag).value);
  }

  lemma EnabledInKeeps(s: State, s': State, name: string, e: Entry, sel: set<string>)
    requires Consistent(s) && Touches(s, s', {name}) && name in s.clients
    requires s.clients[name].credentials == e.credentials && EnabledIn(s, s', name, e, sel)
    ensures Consistent(s')
  {
    assert MirrorOf(s, name) && EntryOk(s.inbounds, name, s.clients[name]);
    assert MirrorOf(s', name) by {
      EnabledMirrors(s, s', name, e, sel);
    }
    assert EntryOk(s.inbounds, name, s'.clients[name]) by {
      SyncIdempotent(e.(credentials := EnabledCredentials(s.inbounds, name, e, sel)));
      EnabledEntryOk(s.inbounds, name, s.clients[name], e, sel, s'.clients[name]);
    }
    KeepsOne(s, s', name);
  }

  /** Even a failed `enable` keeps the copies in memory consistent. */
  lemma FailedEnableKeeps(s: State, s': State, name: string, done: set<string>, enabled: set<string>)
    requires Consistent(s) && name in s.clients
    requires EnabledSoFar(Normalized(s, name), s', name, Sync(s.clients[name]), done, enabled)
    ensures Consistent(s')
  {
    NormalizedAlready(s, name);
    EnabledInKeeps(s, s', name, s.clients[name], done);
  }

  lemma NormalizedAlready(s: State, name: string)
    requires WellFormed(s)
    ensures Normalized(s, name) == s
    ensures name in s.clients ==> Sync(s.clients[name]) == s.clients[name]
  {
    if name in s.clients {
      assert EntryOk(s.inbounds, name, s.clients[name]);
      assert s.clients[name := s.clients[name]] == s.clients;
    }
  }
}
