/** The access and traffic policy: disabling and re-enabling whole clients. */
module Policy {
  import opened Wrappers
  import opened Text
  import opened Calendar
  import opened Limits
  import opened ClientState
  import opened Credentials
  import opened Switching
  import opened Crud

  /** Recorded traffic by client name. */
  type Traffic = map<string, History>

  function TrafficOf(traffic: Traffic, name: string): History {
    if name in traffic then traffic[name] else map[]
  }

  function StatusOf(e: Entry, traffic: Traffic, name: string, now: Moment): Option<Status>
    requires ValidMoment(now)
  {
    TrafficLimitStatus(e.limit, TrafficOf(traffic, name), now)
  }

  predicate OverLimit(e: Entry, traffic: Traffic, name: string, now: Moment)
    requires ValidMoment(now)
  {
    Exceeded(e.limit, TrafficOf(traffic, name), now)
  }

  /** Nothing about a client differs between two states. */
  ghost predicate SameFor(s: State, s': State, name: string) {
    Record(s', name) == Record(s, name) && forall t :: Items(s'.inbounds, t, name) == Items(s.inbounds, t, name)
  }

  lemma TouchesOthers(s: State, s': State, names: set<string>, name: string)
    requires Touches(s, s', names) && name !in names
    ensures SameFor(s, s', name)
  {
    forall t ensures Items(s'.inbounds, t, name) == Items(s.inbounds, t, name) {
      ItemsFrame(s.inbounds, s'.inbounds, names, t, name);
    }
  }

  // ---- disabling a whole client ----

  /** `disabled_entry_for_policy`, with the reason filled in. */
  function PolicyEntry(inbounds: seq<Inbound>, name: string, e: Entry, d: DisabledState): Entry {
    Sync(e.(credentials := DisabledCredentials(inbounds, name, e, e.credentials.Keys), enabled := false)).(disabled := d)
  }

  /** The client has lost every item under its credentials and its record says why. */
  ghost predicate PolicyDisabled(s: State, s': State, name: string, e: Entry, d: DisabledState) {
    && Record(s', name) == Some(PolicyEntry(s.inbounds, name, e, d))
    && Cleared(s.inbounds, s'.inbounds, name, e.credentials.Keys)
  }

  lemma PolicyEntryFrame(a: seq<Inbound>, b: seq<Inbound>, name: string, e: Entry, d: DisabledState)
    requires forall t :: Items(b, t, name) == Items(a, t, name)
    ensures PolicyEntry(b, name, e, d) == PolicyEntry(a, name, e, d)
  {
    forall t | t in e.credentials ensures DisabledCredential(b, name, e, t) == DisabledCredential(a, name, e, t) {
      assert Items(b, t, name) == Items(a, t, name);
    }
    SameDisabled(a, b, name, e, e);
  }

  lemma SameDisabled(a: seq<Inbound>, b: seq<Inbound>, name: string, e: Entry, r: Entry)
    requires r.credentials == e.credentials
    requires forall t | t in e.credentials :: DisabledCredential(b, name, r, t) == DisabledCredential(a, name, e, t)
    ensures DisabledCredentials(a, name, e, e.credentials.Keys) == DisabledCredentials(b, name, r, r.credentials.Keys)
  {}

  method DisableForPolicy(config: Config, db: Db, name: string, e: Entry, d: DisabledState)
    modifies config, db
    ensures Touches(old(View(config, db)), View(config, db), {name})
    ensures PolicyDisabled(old(View(config, db)), View(config, db), name, e, d)
  {
    var e', active := DisableTags(config, name, e, e.credentials.Keys);
    db.clients := db.clients[name := Sync(e'.(enabled := false)).(disabled := d)];
  }

  lemma PolicyDisabledKeeps(s: State, s': State, name: string, e: Entry, d: DisabledState)
    requires Consistent(s) && name in s.clients && s.clients[name].credentials == e.credentials && s.clients[name].id == e.id
    requires PolicyDisabled(s, s', name, e, d)
    ensures MirrorOf(s', name) && EntryOk(s.inbounds, name, s'.clients[name])
  {
    var known := s.clients[name];
    SameDisabled(s.inbounds, s.inbounds, name, known, e);
    assert MirrorOf(s', name) by {
      assert MirrorOf(s, name);
      DisabledMirrors(s, s', name, known, e.credentials.Keys);
    }
    assert EntryOk(s.inbounds, name, known);
    PolicyEntryOk(s.inbounds, name, known, e, d);
  }

  lemma PolicyEntryOk(inbounds: seq<Inbound>, name: string, known: Entry, e: Entry, d: DisabledState)
    requires EntryOk(inbounds, name, known) && known.credentials == e.credentials && known.id == e.id
    ensures EntryOk(inbounds, name, PolicyEntry(inbounds, name, e, d))
  {
    SameDisabled(inbounds, inbounds, name, known, e);
    SyncIdempotent(e.(credentials := DisabledCredentials(inbounds, name, e, e.credentials.Keys), enabled := false));
    DisabledEntryOk(inbounds, name, known, e.credentials.Keys, PolicyEntry(inbounds, name, e, d));
  }

  // ---- enabling a whole client ----

  /** The record that the policy enables: no longer marked as disabled. */
  function Reopened(e: Entry): Entry {
    Sync(e).(enabled := true, disabled := NOT_DISABLED)
  }

  /** Every credential of the client is enabled and has its item. */
  ghost predicate PolicyEnabled(s: State, s': State, name: string, e: Entry) {
    EnabledIn(s, s', name, Reopened(e), e.credentials.Keys)
  }

  /** `enable_db_client` would raise. */
  predicate Stuck(inbounds: seq<Inbound>, name: string, e: Entry) {
    exists t | t in e.credentials :: Blocked(inbounds, name, Sync(e), t)
  }

  /** A consistent client is stuck exactly when one of its disabled credentials has no usable secret. */
  lemma StuckIff(s: State, name: string)
    requires Consistent(s) && name in s.clients
    ensures var e := s.clients[name];
            Stuck(s.inbounds, name, e) <==>
              exists t | t in e.credentials :: !e.credentials[t].enabled && !HasSecret(e, e.credentials[t])
  {
    var e := s.clients[name];
    assert EntryOk(s.inbounds, name, e);
    forall t | t in e.credentials
      ensures Blocked(s.inbounds, name, Sync(e), t) <==> !e.credentials[t].enabled && !HasSecret(e, e.credentials[t])
    {
      BlockedIff(s, name, t);
    }
  }

  lemma HalfEnabledKeeps(s: State, s': State, name: string)
    requires Consistent(s) && HalfEnabled(s, s', name)
    ensures Consistent(s')
  {
    var done, enabled :| EnabledSoFar(Normalized(s, name), s', name, Sync(s.clients[name]), done, enabled);
    FailedEnableKeeps(s, s', name, done, enabled);
  }

  method EnableForPolicy(config: Config, db: Db, name: string) returns (error: Option<Error>)
    requires name in db.clients && OwnEmails(name, db.clients[name])
    modifies config, db
    ensures Touches(old(View(config, db)), View(config, db), {name})
    ensures error.None? ==> PolicyEnabled(old(View(config, db)), View(config, db), name, old(db.clients)[name])
    ensures error.Some? <==> Stuck(old(config.inbounds), name, old(db.clients)[name])
    ensures error.Some? ==> HalfEnabled(old(View(config, db)), View(config, db), name)
  {
    ghost var s := View(config, db);
    ghost var e0 := db.clients[name];
    var e := Sync(db.clients[name]);
    SyncIdempotent(db.clients[name]);
    db.clients := db.clients[name := e];
    ghost var n := View(config, db);
    var enabled;
    ghost var done;
    error, enabled, done := EnableTags(config, db, name, e.credentials.Keys);
    if error.Some? {
      assert EnabledSoFar(Normalized(s, name), View(config, db), name, e, done, enabled);
      return;
    }
    ghost var s1 := View(config, db);
    ReopenDone(s, n, s1, name, e);
    db.clients := db.clients[name := db.clients[name].(enabled := true, disabled := NOT_DISABLED)];
  }

  lemma ReopenDone(s: State, n: State, s1: State, name: string, e: Entry)
    requires name in s.clients && e == Sync(s.clients[name]) && n == s.(clients := s.clients[name := e])
    requires EnabledIn(n, s1, name, e, e.credentials.Keys)
    ensures var s' := s1.(clients := s1.clients[name := s1.clients[name].(enabled := true, disabled := NOT_DISABLED)]);
            PolicyEnabled(s, s', name, s.clients[name])
    ensures !Stuck(s.inbounds, name, s.clients[name])
  {
    var s' := s1.(clients := s1.clients[name := s1.clients[name].(enabled := true, disabled := NOT_DISABLED)]);
    AllEnabled(s, name, e);
    SameRefl(s.inbounds);
    EnabledTransfer(s, n, s1, s', name, e, Reopened(s.clients[name]), e.credentials.Keys);
  }

  lemma SameRefl(inbounds: seq<Inbound>)
    ensures SameShape(inbounds, inbounds)
  {}

  /** What enabling writes depends on the credentials, the id and the creation stamp of the record, and on the
      client's own items. */
  lemma EnabledFrame(a: seq<Inbound>, b: seq<Inbound>, name: string, e: Entry, r: Entry, t: string)
    requires SameShape(a, b) && Items(b, t, name) == Items(a, t, name) && t in e.credentials
    requires r.credentials == e.credentials && r.id == e.id && r.created == e.created
    ensures NeedsEnable(b, name, r, t) == NeedsEnable(a, name, e, t)
    ensures Upserted(b, name, r, t) == Upserted(a, name, e, t)
    ensures EnabledCredential(b, name, r, t) == EnabledCredential(a, name, e, t)
  {
    UpsertedFrame(a, b, name, e, r, t);
  }

  lemma EnabledCredentialsFrame(a: seq<Inbound>, b: seq<Inbound>, name: string, e: Entry, r: Entry, sel: set<string>)
    requires SameShape(a, b) && forall t :: Items(b, t, name) == Items(a, t, name)
    requires r.credentials == e.credentials && r.id == e.id && r.created == e.created
    ensures EnabledCredentials(b, name, r, sel) == EnabledCredentials(a, name, e, sel)
  {
    forall t | t in e.credentials ensures EnabledCredential(b, name, r, t) == EnabledCredential(a, name, e, t) {
      EnabledFrame(a, b, name, e, r, t);
    }
  }

  lemma EnabledItemsFrame(a: seq<Inbound>, b: seq<Inbound>, name: string, e: Entry, r: Entry, sel: set<string>, t: string)
    requires SameShape(a, b) && Items(b, t, name) == Items(a, t, name)
    requires r.credentials == e.credentials && r.id == e.id && r.created == e.created
    ensures EnabledItems(b, name, r, sel, t) == EnabledItems(a, name, e, sel, t)
  {
    if t in e.credentials {
      EnabledFrame(a, b, name, e, r, t);
    }
  }

  lemma EnabledTransfer(s: State, c: State, s1: State, s': State, name: string, e: Entry, r: Entry, sel: set<string>)
    requires SameShape(s.inbounds, c.inbounds) && forall t :: Items(c.inbounds, t, name) == Items(s.inbounds, t, name)
    requires r.credentials == e.credentials && r.id == e.id && r.created == e.created
    requires EnabledIn(c, s1, name, e, sel)
    requires forall t :: Items(s'.inbounds, t, name) == Items(s1.inbounds, t, name)
    requires Record(s', name) == Some(Sync(r.(credentials := EnabledCredentials(c.inbounds, name, e, sel))))
    ensures EnabledIn(s, s', name, r, sel)
  {
    EnabledCredentialsFrame(s.inbounds, c.inbounds, name, r, e, sel);
    forall t ensures EnabledItems(c.inbounds, name, e, sel, t) == EnabledItems(s.inbounds, name, r, sel, t) {
      EnabledItemsFrame(s.inbounds, c.inbounds, name, r, e, sel, t);
    }
    forall t | t in sel
      ensures NeedsEnable(s.inbounds, name, r, t) ==> Upserted(s.inbounds, name, r, t).Ok? {
      EnabledFrame(s.inbounds, c.inbounds, name, r, e, t);
    }
  }

  lemma AllEnabled(s: State, name: string, e: Entry)
    requires forall t | t in e.credentials :: NeedsEnable(s.inbounds, name, e, t) ==> Upserted(s.inbounds, name, e, t).Ok?
    ensures var credentials := EnabledCredentials(s.inbounds, name, e, e.credentials.Keys);
            && (credentials == map[] <==> e.credentials == map[])
            && (forall t | t in credentials :: credentials[t].enabled)
            && (credentials != map[] ==> AnyEnabled(credentials))
  {
    var credentials := EnabledCredentials(s.inbounds, name, e, e.credentials.Keys);
    if t :| t in e.credentials {
      assert t in credentials && credentials[t].enabled;
    }
  }

  lemma PolicyEnabledKeeps(s: State, s': State, name: string, e: Entry)
    requires Consistent(s) && name in s.clients && s.clients[name].credentials == e.credentials
    requires PolicyEnabled(s, s', name, e)
    ensures MirrorOf(s', name) && EntryOk(s.inbounds, name, s'.clients[name])
  {
    var r := Reopened(e);
    assert EntryOk(s.inbounds, name, s.clients[name]) && MirrorOf(s, name);
    EnabledMirrors(s, s', name, r, e.credentials.Keys);
    SyncIdempotent(r.(credentials := EnabledCredentials(s.inbounds, name, r, e.credentials.Keys)));
    EnabledEntryOk(s.inbounds, name, s.clients[name], r, e.credentials.Keys, s'.clients[name]);
  }

  // ---- one client at a time ----

  /** A step on one client may start from any state that looks the same to that client. */
  lemma EnabledFrom(s: State, c: State, s': State, name: string, e: Entry)
    requires SameFor(s, c, name) && SameShape(s.inbounds, c.inbounds) && PolicyEnabled(c, s', name, e)
    ensures PolicyEnabled(s, s', name, e)
  {
    EnabledTransfer(s, c, s', s', name, Reopened(e), Reopened(e), e.credentials.Keys);
  }

  lemma EnabledTo(s: State, c: State, s': State, name: string, e: Entry)
    requires SameFor(c, s', name) && PolicyEnabled(s, c, name, e)
    ensures PolicyEnabled(s, s', name, e)
  {}

  lemma StuckFrame(a: State, b: State, name: string, e: Entry)
    requires SameFor(a, b, name) && SameShape(a.inbounds, b.inbounds)
    ensures Stuck(b.inbounds, name, e) == Stuck(a.inbounds, name, e)
  {
    var n := Sync(e);
    forall t | t in e.credentials ensures Blocked(b.inbounds, name, n, t) == Blocked(a.inbounds, name, n, t) {
      UpsertedFrame(a.inbounds, b.inbounds, name, n, n, t);
    }
  }

  lemma DisabledFrom(s: State, c: State, s': State, name: string, e: Entry, d: DisabledState)
    requires SameFor(s, c, name) && PolicyDisabled(c, s', name, e, d)
    ensures PolicyDisabled(s, s', name, e, d)
  {
    PolicyEntryFrame(s.inbounds, c.inbounds, name, e, d);
  }

  lemma DisabledTo(s: State, c: State, s': State, name: string, e: Entry, d: DisabledState)
    requires SameFor(c, s', name) && PolicyDisabled(s, c, name, e, d)
    ensures PolicyDisabled(s, s', name, e, d)
  {}

  // ---- who is active ----

  predicate Active(inbounds: seq<Inbound>, name: string) {
    exists k | 0 <= k < |inbounds| :: Managed(inbounds[k]) && Only(inbounds[k].clients, name) != []
  }

  lemma ActiveFrame(a: seq<Inbound>, b: seq<Inbound>, names: set<string>, name: string)
    requires SameExcept(a, b, names) && name !in names
    ensures Active(b, name) == Active(a, name)
  {
    forall k | 0 <= k < |a|
      ensures Managed(b[k]) == Managed(a[k]) && Only(b[k].clients, name) == Only(a[k].clients, name)
    {
      assert InboundExcept(a[k], b[k], names);
    }
  }

  lemma ActiveHasItems(inbounds: seq<Inbound>, name: string)
    requires DistinctTags(inbounds)
    ensures Active(inbounds, name) <==> exists t :: Items(inbounds, t, name) != []
  {
    if Active(inbounds, name) {
      var k :| 0 <= k < |inbounds| && Managed(inbounds[k]) && Only(inbounds[k].clients, name) != [];
      FindUnique(inbounds, k);
      assert Items(inbounds, Tag(inbounds[k]), name) != [];
    }
    if t :| Items(inbounds, t, name) != [] {
      FindSpec(inbounds, t);
      assert Managed(inbounds[Find(inbounds, t).value]);
    }
  }

  /** In a consistent state the inactive clients are those without an enabled credential. */
  lemma ActiveIsEnabled(s: State, name: string)
    requires Consistent(s)
    ensures Active(s.inbounds, name) <==> name in s.clients && s.clients[name].enabled
  {
    ActiveHasItems(s.inbounds, name);
    assert MirrorOf(s, name);
    if t :| Items(s.inbounds, t, name) != [] {
      assert MirrorAt(s, name, t);
      assert Enabled(s, name, t);
      assert EntryOk(s.inbounds, name, s.clients[name]);
    }
    if name in s.clients && s.clients[name].enabled {
      assert EntryOk(s.inbounds, name, s.clients[name]);
      var t :| t in s.clients[name].credentials && s.clients[name].credentials[t].enabled;
      assert MirrorAt(s, name, t);
    }
  }

  /** A consistent client that the policy disabled is nowhere active. */
  lemma PolicyDisabledIsInactive(s: State, s': State, name: string, d: DisabledState)
    requires Consistent(s) && name in s.clients && DistinctTags(s'.inbounds)
    requires PolicyDisabled(s, s', name, s.clients[name], d)
    ensures !Active(s'.inbounds, name)
  {
    ActiveHasItems(s'.inbounds, name);
    assert MirrorOf(s, name);
    forall t ensures Items(s'.inbounds, t, name) == [] {
      assert MirrorAt(s, name, t);
    }
  }
}
