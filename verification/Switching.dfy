/** Enabling and disabling a set of credentials of one client, in both copies. */
module Switching {
  import opened Wrappers
  import opened Text
  import Email
  import opened ClientState
  import opened Credentials

  /** A client known only to `config.json` is given a record built from its first item. */
  function Adopted(inbounds: seq<Inbound>, name: string): Option<Entry> {
    match ActiveAny(inbounds, name)
    case None => None
    case Some(k) =>
      var item := Only(inbounds[k].clients, name)[0];
      var created := Email.SplitEmail(item.email).1;
      var protocol := if item.password != "" then Trojan else Vless;
      var credential := Credential(item.id, protocol, "", "", true, created, item);
      Some(Sync(Entry(item.id, created, true, Tag(inbounds[k]), protocol, item, false, None, None, NOT_DISABLED,
                      map[Tag(inbounds[k]) := credential])))
  }

  /** `db_entry_for_existing_client`. */
  function EntryFor(s: State, name: string): Option<Entry> {
    if name in s.clients then Some(Sync(s.clients[name])) else Adopted(s.inbounds, name)
  }

  /** Whoever is active without a record is adopted as active: one enabled credential that repeats the first item found,
      since the stamp in its email, without a deadline, a limit or a mark. */
  lemma AdoptedAsActive(inbounds: seq<Inbound>, name: string)
    ensures Adopted(inbounds, name).Some? <==>
              exists k | 0 <= k < |inbounds| :: Managed(inbounds[k]) && Only(inbounds[k].clients, name) != []
    ensures Adopted(inbounds, name).Some? ==>
              var e := Adopted(inbounds, name).value;
              && Repeats(e) && e.enabled && !e.paid && e.expiresAt == None && e.limit == None && e.disabled == NOT_DISABLED
              && e.credentials.Keys == {e.connection}
              && var c := e.credentials[e.connection];
                 && (exists i | i in inbounds :: Managed(i) && Tag(i) == e.connection && c.client in i.clients)
                 && Name(c.client) == name && c.id == c.client.id == e.id
                 && c.created == e.created == Email.SplitEmail(c.client.email).1
                 && c.protocol == (if c.client.password == "" then Vless else Trojan)
  {
    FirstManagedSpec(inbounds, ByClient(name));
    if Adopted(inbounds, name).Some? {
      var k := ActiveAny(inbounds, name).value;
      OnlyMembers(inbounds[k].clients, name);
      assert Only(inbounds[k].clients, name)[0] in Only(inbounds[k].clients, name);
      assert inbounds[k] in inbounds;
      assert Tag(inbounds[k]) in Adopted(inbounds, name).value.credentials;
      SyncRepeats(Adopted(inbounds, name).value);
    }
  }

  /** While the copies agree nobody is ever adopted: whoever is active has a record. */
  lemma NobodyToAdopt(s: State, name: string)
    requires Consistent(s)
    ensures EntryFor(s, name) == if name in s.clients then Some(s.clients[name]) else None
  {
    if name !in s.clients && ActiveAny(s.inbounds, name).Some? {
      var k := ActiveAny(s.inbounds, name).value;
      FirstManagedSpec(s.inbounds, ByClient(name));
      FindUnique(s.inbounds, k);
      MirrorUnknown(s, name, Tag(s.inbounds[k]));
    }
  }

  lemma MirrorUnknown(s: State, name: string, tag: string)
    requires Mirror(s) && name !in s.clients
    ensures Items(s.inbounds, tag, name) == []
  {
    assert MirrorOf(s, name) && MirrorAt(s, name, tag);
  }

  // ---- Disabling ----

  /** A credential after its inbound item, if there was one, was taken out and remembered. */
  function TakenOut(c: Credential, entryId: string, item: Option<Item>): Credential {
    var client := if item.None? then c.client
                  else if c.protocol.Trojan? then item.value.(id := Or(c.id, entryId))
                  else item.value;
    c.(client := client, enabled := false)
  }

  function DisabledCredential(inbounds: seq<Inbound>, name: string, e: Entry, tag: string): Credential
    requires tag in e.credentials
  {
    TakenOut(e.credentials[tag], e.id, ActiveItem(inbounds, tag, name))
  }

  function DisabledCredentials(inbounds: seq<Inbound>, name: string, e: Entry, sel: set<string>): map<string, Credential> {
    map t | t in e.credentials :: if t in sel then DisabledCredential(inbounds, name, e, t) else e.credentials[t]
  }

  /** The client has no item left under the tags in `sel`, and its other items are untouched. */
  ghost predicate Cleared(a: seq<Inbound>, b: seq<Inbound>, name: string, sel: set<string>) {
    forall t :: Items(b, t, name) == if t in sel then [] else Items(a, t, name)
  }

  /** Items and record after the selected credentials in `done` were taken out. */
  ghost predicate DisabledIn(a: seq<Inbound>, b: seq<Inbound>, name: string, e: Entry, e': Entry,
                             active: set<string>, done: set<string>) {
    && SameExcept(a, b, {name})
    && Cleared(a, b, name, done)
    && e' == e.(credentials := DisabledCredentials(a, name, e, done))
    && (forall t :: t in active <==> t in done && Items(a, t, name) != [])
    && (active == {} ==> b == a)
  }

  lemma DisabledNothing(a: seq<Inbound>, name: string, e: Entry)
    ensures DisabledIn(a, a, name, e, e, {}, {})
  {
    assert DisabledCredentials(a, name, e, {}) == e.credentials;
  }

  lemma ClearedNext(a: seq<Inbound>, b: seq<Inbound>, c: seq<Inbound>, name: string, done: set<string>, tag: string)
    requires Cleared(a, b, name, done)
    requires Items(c, tag, name) == []
    requires forall t | t != tag :: Items(c, t, name) == Items(b, t, name)
    ensures Cleared(a, c, name, done + {tag})
  {}

  lemma DisabledCredentialsNext(a: seq<Inbound>, name: string, e: Entry, done: set<string>, tag: string)
    requires tag in e.credentials
    ensures DisabledCredentials(a, name, e, done)[tag := DisabledCredential(a, name, e, tag)]
         == DisabledCredentials(a, name, e, done + {tag})
  {}

  lemma DisabledNext(a: seq<Inbound>, b: seq<Inbound>, name: string, e: Entry, e1: Entry,
                     active: set<string>, done: set<string>, tag: string, active': set<string>)
    requires DisabledIn(a, b, name, e, e1, active, done) && tag in e.credentials && tag !in done
    requires active' == if ActiveItem(b, tag, name).Some? then active + {tag} else active
    ensures DisabledIn(a, DropItems(b, tag, name), name, e,
                       e1.(credentials := e1.credentials[tag := DisabledCredential(b, name, e1, tag)]),
                       active', done + {tag})
  {
    var c := DropItems(b, tag, name);
    assert SameExcept(a, c, {name}) && Cleared(a, c, name, done + {tag}) by {
      DropItemsEffect(b, tag, name);
      SameExceptTransitive(a, b, c, {name}, {name});
      assert {name} + {name} == {name};
      ClearedNext(a, b, c, name, done, tag);
    }
    assert Items(b, tag, name) == Items(a, tag, name);
    assert DisabledCredential(b, name, e1, tag) == DisabledCredential(a, name, e, tag);
    DisabledCredentialsNext(a, name, e, done, tag);
    if Items(b, tag, name) == [] {
      DropNothing(b, tag, name);
    } else {
      assert tag in active';
    }
  }

  /** Takes the items of the selected credentials out of their inbounds. */
  method DisableTags(config: Config, name: string, e: Entry, sel: set<string>)
      returns (e': Entry, active: set<string>)
    requires sel <= e.credentials.Keys
    modifies config
    ensures DisabledIn(old(config.inbounds), config.inbounds, name, e, e', active, sel)
  {
    ghost var start := config.inbounds;
    e', active := e, {};
    var remaining := sel;
    ghost var done := {};
    DisabledNothing(start, name, e);
    while remaining != {}
      invariant done !! remaining && done + remaining == sel
      invariant DisabledIn(start, config.inbounds, name, e, e', active, done)
      decreases remaining
    {
      var tag :| tag in remaining;
      ghost var before, before', active' := config.inbounds, e', active;
      var removed, item := RemoveActive(config, name, tag);
      e' := e'.(credentials := e'.credentials[tag := TakenOut(e'.credentials[tag], e'.id, item)]);
      if removed {
        active := active + {tag};
      }
      DisabledNext(start, before, name, e, before', active', done, tag, active);
      remaining, done := remaining - {tag}, done + {tag};
    }
    assert done == sel;
  }

  lemma DropNothing(inbounds: seq<Inbound>, tag: string, name: string)
    requires Items(inbounds, tag, name) == []
    ensures DropItems(inbounds, tag, name) == inbounds
  {
    if Find(inbounds, tag).Some? {
      var k := Find(inbounds, tag).value;
      OnlyCount(inbounds[k].clients, name);
      WithoutNone(inbounds[k].clients, name);
    }
  }

  // ---- Enabling ----

  /** `enable` skips a credential that is enabled and has its item. */
  predicate NeedsEnable(inbounds: seq<Inbound>, name: string, e: Entry, tag: string)
    requires tag in e.credentials
  {
    Items(inbounds, tag, name) == [] || !e.credentials[tag].enabled
  }

  function EnabledCredential(inbounds: seq<Inbound>, name: string, e: Entry, tag: string): Credential
    requires tag in e.credentials
  {
    var upserted := Upserted(inbounds, name, e, tag);
    if NeedsEnable(inbounds, name, e, tag) && upserted.Ok? then upserted.value.1 else e.credentials[tag]
  }

  function EnabledCredentials(inbounds: seq<Inbound>, name: string, e: Entry, sel: set<string>): map<string, Credential> {
    map t | t in e.credentials :: if t in sel then EnabledCredential(inbounds, name, e, t) else e.credentials[t]
  }

  /** What enabling leaves under a tag: the freshly written item in front of any surplus ones. */
  function EnabledItems(inbounds: seq<Inbound>, name: string, e: Entry, sel: set<string>, tag: string): seq<Item> {
    var before := Items(inbounds, tag, name);
    if tag in sel && tag in e.credentials && NeedsEnable(inbounds, name, e, tag)
       && Upserted(inbounds, name, e, tag).Ok?
    then [Upserted(inbounds, name, e, tag).value.0] + (if before == [] then [] else before[1..])
    else before
  }

  /** Both copies after enabling the credentials `sel` of the record `e`. */
  ghost predicate EnabledIn(s: State, s': State, name: string, e: Entry, sel: set<string>) {
    && (forall t | t in sel :: t in e.credentials
                               && (NeedsEnable(s.inbounds, name, e, t) ==> Upserted(s.inbounds, name, e, t).Ok?))
    && name in s'.clients
    && s'.clients[name] == Sync(e.(credentials := EnabledCredentials(s.inbounds, name, e, sel)))
    && (forall t :: Items(s'.inbounds, t, name) == EnabledItems(s.inbounds, name, e, sel, t))
  }

  lemma EnabledNothing(s: State, name: string, e: Entry)
    requires name in s.clients && s.clients[name] == e && Sync(e) == e
    ensures EnabledIn(s, s, name, e, {})
  {
    assert EnabledCredentials(s.inbounds, name, e, {}) == e.credentials;
  }

  /** A skipped credential may be counted as done. */
  lemma EnabledSkip(s: State, s1: State, name: string, e: Entry, done: set<string>, tag: string)
    requires EnabledIn(s, s1, name, e, done) && tag in e.credentials && tag !in done
    requires !NeedsEnable(s.inbounds, name, e, tag)
    ensures EnabledIn(s, s1, name, e, done + {tag})
  {
    assert EnabledCredentials(s.inbounds, name, e, done + {tag}) == EnabledCredentials(s.inbounds, name, e, done);
  }

  /** Nothing that decides about a credential has changed before its turn. */
  lemma NotYetEnabled(s: State, s1: State, name: string, e: Entry, done: set<string>, tag: string)
    requires SameExcept(s.inbounds, s1.inbounds, {name})
    requires EnabledIn(s, s1, name, e, done) && tag in e.credentials && tag !in done
    ensures s1.clients[name].credentials.Keys == e.credentials.Keys
    ensures NeedsEnable(s1.inbounds, name, s1.clients[name], tag) == NeedsEnable(s.inbounds, name, e, tag)
    ensures Upserted(s1.inbounds, name, s1.clients[name], tag) == Upserted(s.inbounds, name, e, tag)
  {
    ShapeOf(s.inbounds, s1.inbounds, {name});
    UpsertedFrame(s.inbounds, s1.inbounds, name, e, s1.clients[name], tag);
  }

  lemma EnabledNext(s: State, s1: State, s2: State, name: string, e: Entry, done: set<string>, tag: string,
                    item: Item, c: Credential)
    requires EnabledIn(s, s1, name, e, done) && tag in e.credentials && tag !in done
    requires Name(item) == name && NeedsEnable(s.inbounds, name, e, tag)
    requires Upserted(s.inbounds, name, e, tag) == Ok((item, c))
    requires Find(s1.inbounds, tag).Some? && s2.inbounds == PutItem(s1.inbounds, tag, name, item)
    requires name in s2.clients
    requires s2.clients[name] == Sync(s1.clients[name].(credentials := s1.clients[name].credentials[tag := c]))
    ensures EnabledIn(s, s2, name, e, done + {tag})
  {
    PutItemEffect(s1.inbounds, tag, name, item);
    EnabledCredentialsNext(s.inbounds, name, e, done, tag, item, c);
    SyncAbsorbs(e.(credentials := EnabledCredentials(s.inbounds, name, e, done)),
                EnabledCredentials(s.inbounds, name, e, done + {tag}));
  }

  lemma EnabledCredentialsNext(inbounds: seq<Inbound>, name: string, e: Entry, done: set<string>, tag: string,
                               item: Item, c: Credential)
    requires tag in e.credentials && NeedsEnable(inbounds, name, e, tag)
    requires Upserted(inbounds, name, e, tag) == Ok((item, c))
    ensures EnabledCredentials(inbounds, name, e, done)[tag := c] == EnabledCredentials(inbounds, name, e, done + {tag})
  {}

  /** The stored emails of a record name its client. */
  ghost predicate OwnEmails(name: string, e: Entry) {
    ValidName(name) && forall t | t in e.credentials :: OwnEmail(name, e.credentials[t].client)
  }

  /** Both copies in the middle of enabling, and the tags that were actually switched. */
  ghost predicate EnabledSoFar(s: State, s': State, name: string, e: Entry, done: set<string>, enabled: set<string>) {
    && Touches(s, s', {name})
    && EnabledIn(s, s', name, e, done)
    && (forall t :: t in enabled <==> t in done && NeedsEnable(s.inbounds, name, e, t))
  }

  /** What one turn of the enabling loop does to both copies. */
  ghost predicate EnabledOne(s: State, s': State, name: string, tag: string, switched: bool)
    requires name in s.clients && tag in s.clients[name].credentials
  {
    var e := s.clients[name];
    && (switched <==> NeedsEnable(s.inbounds, name, e, tag))
    && if !switched then s' == s
       else
         && Upserted(s.inbounds, name, e, tag).Ok?
         && var (item, c) := Upserted(s.inbounds, name, e, tag).value;
            && s'.inbounds == PutItem(s.inbounds, tag, name, item)
            && s'.connections == s.connections
            && s'.clients == s.clients[name := Sync(e.(credentials := e.credentials[tag := c]))]
  }

  /** Enabling a credential would raise. */
  predicate Blocked(inbounds: seq<Inbound>, name: string, e: Entry, tag: string)
    requires tag in e.credentials
  {
    NeedsEnable(inbounds, name, e, tag) && Upserted(inbounds, name, e, tag).Err?
  }

  /** The error that enabling a credential raises. */
  predicate Raises(inbounds: seq<Inbound>, name: string, e: Entry, tag: string, error: Error)
    requires tag in e.credentials
  {
    NeedsEnable(inbounds, name, e, tag) && Upserted(inbounds, name, e, tag) == Err(error)
  }

  method EnableOne(config: Config, db: Db, name: string, tag: string) returns (error: Option<Error>, switched: bool)
    requires name in db.clients && tag in db.clients[name].credentials
    modifies config, db
    ensures error.None? ==> EnabledOne(old(View(config, db)), View(config, db), name, tag, switched)
    ensures error.Some? ==> View(config, db) == old(View(config, db))
    ensures error.Some? ==> Raises(old(config.inbounds), name, old(db.clients)[name], tag, error.value)
  {
    var current := db.clients[name];
    if !NeedsEnable(config.inbounds, name, current, tag) {
      return None, false;
    }
    var upserted := UpsertActive(config, name, current, tag);
    if upserted.Err? {
      return Some(upserted.error), false;
    }
    db.clients := db.clients[name := upserted.value];
    return None, true;
  }

  /** The loop shared by `enable_client` and `enable_db_client`. When a credential cannot be enabled the
      ones before it already are, in both copies alike. */
  method EnableTags(config: Config, db: Db, name: string, sel: set<string>)
      returns (error: Option<Error>, enabled: set<string>, ghost done: set<string>)
    requires name in db.clients && sel <= db.clients[name].credentials.Keys
    requires OwnEmails(name, db.clients[name]) && Sync(db.clients[name]) == db.clients[name]
    modifies config, db
    ensures EnabledSoFar(old(View(config, db)), View(config, db), name, old(db.clients[name]), done, enabled)
    ensures if error.None? then done == sel else done < sel
    ensures error.Some? ==> exists t :: t in sel && Raises(old(config.inbounds), name, old(db.clients)[name], t, error.value)
  {
    ghost var s := View(config, db);
    ghost var e := db.clients[name];
    error, enabled, done := None, {}, {};
    var remaining := sel;
    EnabledNothing(s, name, e);
    while remaining != {}
      invariant error.None? && done !! remaining && done + remaining == sel
      invariant EnabledSoFar(s, View(config, db), name, e, done, enabled)
      decreases remaining
    {
      var tag :| tag in remaining;
      ghost var s1 := View(config, db);
      SameTags(s, s1, name, e, done);
      var switched;
      error, switched := EnableOne(config, db, name, tag);
      if error.Some? {
        assert tag in sel && tag !in done;
        NotYetEnabled(s, s1, name, e, done, tag);
        return;
      }
      EnableStep(s, s1, View(config, db), name, e, done, tag, enabled, switched);
      enabled := if switched then enabled + {tag} else enabled;
      remaining, done := remaining - {tag}, done + {tag};
    }
    assert done == sel;
  }

  lemma SameTags(s: State, s1: State, name: string, e: Entry, done: set<string>)
    requires EnabledIn(s, s1, name, e, done)
    ensures s1.clients[name].credentials.Keys == e.credentials.Keys
  {}

  lemma SwitchedOne(s: State, s1: State, s2: State, name: string, e: Entry, done: set<string>, tag: string)
    requires Touches(s, s1, {name}) && EnabledIn(s, s1, name, e, done)
    requires OwnEmails(name, e) && tag in e.credentials && tag !in done
    requires tag in s1.clients[name].credentials && EnabledOne(s1, s2, name, tag, true)
    ensures NeedsEnable(s.inbounds, name, e, tag)
    ensures Touches(s, s2, {name}) && EnabledIn(s, s2, name, e, done + {tag})
  {
    NotYetEnabled(s, s1, name, e, done, tag);
    var (item, c) := Upserted(s.inbounds, name, e, tag).value;
    UpsertedMirrors(s.inbounds, name, e, tag);
    EnabledNext(s, s1, s2, name, e, done, tag, item, c);
    assert Touches(s, s2, {name}) by {
      PutItemEffect(s1.inbounds, tag, name, item);
      TouchesTransitive(s, s1, s2, {name}, {name});
      assert {name} + {name} == {name};
    }
  }

  lemma SkippedOne(s: State, s1: State, s2: State, name: string, e: Entry, done: set<string>, tag: string)
    requires Touches(s, s1, {name}) && EnabledIn(s, s1, name, e, done)
    requires tag in e.credentials && tag !in done
    requires tag in s1.clients[name].credentials && EnabledOne(s1, s2, name, tag, false)
    ensures !NeedsEnable(s.inbounds, name, e, tag)
    ensures Touches(s, s2, {name}) && EnabledIn(s, s2, name, e, done + {tag})
  {
    NotYetEnabled(s, s1, name, e, done, tag);
    EnabledSkip(s, s1, name, e, done, tag);
  }

  lemma EnableStep(s: State, s1: State, s2: State, name: string, e: Entry, done: set<string>, tag: string,
                   enabled: set<string>, switched: bool)
    requires EnabledSoFar(s, s1, name, e, done, enabled)
    requires OwnEmails(name, e) && tag in e.credentials && tag !in done
    requires tag in s1.clients[name].credentials && EnabledOne(s1, s2, name, tag, switched)
    ensures EnabledSoFar(s, s2, name, e, done + {tag}, if switched then enabled + {tag} else enabled)
  {
    if switched {
      SwitchedOne(s, s1, s2, name, e, done, tag);
    } else {
      SkippedOne(s, s1, s2, name, e, done, tag);
    }
    EnabledGrows(s.inbounds, name, e, done, tag, enabled, switched);
  }

  lemma EnabledGrows(inbounds: seq<Inbound>, name: string, e: Entry, done: set<string>, tag: string,
                     enabled: set<string>, switched: bool)
    requires tag in e.credentials && done <= e.credentials.Keys
    requires forall t :: t in enabled <==> t in done && NeedsEnable(inbounds, name, e, t)
    requires switched <==> NeedsEnable(inbounds, name, e, tag)
    ensures forall t :: t in (if switched then enabled + {tag} else enabled)
                        <==> t in done + {tag} && NeedsEnable(inbounds, name, e, t)
  {}

  // ---- The mirror survives ----

  lemma DisabledMirrors(s: State, s': State, name: string, e: Entry, sel: set<string>)
    requires MirrorOf(s, name) && name in s.clients && s.clients[name] == e
    requires sel <= e.credentials.Keys
    requires Cleared(s.inbounds, s'.inbounds, name, sel)
    requires name in s'.clients
    requires s'.clients[name].credentials == DisabledCredentials(s.inbounds, name, e, sel)
    ensures MirrorOf(s', name)
  {
    forall tag ensures MirrorAt(s', name, tag) {
      assert MirrorAt(s, name, tag);
    }
  }

  lemma {:induction false} OnlyNames(items: seq<Item>, name: string)
    ensures forall k | 0 <= k < |Only(items, name)| :: Name(Only(items, name)[k]) == name
  {
    OnlyMembers(items, name);
    forall k | 0 <= k < |Only(items, name)| ensures Name(Only(items, name)[k]) == name {
      assert Only(items, name)[k] in Only(items, name);
    }
  }

  lemma ItemsNames(inbounds: seq<Inbound>, tag: string, name: string)
    ensures forall k | 0 <= k < |Items(inbounds, tag, name)| :: Name(Items(inbounds, tag, name)[k]) == name
  {
    if Find(inbounds, tag).Some? {
      OnlyNames(inbounds[Find(inbounds, tag).value].clients, name);
    }
  }

  lemma DisabledEntryOk(inbounds: seq<Inbound>, name: string, e: Entry, sel: set<string>, e': Entry)
    requires EntryOk(inbounds, name, e)
    requires e'.credentials == DisabledCredentials(inbounds, name, e, sel) && Sync(e') == e'
    ensures EntryOk(inbounds, name, e')
  {
    var k :| k in e.credentials;
    assert k in e'.credentials;
    forall t | t in e'.credentials ensures CredentialOk(inbounds, name, t, e'.credentials[t]) {
      assert CredentialOk(inbounds, name, t, e.credentials[t]);
      var items := Items(inbounds, t, name);
      ItemsNames(inbounds, t, name);
      if items != [] {
        TrimKeepsName(name, items[0].email);
      }
    }
  }

  lemma EnabledMirrors(s: State, s': State, name: string, e: Entry, sel: set<string>)
    requires MirrorOf(s, name) && name in s.clients && s.clients[name].credentials == e.credentials
    requires EntryOk(s.inbounds, name, s.clients[name])
    requires EnabledIn(s, s', name, e, sel)
    ensures MirrorOf(s', name)
  {
    forall tag ensures MirrorAt(s', name, tag) {
      assert MirrorAt(s, name, tag);
      if tag in e.credentials {
        assert CredentialOk(s.inbounds, name, tag, e.credentials[tag]);
        if tag in sel && NeedsEnable(s.inbounds, name, e, tag) {
          FindSpec(s.inbounds, tag);
          UpsertedMirrors(s.inbounds, name, e, tag);
        }
      }
    }
  }

  lemma EnabledEntryOk(inbounds: seq<Inbound>, name: string, e0: Entry, e: Entry, sel: set<string>, e': Entry)
    requires EntryOk(inbounds, name, e0) && e0.credentials == e.credentials
    requires e'.credentials == EnabledCredentials(inbounds, name, e, sel) && Sync(e') == e'
    ensures EntryOk(inbounds, name, e')
  {
    var k :| k in e.credentials;
    assert k in e'.credentials;
    forall t | t in e'.credentials ensures CredentialOk(inbounds, name, t, e'.credentials[t]) {
      assert CredentialOk(inbounds, name, t, e.credentials[t]);
      if Upserted(inbounds, name, e, t).Ok? {
        UpsertedMirrors(inbounds, name, e, t);
      }
    }
  }
}
