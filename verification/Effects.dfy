/** What each command does to its client, seen from outside: which credentials are live, with which secrets, and that
    nobody else notices. */
module Effects {
  import opened Wrappers
  import opened Text
  import Email
  import opened Calendar
  import opened Limits
  import opened ClientState
  import opened Credentials
  import opened Switching
  import opened Crud
  import opened Lifecycle
  import opened Policy

  /** The client's credential and items under a tag are untouched. */
  ghost predicate SameUnder(s: State, s': State, name: string, tag: string) {
    CredentialAt(s', name, tag) == CredentialAt(s, name, tag) && Items(s'.inbounds, tag, name) == Items(s.inbounds, tag, name)
  }

  /** Nobody but this client is affected. */
  ghost predicate OnlyClient(s: State, s': State, name: string) {
    s'.connections == s.connections && forall n | n != name :: SameFor(s, s', n)
  }

  lemma OnlyClientOf(s: State, s': State, name: string)
    requires Touches(s, s', {name})
    ensures OnlyClient(s, s', name)
  {
    forall n | n != name ensures SameFor(s, s', n) {
      TouchesOthers(s, s', {name}, n);
    }
  }

  lemma TouchesRecord(s: State, inbounds: seq<Inbound>, name: string, e: Entry)
    requires SameExcept(s.inbounds, inbounds, {name})
    ensures Touches(s, State(inbounds, s.connections, s.clients[name := e]), {name})
  {}

  // ---- add ----

  /** The credential that `add` stores: it describes its inbound and has a secret of its own. */
  predicate Issued(c: Credential, i: Inbound, name: string, id: string, input: AddInput) {
    && Describes(c, i) && c.id == id && c.client.id == id && c.created == input.stamp
    && Name(c.client) == name && OwnEmail(name, c.client)
    && (i.protocol.Trojan? ==> c.client.password == input.password && ValidPassword(input.password))
    && (!i.protocol.Trojan? ==> c.client.password == "")
  }

  /** A new record as it was asked for. */
  predicate NewRecord(e: Entry, input: AddInput) {
    && e.id == input.uuid && e.created == input.stamp
    && (e.paid <==> input.paid == Some(true))
    && e.limit == None && e.disabled == NOT_DISABLED
    && match input.days
       case None => e.expiresAt == None
       case Some(n) => e.expiresAt.Some? && OnDay(e.expiresAt.value, Ordinal(input.now.date) + n)
  }

  /** A known record keeps everything but its payment type, and gets an id if it had none. */
  predicate KnownRecord(before: Entry, e: Entry, input: AddInput) {
    && SameTerms(before.(id := e.id, paid := e.paid), e)
    && e.id == (if before.id != "" then before.id else input.uuid)
    && e.paid == (match input.paid case None => before.paid case Some(paid) => paid)
  }

  /** The new credential is there with its own secret, live with one item when the client is enabled and not expired. */
  lemma AddEffect(s: State, name: string, tag: string, input: AddInput)
    requires Consistent(s) && ValidName(name) && ValidMoment(input.now) && AddError(s, name, tag, input).None?
    ensures var s', known := Added(s, name, tag, input), At(s.clients, name);
            && Find(s.inbounds, tag).Some? && CredentialAt(s, name, tag).None? && CredentialAt(s', name, tag).Some?
            && var c, items := CredentialAt(s', name, tag).value, Items(s'.inbounds, tag, name);
               && Issued(c, s.inbounds[Find(s.inbounds, tag).value], name,
                         if known.None? then input.uuid else input.credentialUuid, input)
               && (c.enabled <==> match known
                                  case None => input.days.None? || input.days.value > 0
                                  case Some(e) => e.enabled && !AccessExpired(e.expiresAt, input.now))
               && (if c.enabled then |items| == 1 && Refilled(c, items[0]) else items == [])
    ensures var s' := Added(s, name, tag, input);
            && name in s'.clients && Repeats(s'.clients[name])
            && (name in s.clients ==> KnownRecord(s.clients[name], s'.clients[name], input))
            && (name !in s.clients ==> NewRecord(s'.clients[name], input)
                                       && s'.clients[name].connection == tag)
    ensures var s' := Added(s, name, tag, input);
            (forall t | t != tag :: SameUnder(s, s', name, t)) && OnlyClient(s, s', name)
  {
    NobodyToAdopt(s, name);
    AddRecordOk(s, name, tag, input);
    IssuedRecord(s, name, tag, input);
    var (item, c) := AddRecord(s, name, tag, input).value;
    var base := AddBase(s, name, input);
    var live := base.enabled && !AccessExpired(base.expiresAt, input.now);
    AddedOneEffect(s, name, tag, base, item, c.(enabled := live));
    AddedRecord(s, name, tag, input, c.(enabled := live));
    NewDeadline(input);
  }

  /** The deadline of a new client; it is over at once only when it is for no days. */
  lemma NewDeadline(input: AddInput)
    requires ValidMoment(input.now)
    ensures var until := ExpiresAtFromDays(input.days, input.now);
            && (until.None? <==> input.days.None?)
            && (until.Some? ==> OnDay(until.value, Ordinal(input.now.date) + input.days.value))
            && (AccessExpired(until, input.now) <==> input.days == Some(0))
  {
    if input.days.Some? {
      AddDaysCounts(input.now.date, input.days.value);
    }
  }

  lemma IssuedRecord(s: State, name: string, tag: string, input: AddInput)
    requires ValidName(name) && Find(s.inbounds, tag).Some? && AddRecord(s, name, tag, input).Ok?
    ensures var (item, c) := AddRecord(s, name, tag, input).value;
            && Refilled(c, item)
            && Issued(c, s.inbounds[Find(s.inbounds, tag).value], name,
                      if EntryFor(s, name).None? then input.uuid else input.credentialUuid, input)
  {
    AddRecordOk(s, name, tag, input);
  }

  lemma AddedRecord(s: State, name: string, tag: string, input: AddInput, c: Credential)
    requires ValidMoment(input.now) && EntryFor(s, name) == At(s.clients, name)
    ensures var base := AddBase(s, name, input);
            var e := Sync(base.(credentials := base.credentials[tag := c]));
            && Repeats(e)
            && (name in s.clients ==> KnownRecord(s.clients[name], e, input))
            && (name !in s.clients ==> NewRecord(e, input) && e.connection == tag)
  {
    var base := AddBase(s, name, input);
    var e := base.(credentials := base.credentials[tag := c]);
    assert tag in e.credentials;
    SyncRepeats(e);
    NewDeadline(input);
  }

  lemma AddedOneEffect(s: State, name: string, tag: string, base: Entry, item: Item, c: Credential)
    requires Find(s.inbounds, tag).Some? && Items(s.inbounds, tag, name) == [] && Name(item) == name
    requires base.credentials == CredentialsOf(s, name) && tag !in base.credentials
    ensures var s' := AddedOne(s, name, tag, base, item, c);
            && CredentialAt(s, name, tag).None? && CredentialAt(s', name, tag) == Some(c)
            && Items(s'.inbounds, tag, name) == (if c.enabled then [item] else [])
            && (forall t | t != tag :: SameUnder(s, s', name, t))
            && OnlyClient(s, s', name)
  {
    var s' := AddedOne(s, name, tag, base, item, c);
    PutItemEffect(s.inbounds, tag, name, item);
    SameExceptRefl(s.inbounds, {name});
    TouchesRecord(s, s'.inbounds, name, s'.clients[name]);
    OnlyClientOf(s, s', name);
  }

  // ---- disable and enable ----

  /** The selected credentials are off in both copies. */
  ghost predicate OffUnder(s: State, name: string, sel: set<string>) {
    forall t | t in sel :: CredentialAt(s, name, t).Some? && !Enabled(s, name, t) && Items(s.inbounds, t, name) == []
  }

  /** The selected credentials are live, each with one item. */
  ghost predicate LiveUnder(s: State, name: string, sel: set<string>) {
    forall t | t in sel :: Enabled(s, name, t) && |Items(s.inbounds, t, name)| == 1
  }

  ghost predicate SameOutside(s: State, s': State, name: string, sel: set<string>) {
    forall t | t !in sel :: SameUnder(s, s', name, t)
  }

  /** The selected credentials go off, the others stay; the client is enabled if one of them is. */
  lemma DisableEffect(s: State, s': State, name: string, tag: Option<string>, stamp: string)
    requires Consistent(s) && ClientDisabled(s, s', name, tag, stamp)
    ensures name in s.clients && name in s'.clients && Selected(s.clients[name], tag).Some?
    ensures var sel := Selected(s.clients[name], tag).value;
            && OffUnder(s', name, sel) && SameOutside(s, s', name, sel)
            && (s'.clients[name].enabled <==> exists t :: t !in sel && Enabled(s, name, t))
            && (forall t | t in sel ::
                  && SwitchedOff(s.clients[name].credentials[t], s'.clients[name].credentials[t])
                  && Remembers(s.clients[name], s.clients[name].credentials[t], s'.clients[name].credentials[t],
                               Items(s.inbounds, t, name)))
            && OnlyClient(s, s', name)
    ensures Repeats(s'.clients[name]) && StampedWhenOff(s.clients[name], s'.clients[name], stamp)
  {
    NobodyToAdopt(s, name);
    var e := s.clients[name];
    var sel := Selected(e, tag).value;
    assert OnlyClient(s, s', name) by {
      DisableTouches(s, s', name, tag, stamp);
      OnlyClientOf(s, s', name);
    }
    assert EntryOk(s.inbounds, name, e) && MirrorOf(s, name);
    DisabledUnder(s, s', name, e, sel, stamp);
    DisabledRecord(s.inbounds, name, e, sel, stamp);
    DisabledSecrets(s, name, e, sel);
  }

  /** Only the state and the client block of a credential changed, and the secret in the block did not. */
  predicate SwitchedOff(before: Credential, after: Credential) {
    after == before.(client := after.client, enabled := false) && Secret(after) == Secret(before)
  }

  /** The item that was taken out is remembered; a Trojan one with the id of its credential or of its client. */
  predicate Remembers(e: Entry, before: Credential, after: Credential, items: seq<Item>) {
    after.client == if items == [] then before.client
                    else items[0].(id := if !before.protocol.Trojan? then items[0].id
                                         else if before.id != "" then before.id else e.id)
  }

  /** The stamp is set once nothing is left enabled. */
  predicate StampedWhenOff(before: Entry, after: Entry, stamp: string) {
    SameTerms(if after.enabled then before else before.(disabled := before.disabled.(at := stamp)), after)
  }

  lemma DisabledRecord(inbounds: seq<Inbound>, name: string, e: Entry, sel: set<string>, stamp: string)
    requires e.credentials != map[]
    ensures var e' := DisabledEntry(inbounds, name, e, sel, stamp);
            Repeats(e') && StampedWhenOff(e, e', stamp)
  {
    var credentials := DisabledCredentials(inbounds, name, e, sel);
    var enabled := AnyEnabled(credentials);
    var k :| k in e.credentials;
    assert k in credentials;
    SyncRepeats(e.(credentials := credentials, enabled := enabled,
                   disabled := if enabled then e.disabled else e.disabled.(at := stamp)));
  }

  /** What is taken out of the inbound carries the stored secret, so remembering it loses nothing. */
  lemma DisabledSecrets(s: State, name: string, e: Entry, sel: set<string>)
    requires MirrorOf(s, name) && Record(s, name) == Some(e) && sel <= e.credentials.Keys
    ensures forall t | t in sel ::
              var after := DisabledCredentials(s.inbounds, name, e, sel)[t];
              SwitchedOff(e.credentials[t], after) && Remembers(e, e.credentials[t], after, Items(s.inbounds, t, name))
  {
    forall t | t in sel ensures SwitchedOff(e.credentials[t], DisabledCredential(s.inbounds, name, e, t)) {
      assert MirrorAt(s, name, t);
    }
  }

  lemma DisabledUnder(s: State, s': State, name: string, e: Entry, sel: set<string>, stamp: string)
    requires Record(s, name) == Some(e) && sel <= e.credentials.Keys && e.credentials != map[]
    requires Record(s', name) == Some(DisabledEntry(s.inbounds, name, e, sel, stamp))
    requires Cleared(s.inbounds, s'.inbounds, name, sel)
    ensures OffUnder(s', name, sel) && SameOutside(s, s', name, sel)
    ensures s'.clients[name].enabled <==> exists t :: t !in sel && Enabled(s, name, t)
  {
    DisabledEntryShape(s.inbounds, name, e, sel, stamp);
    OffAndSame(s, s', name, e, sel);
    LeftEnabled(s, s', name, sel);
  }

  lemma DisabledEntryShape(inbounds: seq<Inbound>, name: string, e: Entry, sel: set<string>, stamp: string)
    requires e.credentials != map[]
    ensures var e' := DisabledEntry(inbounds, name, e, sel, stamp);
            e'.credentials == DisabledCredentials(inbounds, name, e, sel) && e'.enabled == AnyEnabled(e'.credentials)
  {
    var k :| k in e.credentials;
    assert k in DisabledCredentials(inbounds, name, e, sel);
  }

  lemma OffAndSame(s: State, s': State, name: string, e: Entry, sel: set<string>)
    requires Record(s, name) == Some(e) && sel <= e.credentials.Keys && name in s'.clients
    requires s'.clients[name].credentials == DisabledCredentials(s.inbounds, name, e, sel)
    requires Cleared(s.inbounds, s'.inbounds, name, sel)
    ensures OffUnder(s', name, sel) && SameOutside(s, s', name, sel)
  {}

  lemma LeftEnabled(s: State, s': State, name: string, sel: set<string>)
    requires name in s.clients && name in s'.clients
    requires s'.clients[name].enabled == AnyEnabled(s'.clients[name].credentials)
    requires s'.clients[name].credentials == DisabledCredentials(s.inbounds, name, s.clients[name], sel)
    ensures s'.clients[name].enabled <==> exists t :: t !in sel && Enabled(s, name, t)
  {
    var credentials := s'.clients[name].credentials;
    if AnyEnabled(credentials) {
      var t :| t in credentials && credentials[t].enabled;
      assert t !in sel && Enabled(s, name, t);
    }
    if t :| t !in sel && Enabled(s, name, t) {
      assert t in credentials && credentials[t].enabled;
    }
  }

  /** The selected credentials go live, the others stay, and nothing marks the client as disabled. */
  lemma EnableEffect(s: State, s': State, name: string, tag: Option<string>, traffic: History, now: Moment)
    requires ValidMoment(now) && Consistent(s) && ClientEnabled(s, s', name, tag, traffic, now)
    ensures name in s'.clients && Selected(s.clients[name], tag).Some?
    ensures var sel := Selected(s.clients[name], tag).value;
            && LiveUnder(s', name, sel)
            && (forall t :: if t in sel && !Enabled(s, name, t) then SwitchedOn(s, s', name, t) else SameUnder(s, s', name, t))
            && OnlyClient(s, s', name)
    ensures SameTerms(s.clients[name].(disabled := NOT_DISABLED), s'.clients[name]) && Repeats(s'.clients[name])
  {
    var e := s.clients[name];
    var sel := Selected(e, tag).value;
    assert EntryOk(s.inbounds, name, e) && MirrorOf(s, name);
    EnabledUnder(s, s', name, e.(disabled := NOT_DISABLED), sel);
    EnabledRecord(s.inbounds, name, e.(disabled := NOT_DISABLED), sel);
    forall t | t in sel && !Enabled(s, name, t) ensures SwitchedOn(s, s', name, t) {
      EnabledSecret(s, s', name, e.(disabled := NOT_DISABLED), sel, t);
    }
    assert MirrorOf(s', name) by {
      EnableKeeps(s, s', name, tag, traffic, now);
    }
    EnabledIsLive(s', name, sel);
    OnlyClientOf(s, s', name);
  }

  lemma EnabledUnder(s: State, s': State, name: string, e: Entry, sel: set<string>)
    requires MirrorOf(s, name) && name in s.clients && s.clients[name].credentials == e.credentials
    requires EnabledIn(s, s', name, e, sel)
    ensures forall t | t in sel :: Enabled(s', name, t)
    ensures forall t | !(t in sel && !Enabled(s, name, t)) :: SameUnder(s, s', name, t)
  {
    forall t | !(t in sel && !Enabled(s, name, t)) ensures SameUnder(s, s', name, t) {
      assert MirrorAt(s, name, t);
    }
  }

  /** A credential that was off describes its inbound, has one item that it repeats, and keeps its secret. */
  predicate SwitchedOn(s: State, s': State, name: string, tag: string) {
    && CredentialAt(s, name, tag).Some? && CredentialAt(s', name, tag).Some? && Find(s.inbounds, tag).Some?
    && |Items(s'.inbounds, tag, name)| == 1
    && SwitchedOnTo(s.clients[name], CredentialAt(s, name, tag).value, CredentialAt(s', name, tag).value,
                    Items(s'.inbounds, tag, name)[0], s.inbounds[Find(s.inbounds, tag).value])
  }

  predicate SwitchedOnTo(e: Entry, before: Credential, after: Credential, item: Item, i: Inbound) {
    && Refilled(after, item) && Describes(after, i)
    && after.protocol == before.protocol && after.created == before.created
    && KeepsIds(e, before, after) && (Secret(before) != "" ==> Secret(after) == Secret(before))
    && (after.protocol.Trojan? ==> after.client.password == Trim(before.client.password))
    && (Trim(before.client.email) != "" ==> after.client.email == Trim(before.client.email))
    && (before.client.flow != "" && after.protocol.Vless? && after.transport == "tcp" ==>
          after.client.flow == before.client.flow)
  }

  lemma UpsertedSwitches(inbounds: seq<Inbound>, name: string, known: Entry, e: Entry, tag: string)
    requires tag in e.credentials && Upserted(inbounds, name, e, tag).Ok? && known.id == e.id
    requires e.credentials[tag].protocol == inbounds[Find(inbounds, tag).value].protocol
    ensures var (item, c) := Upserted(inbounds, name, e, tag).value;
            SwitchedOnTo(known, e.credentials[tag], c, item, inbounds[Find(inbounds, tag).value])
  {
    UpsertedKeeps(inbounds, name, e, tag);
  }

  lemma EnabledRecord(inbounds: seq<Inbound>, name: string, e: Entry, sel: set<string>)
    requires e.credentials != map[]
    ensures var e' := Sync(e.(credentials := EnabledCredentials(inbounds, name, e, sel)));
            Repeats(e') && SameTerms(e, e')
  {
    var k :| k in e.credentials;
    assert k in EnabledCredentials(inbounds, name, e, sel);
    SyncRepeats(e.(credentials := EnabledCredentials(inbounds, name, e, sel)));
  }

  lemma EnabledSecret(s: State, s': State, name: string, e: Entry, sel: set<string>, t: string)
    requires MirrorOf(s, name) && name in s.clients && s.clients[name].credentials == e.credentials && t in sel
    requires EnabledIn(s, s', name, e, sel) && EntryOk(s.inbounds, name, s.clients[name]) && !Enabled(s, name, t)
    requires e.id == s.clients[name].id
    ensures SwitchedOn(s, s', name, t)
  {
    assert MirrorAt(s, name, t);
    assert CredentialOk(s.inbounds, name, t, e.credentials[t]);
    assert NeedsEnable(s.inbounds, name, e, t);
    UpsertedSwitches(s.inbounds, name, s.clients[name], e, t);
    assert Items(s'.inbounds, t, name) == EnabledItems(s.inbounds, name, e, sel, t);
  }

  lemma EnabledIsLive(s: State, name: string, sel: set<string>)
    requires MirrorOf(s, name) && forall t | t in sel :: Enabled(s, name, t)
    ensures LiveUnder(s, name, sel)
  {
    forall t | t in sel ensures |Items(s.inbounds, t, name)| == 1 {
      assert MirrorAt(s, name, t);
    }
  }

  /** Disabling a live credential and enabling it again gives the client an item with the secret it had. */
  lemma DisableThenEnable(s: State, s1: State, s2: State, name: string, tag: string, stamp: string, traffic: History, now: Moment)
    requires ValidMoment(now) && Consistent(s) && Enabled(s, name, tag)
    requires ClientDisabled(s, s1, name, Some(tag), stamp) && ClientEnabled(s1, s2, name, Some(tag), traffic, now)
    ensures var before, after := Items(s.inbounds, tag, name), Items(s2.inbounds, tag, name);
            && |before| == 1 && |after| == 1
            && (s.clients[name].credentials[tag].protocol.Trojan? ==> after[0].password == Trim(before[0].password))
            && (!s.clients[name].credentials[tag].protocol.Trojan? && before[0].id != "" ==> after[0].id == before[0].id)
  {
    assert MirrorAt(s, name, tag) by {
      assert MirrorOf(s, name);
    }
    NobodyToAdopt(s, name);
    RememberedItem(s, s1, name, tag, stamp);
    assert Sync(s1.clients[name]) == s1.clients[name] by {
      DisableKeeps(s, s1, name, Some(tag), stamp);
      assert EntryOk(s1.inbounds, name, s1.clients[name]);
    }
    FreshItem(s1, s2, name, s1.clients[name].(disabled := NOT_DISABLED), tag);
  }

  /** A disabled credential remembers the item that was taken out. */
  lemma RememberedItem(s: State, s1: State, name: string, tag: string, stamp: string)
    requires name in s.clients && EntryFor(s, name) == Some(s.clients[name])
    requires ClientDisabled(s, s1, name, Some(tag), stamp) && Items(s.inbounds, tag, name) != []
    ensures CredentialAt(s1, name, tag) == Some(DisabledCredential(s.inbounds, name, s.clients[name], tag))
    ensures Items(s1.inbounds, tag, name) == []
  {}

  /** Enabling a credential that has no item leaves exactly the fresh one, with the stored secret. */
  lemma FreshItem(s1: State, s2: State, name: string, e: Entry, tag: string)
    requires tag in e.credentials && Items(s1.inbounds, tag, name) == [] && EnabledIn(s1, s2, name, e, {tag})
    ensures Upserted(s1.inbounds, name, e, tag).Ok?
    ensures Items(s2.inbounds, tag, name) == [Upserted(s1.inbounds, name, e, tag).value.0]
    ensures var c, item := e.credentials[tag], Items(s2.inbounds, tag, name)[0];
            && (c.protocol.Trojan? ==> item.password == Trim(c.client.password))
            && (!c.protocol.Trojan? && c.client.id != "" ==> item.id == c.client.id)
  {
    assert NeedsEnable(s1.inbounds, name, e, tag);
    assert Items(s2.inbounds, tag, name) == EnabledItems(s1.inbounds, name, e, {tag}, tag);
    SecretComesBack(s1.inbounds, name, e, tag);
  }

  lemma SecretComesBack(inbounds: seq<Inbound>, name: string, e: Entry, tag: string)
    requires tag in e.credentials && Upserted(inbounds, name, e, tag).Ok?
    ensures var c, item := e.credentials[tag], Upserted(inbounds, name, e, tag).value.0;
            && (c.protocol.Trojan? ==> item.password == Trim(c.client.password))
            && (!c.protocol.Trojan? && c.client.id != "" ==> item.id == c.client.id)
  {}

  // ---- remove ----

  lemma RemoveEffect(s: State, name: string)
    ensures var s' := Removed(s, name);
            && name !in s'.clients && (forall t :: Items(s'.inbounds, t, name) == [])
            && OnlyClient(s, s', name)
  {
    DroppedExcept(s.inbounds, name);
    forall t ensures Items(Removed(s, name).inbounds, t, name) == [] {
      DroppedItems(s.inbounds, name, t);
    }
    OnlyClientOf(s, Removed(s, name), name);
  }

  // ---- rotate ----

  /** One Trojan credential, in the record and in its live item, has the new password; it is as live as before. */
  ghost predicate PasswordSet(s: State, s': State, name: string, t: string, password: string) {
    && CredentialAt(s, name, t).Some? && CredentialAt(s', name, t).Some?
    && (forall u | u != t :: SameUnder(s, s', name, u))
    && Repeats(s'.clients[name]) && SameTerms(s.clients[name], s'.clients[name])
    && s'.clients[name].connection == s.clients[name].connection
    && OnlyPassword(s.clients[name], CredentialAt(s, name, t).value, CredentialAt(s', name, t).value, password)
    && var before, after := Items(s.inbounds, t, name), Items(s'.inbounds, t, name);
       if Enabled(s, name, t) then |before| == |after| == 1 && after[0] == before[0].(password := password)
       else before == after == []
  }

  /** A credential with a new password and otherwise as it was. */
  predicate OnlyPassword(e: Entry, before: Credential, after: Credential, password: string) {
    && after == before.(client := after.client)
    && after.client == before.client.(password := password, id := FirstId(e, before))
  }

  /** The tag that a rotation works on. */
  function RotatedTag(s: State, name: string, tag: Option<string>, password: string): string
    requires RotateError(s, name, tag, password).None?
  {
    TrojanTag(s.inbounds, EntryFor(s, name).value, tag).value
  }

  /** What a rotation has checked. */
  lemma Rotatable(s: State, name: string, tag: Option<string>, password: string)
    requires RotateError(s, name, tag, password).None?
    ensures var e, t := EntryFor(s, name).value, RotatedTag(s, name, tag, password);
            && EntryFor(s, name).Some? && t in e.credentials && e.credentials[t].protocol.Trojan?
            && (tag.Some? ==> t == tag.value) && ValidPassword(password)
            && Rotated(s, name, tag, password) == RotatedAt(s, name, e, t, password)
  {}

  /** Record and live item get the new password; the client's other credentials keep theirs. */
  lemma RotateEffect(s: State, name: string, tag: Option<string>, password: string)
    requires Consistent(s) && RotateError(s, name, tag, password).None?
    ensures tag.Some? ==> RotatedTag(s, name, tag, password) == tag.value
    ensures var s' := Rotated(s, name, tag, password);
            PasswordSet(s, s', name, RotatedTag(s, name, tag, password), password) && OnlyClient(s, s', name)
  {
    NobodyToAdopt(s, name);
    Rotatable(s, name, tag, password);
    assert MirrorOf(s, name) && EntryOk(s.inbounds, name, s.clients[name]);
    RotatedAtEffect(s, name, s.clients[name], RotatedTag(s, name, tag, password), password);
  }

  lemma RotatedAtEffect(s: State, name: string, e: Entry, t: string, password: string)
    requires MirrorOf(s, name) && Record(s, name) == Some(e)
    requires t in e.credentials && e.credentials[t].protocol.Trojan? && e.connection in e.credentials
    ensures var s' := RotatedAt(s, name, e, t, password);
            PasswordSet(s, s', name, t, password) && OnlyClient(s, s', name)
  {
    var s' := RotatedAt(s, name, e, t, password);
    assert MirrorAt(s, name, t);
    var item := ActiveItem(s.inbounds, t, name);
    if item.Some? {
      ItemsNames(s.inbounds, t, name);
      PutItemEffect(s.inbounds, t, name, item.value.(password := password));
    } else {
      SameExceptRefl(s.inbounds, {name});
    }
    TouchesRecord(s, s'.inbounds, name, s'.clients[name]);
    OnlyClientOf(s, s', name);
    assert t in s'.clients[name].credentials;
    SyncRepeats(e.(credentials := e.credentials[t := RotatedCredential(e.credentials[t], e.id, password)]));
  }

  // ---- move ----

  /** The client has exactly the target's credential, as live as before and with the secret it had; its live item is
      re-addressed. */
  lemma MoveEffect(s: State, name: string, target: string)
    requires Consistent(s) && MoveError(s, name, target).None?
    ensures name in s.clients && MoveSource(s, name, s.clients[name]) in s.clients[name].credentials
    ensures var s', source := Moved(s, name, target), MoveSource(s, name, s.clients[name]);
            && name in s'.clients && s'.clients[name].credentials.Keys == {target}
            && Items(s'.inbounds, source, name) == []
            && (if Enabled(s, name, source) then SameItemMoved(s, s', name, source, target)
                else Items(s'.inbounds, target, name) == [])
            && OnlyClient(s, s', name)
    ensures var s', source := Moved(s, name, target), MoveSource(s, name, s.clients[name]);
            && Find(s.inbounds, target).Some?
            && Readdressed(s.clients[name], s.clients[name].credentials[source],
                           s'.clients[name].credentials[target], s.inbounds[Find(s.inbounds, target).value], name)
            && MovedRecord(s.clients[name], s'.clients[name], target)
            && MovedIds(s, s'.clients[name], name, source, target)
  {
    Movable(s, name, target);
    NobodyToAdopt(s, name);
    MoveOneEffect(s, name, s.clients[name], target, MovedItem(s, name, s.clients[name], target).value);
  }

  /** What a disabled credential dials in with once it is enabled: the trimmed password, or the first id on record. */
  function Dials(e: Entry, c: Credential): string {
    if c.protocol.Trojan? then Trim(c.client.password) else FirstId(e, c)
  }

  /** The credential describes its new inbound and is otherwise the one that was moved, with its secret. */
  predicate Readdressed(e: Entry, before: Credential, after: Credential, i: Inbound, name: string) {
    && Describes(after, i) && after.protocol == before.protocol
    && after.created == before.created && after.enabled == before.enabled && (before.id != "" ==> after.id != "")
    && Name(after.client) == name && OwnEmail(name, after.client)
    && Secret(after) == (if before.enabled then Secret(before) else Dials(e, before))
    && (!before.enabled && before.protocol.Vless? ==>
          && after.client.password == before.client.password
          && (before.client.flow != "" && after.transport == "tcp" ==> after.client.flow == before.client.flow))
  }

  /** The record's id follows the moved item where that has one, and the credential's id follows the record's. */
  ghost predicate MovedIds(s: State, after: Entry, name: string, source: string, target: string)
    requires name in s.clients && source in s.clients[name].credentials && target in after.credentials
  {
    var e, c, c' := s.clients[name], s.clients[name].credentials[source], after.credentials[target];
    var items := Items(s.inbounds, source, name);
    var moved := if c.enabled then (if items == [] then "" else items[0].id) else if c.protocol.Trojan? then "" else FirstId(e, c);
    && after.id == (if moved != "" then moved else e.id)
    && c'.id == (if after.id != "" then after.id else if c.id != "" then c.id else c'.client.id)
    && (c'.protocol.Trojan? ==> c'.client.id == after.id)
  }

  lemma MovedIdsHold(s: State, name: string, e: Entry, target: string, moved: Item, source: string)
    requires Consistent(s) && Record(s, name) == Some(e) && e.credentials.Keys == {source} && source == MoveSource(s, name, e)
    requires Find(s.inbounds, target).Some? && MovedItem(s, name, e, target) == Ok(moved)
    requires ActiveAny(s.inbounds, name).Some? <==> e.credentials[source].enabled
    ensures target in MovedEntry(s, name, e, target, moved).credentials
    ensures MovedIds(s, MovedEntry(s, name, e, target, moved), name, source, target)
  {
    MovedFields(s, name, e, target, moved, source);
    MovedEntryIds(s, name, e, target, moved, source);
    MovedItemId(s, name, e, target, moved, source);
  }

  lemma MovedEntryIds(s: State, name: string, e: Entry, target: string, moved: Item, source: string)
    requires Find(s.inbounds, target).Some? && e.credentials.Keys == {source} && source == MoveSource(s, name, e)
    ensures var e' := MovedEntry(s, name, e, target, moved);
            && target in e'.credentials && e'.id == Or(moved.id, e.id)
            && e'.credentials[target].id == Or(e'.id, Or(e.credentials[source].id, e'.credentials[target].client.id))
            && (e'.credentials[target].protocol.Trojan? ==> e'.credentials[target].client.id == e'.id)
  {
    MovedEntryShape(s, name, e, target, moved, source);
    assert source in e.credentials;
  }

  lemma MovedItemId(s: State, name: string, e: Entry, target: string, moved: Item, source: string)
    requires Consistent(s) && Record(s, name) == Some(e) && e.credentials.Keys == {source} && source == MoveSource(s, name, e)
    requires Find(s.inbounds, target).Some? && MovedItem(s, name, e, target) == Ok(moved)
    requires ActiveAny(s.inbounds, name).Some? <==> e.credentials[source].enabled
    ensures var c, items := e.credentials[source], Items(s.inbounds, source, name);
            moved.id == if c.enabled then (if items == [] then "" else items[0].id)
                        else if c.protocol.Trojan? then "" else FirstId(e, c)
  {
    if ActiveAny(s.inbounds, name).Some? {
      OneLiveItem(s, name, source);
      MovedItemKeeps(s, name, e, target);
    } else {
      assert EntryOk(s.inbounds, name, e);
      SyncedIff(e);
      StoredItemId(s, name, e, target, moved);
    }
  }

  lemma StoredItemId(s: State, name: string, e: Entry, target: string, moved: Item)
    requires Find(s.inbounds, target).Some? && MovedItem(s, name, e, target) == Ok(moved) && ActiveAny(s.inbounds, name).None?
    requires Repeats(e)
    ensures moved.id == if e.credentials[e.connection].protocol.Trojan? then "" else FirstId(e, e.credentials[e.connection])
  {}

  /** The record names the target; only its id may follow that of the moved item. */
  predicate MovedRecord(before: Entry, after: Entry, target: string) {
    && after.connection == target && Repeats(after)
    && SameTerms(before.(id := after.id), after) && (before.id != "" ==> after.id != "")
  }

  /** The one item under the source and the one under the target have the same id and password. */
  predicate SameItemMoved(s: State, s': State, name: string, source: string, target: string) {
    var before, after := Items(s.inbounds, source, name), Items(s'.inbounds, target, name);
    && |before| == 1 && |after| == 1 && after[0].id == before[0].id && after[0].password == before[0].password
    && CredentialAt(s', name, target).Some? && Refilled(CredentialAt(s', name, target).value, after[0])
  }

  lemma MoveOneEffect(s: State, name: string, e: Entry, target: string, moved: Item)
    requires Consistent(s) && Record(s, name) == Some(e) && |e.credentials| <= 1
    requires Find(s.inbounds, target).Some? && MoveSource(s, name, e) != target && MovedItem(s, name, e, target) == Ok(moved)
    requires SourceProtocol(s, name, e) == Some(s.inbounds[Find(s.inbounds, target).value].protocol)
    ensures MoveSource(s, name, e) in e.credentials
    ensures var s', source := MovedFrom(s, name, e, target, moved), MoveSource(s, name, e);
            && name in s'.clients && s'.clients[name].credentials.Keys == {target}
            && Items(s'.inbounds, source, name) == []
            && (if Enabled(s, name, source) then SameItemMoved(s, s', name, source, target)
                else Items(s'.inbounds, target, name) == [])
            && OnlyClient(s, s', name)
            && Readdressed(e, e.credentials[source], s'.clients[name].credentials[target],
                           s.inbounds[Find(s.inbounds, target).value], name)
            && MovedRecord(e, s'.clients[name], target)
            && MovedIds(s, s'.clients[name], name, source, target)
  {
    var source := MoveSource(s, name, e);
    MoveFacts(s, name, e);
    assert EntryOk(s.inbounds, name, e);
    MovedItemOk(s, name, e, target);
    MovedEntryShape(s, name, e, target, moved, source);
    SoleCredential(s, name, source);
    MovedFromEffect(s, name, e, target, moved);
    MovedSecret(s, name, e, target, moved, source);
    MovedRecordHolds(s, name, e, target, moved, source);
    MovedIdsHold(s, name, e, target, moved, source);
    if ActiveAny(s.inbounds, name).Some? {
      OneLiveItem(s, name, source);
      MovedItemKeeps(s, name, e, target);
    }
  }

  lemma MovedSecret(s: State, name: string, e: Entry, target: string, moved: Item, source: string)
    requires Consistent(s) && Record(s, name) == Some(e) && e.credentials.Keys == {source} && source == MoveSource(s, name, e)
    requires Find(s.inbounds, target).Some? && MovedItem(s, name, e, target) == Ok(moved)
    requires SourceProtocol(s, name, e) == Some(s.inbounds[Find(s.inbounds, target).value].protocol)
    requires ActiveAny(s.inbounds, name).Some? <==> e.credentials[source].enabled
    ensures target in MovedEntry(s, name, e, target, moved).credentials
    ensures Readdressed(e, e.credentials[source], MovedEntry(s, name, e, target, moved).credentials[target],
                        s.inbounds[Find(s.inbounds, target).value], name)
  {
    assert EntryOk(s.inbounds, name, e);
    MovedItemOk(s, name, e, target);
    MovedFields(s, name, e, target, moved, source);
    MovedProtocol(s, name, e, target, source);
    if ActiveAny(s.inbounds, name).Some? {
      LiveItemMoves(s, name, e, target, moved, source);
    } else {
      StoredItemMoves(s, name, e, target, moved);
    }
    MovedItemReaddresses(e, e.credentials[source], MovedEntry(s, name, e, target, moved).credentials[target],
                         s.inbounds[Find(s.inbounds, target).value], name, moved);
  }

  /** The credential has the protocol of both inbounds. */
  lemma MovedProtocol(s: State, name: string, e: Entry, target: string, source: string)
    requires Consistent(s) && Record(s, name) == Some(e) && source == MoveSource(s, name, e) && source in e.credentials
    requires Find(s.inbounds, target).Some?
    requires SourceProtocol(s, name, e) == Some(s.inbounds[Find(s.inbounds, target).value].protocol)
    ensures e.credentials[source].protocol == s.inbounds[Find(s.inbounds, target).value].protocol
    ensures !e.credentials[source].protocol.Other?
  {
    assert EntryOk(s.inbounds, name, e) && CredentialOk(s.inbounds, name, source, e.credentials[source]);
    FindSpec(s.inbounds, target);
    if ActiveAny(s.inbounds, name).Some? {
      ActiveHere(s, name);
    }
  }

  /** The moved item has the secret and the flow of the credential. */
  predicate CarriesSecret(e: Entry, c: Credential, i: Inbound, moved: Item) {
    if c.enabled then
      if c.protocol.Trojan? then moved.password == c.client.password else moved.id == c.client.id
    else if c.protocol.Trojan? then Trim(moved.password) == Dials(e, c)
    else
      && moved.id == Dials(e, c) && moved.password == c.client.password
      && (c.client.flow != "" && Or(i.network, "tcp") == "tcp" ==> moved.flow == c.client.flow)
  }

  lemma MovedItemReaddresses(e: Entry, c: Credential, c': Credential, i: Inbound, name: string, moved: Item)
    requires c'.protocol == i.protocol == c.protocol && c'.security == i.security && c'.transport == Or(i.network, "tcp")
    requires c'.created == c.created && c'.enabled == c.enabled && (c.id != "" ==> c'.id != "")
    requires Refilled(c', moved) && Name(moved) == name && OwnEmail(name, moved) && FlowFits(i, moved)
    requires CarriesSecret(e, c, i, moved) && !c.protocol.Other?
    ensures Readdressed(e, c, c', i, name)
  {}

  /** What the re-filled credential has, by the item that was moved. */
  lemma MovedFields(s: State, name: string, e: Entry, target: string, moved: Item, source: string)
    requires Find(s.inbounds, target).Some? && e.credentials.Keys == {source} && source == MoveSource(s, name, e)
    ensures target in MovedEntry(s, name, e, target, moved).credentials
    ensures var i, c := s.inbounds[Find(s.inbounds, target).value], MovedEntry(s, name, e, target, moved).credentials[target];
            && c.protocol == i.protocol && c.security == i.security && c.transport == Or(i.network, "tcp")
            && c.created == e.credentials[source].created && c.enabled == ActiveAny(s.inbounds, name).Some?
            && Refilled(c, moved) && (e.credentials[source].id != "" ==> c.id != "")
  {
    MovedEntryShape(s, name, e, target, moved, source);
    assert source in e.credentials;
  }

  lemma LiveItemMoves(s: State, name: string, e: Entry, target: string, moved: Item, source: string)
    requires Consistent(s) && Record(s, name) == Some(e) && source == MoveSource(s, name, e) && source in e.credentials
    requires Find(s.inbounds, target).Some? && MovedItem(s, name, e, target) == Ok(moved) && ActiveAny(s.inbounds, name).Some?
    requires e.credentials[source].enabled
    ensures CarriesSecret(e, e.credentials[source], s.inbounds[Find(s.inbounds, target).value], moved)
    ensures FlowFits(s.inbounds[Find(s.inbounds, target).value], moved)
  {
    OneLiveItem(s, name, source);
    ActiveHere(s, name);
    assert MirrorOf(s, name) && MirrorAt(s, name, source);
  }

  lemma StoredItemMoves(s: State, name: string, e: Entry, target: string, moved: Item)
    requires Find(s.inbounds, target).Some? && MovedItem(s, name, e, target) == Ok(moved) && ActiveAny(s.inbounds, name).None?
    requires Sync(e) == e && e.connection in e.credentials
    requires e.credentials[e.connection].protocol == s.inbounds[Find(s.inbounds, target).value].protocol
    requires !e.credentials[e.connection].enabled && !e.credentials[e.connection].protocol.Other?
    ensures CarriesSecret(e, e.credentials[e.connection], s.inbounds[Find(s.inbounds, target).value], moved)
    ensures FlowFits(s.inbounds[Find(s.inbounds, target).value], moved)
  {
    TrimIdempotent(e.client.password);
    assert e.credentials != map[];
    SyncedIff(e);
  }

  lemma MovedRecordHolds(s: State, name: string, e: Entry, target: string, moved: Item, source: string)
    requires Find(s.inbounds, target).Some? && e.credentials.Keys == {source} && source == MoveSource(s, name, e)
    ensures MovedRecord(e, MovedEntry(s, name, e, target, moved), target)
  {
    MovedEntryShape(s, name, e, target, moved, source);
    SyncedIff(MovedEntry(s, name, e, target, moved));
  }

  lemma OneLiveItem(s: State, name: string, source: string)
    requires Consistent(s) && ActiveAny(s.inbounds, name).Some?
    requires source == Tag(s.inbounds[ActiveAny(s.inbounds, name).value])
    ensures |Items(s.inbounds, source, name)| == 1
    ensures Items(s.inbounds, source, name) == Only(s.inbounds[ActiveAny(s.inbounds, name).value].clients, name)
  {
    ActiveHere(s, name);
    assert MirrorOf(s, name) && MirrorAt(s, name, source);
  }

  lemma MovedItemKeeps(s: State, name: string, e: Entry, target: string)
    requires Find(s.inbounds, target).Some? && MovedItem(s, name, e, target).Ok? && ActiveAny(s.inbounds, name).Some?
    ensures var before := Only(s.inbounds[ActiveAny(s.inbounds, name).value].clients, name)[0];
            var after := MovedItem(s, name, e, target).value;
            after.id == before.id && after.password == before.password
  {}

  lemma MovedFromEffect(s: State, name: string, e: Entry, target: string, moved: Item)
    requires Find(s.inbounds, target).Some? && MoveSource(s, name, e) != target && Name(moved) == name
    requires Items(s.inbounds, target, name) == []
    requires ActiveAny(s.inbounds, name).None? ==> Items(s.inbounds, MoveSource(s, name, e), name) == []
    ensures var s', source := MovedFrom(s, name, e, target, moved), MoveSource(s, name, e);
            && Items(s'.inbounds, source, name) == []
            && Items(s'.inbounds, target, name) == (if ActiveAny(s.inbounds, name).Some? then [moved] else [])
            && OnlyClient(s, s', name)
  {
    var s', source := MovedFrom(s, name, e, target, moved), MoveSource(s, name, e);
    if ActiveAny(s.inbounds, name).Some? {
      var dropped := DropItems(s.inbounds, source, name);
      DropItemsEffect(s.inbounds, source, name);
      FindAfterDrop(s.inbounds, source, name, target);
      PutItemEffect(dropped, target, name, moved);
      SameExceptTransitive(s.inbounds, dropped, s'.inbounds, {name}, {name});
      assert {name} + {name} == {name};
    } else {
      SameExceptRefl(s.inbounds, {name});
    }
    TouchesRecord(s, s'.inbounds, name, s'.clients[name]);
    OnlyClientOf(s, s', name);
  }

  /** A disabled client that is moved can be enabled there exactly when it could be enabled at all. */
  lemma MovedCanBeEnabled(s: State, name: string, target: string, traffic: History, now: Moment)
    requires ValidMoment(now) && Consistent(s) && MoveError(s, name, target).None?
    requires name in s.clients && !s.clients[name].enabled
    ensures MoveSource(s, name, s.clients[name]) in s.clients[name].credentials
    ensures var e := s.clients[name];
            var c := e.credentials[MoveSource(s, name, e)];
            !CannotEnable(Moved(s, name, target), name, Some(target), traffic, now) <==>
              && !AccessExpired(e.expiresAt, now) && !Exceeded(e.limit, traffic, now)
              && (c.protocol.Trojan? ==> ValidPassword(Trim(c.client.password)))
  {
    var s1 := Moved(s, name, target);
    MoveEffect(s, name, target);
    DisabledMove(s, name, target);
    MoveKeeps(s, name, target);
    EnablesIff(s1, name, Some(target), traffic, now);
    TrimIdempotent(s.clients[name].credentials[MoveSource(s, name, s.clients[name])].client.password);
    assert target in s1.clients[name].credentials;
  }

  /** The credential of a disabled client is off, and it cannot be moved without a secret. */
  lemma DisabledMove(s: State, name: string, target: string)
    requires Consistent(s) && MoveError(s, name, target).None? && name in s.clients && !s.clients[name].enabled
    requires MoveSource(s, name, s.clients[name]) in s.clients[name].credentials
    ensures var e := s.clients[name];
            var c := e.credentials[MoveSource(s, name, e)];
            !c.enabled && Dials(e, c) != ""
  {
    var e := s.clients[name];
    Movable(s, name, target);
    NobodyToAdopt(s, name);
    assert EntryOk(s.inbounds, name, e);
    SyncedIff(e);
    MoveFacts(s, name, e);
  }

  /** Moving a disabled client and enabling it there gives it one item, with the secret it had. */
  lemma MoveThenEnable(s: State, s2: State, name: string, target: string, traffic: History, now: Moment)
    requires ValidMoment(now) && Consistent(s) && MoveError(s, name, target).None?
    requires name in s.clients && !s.clients[name].enabled
    requires ClientEnabled(Moved(s, name, target), s2, name, Some(target), traffic, now)
    ensures MoveSource(s, name, s.clients[name]) in s.clients[name].credentials
    ensures var e, items := s.clients[name], Items(s2.inbounds, target, name);
            var c := e.credentials[MoveSource(s, name, e)];
            && |items| == 1 && Dials(e, c) != ""
            && (if c.protocol.Trojan? then Trim(items[0].password) == Dials(e, c) else items[0].id == Dials(e, c))
  {
    var s1 := Moved(s, name, target);
    MoveEffect(s, name, target);
    DisabledMove(s, name, target);
    MoveKeeps(s, name, target);
    EnableEffect(s1, s2, name, Some(target), traffic, now);
    assert SwitchedOn(s1, s2, name, target);
  }

  // ---- when the commands succeed ----

  /** A credential can be added exactly under a tag of its own, with a password that meets the policy. */
  lemma AddsIff(s: State, name: string, tag: string, input: AddInput)
    requires Consistent(s) && ValidMoment(input.now)
    ensures AddError(s, name, tag, input).None? <==>
              && Find(s.inbounds, tag).Some? && CredentialAt(s, name, tag).None?
              && (s.inbounds[Find(s.inbounds, tag).value].protocol.Trojan? ==> ValidPassword(input.password))
  {
    NobodyToAdopt(s, name);
    assert MirrorOf(s, name) && MirrorAt(s, name, tag);
  }

  predicate HasTrojan(e: Entry, t: string) {
    t in e.credentials && e.credentials[t].protocol.Trojan?
  }

  /** A password can be rotated exactly for the Trojan credential asked for, or for the only one. */
  lemma RotatesIff(s: State, name: string, tag: Option<string>, password: string)
    requires Consistent(s)
    ensures RotateError(s, name, tag, password).None? <==>
              && name in s.clients && ValidPassword(password)
              && match tag
                 case Some(t) => HasTrojan(s.clients[name], t)
                 case None => exists t | t in s.clients[name].credentials :: OnlyTrojan(s.clients[name], t)
  {
    NobodyToAdopt(s, name);
    if name in s.clients {
      TrojanTagIff(s.inbounds, name, s.clients[name], tag);
    }
  }

  lemma TrojanTagIff(inbounds: seq<Inbound>, name: string, e: Entry, tag: Option<string>)
    requires EntryOk(inbounds, name, e)
    ensures TrojanTag(inbounds, e, tag).Ok? <==>
              match tag
              case Some(t) => HasTrojan(e, t)
              case None => exists t | t in e.credentials :: OnlyTrojan(e, t)
  {
    NoneMissing(inbounds, name, e);
    OnlyTrojanIff(e);
  }

  lemma NoneMissing(inbounds: seq<Inbound>, name: string, e: Entry)
    requires EntryOk(inbounds, name, e)
    ensures !SomeInboundMissing(inbounds, e) && forall t | t in e.credentials :: Find(inbounds, t).Some?
  {
    forall t | t in e.credentials ensures Find(inbounds, t).Some? {
      assert CredentialOk(inbounds, name, t, e.credentials[t]);
    }
  }

  predicate OnlyTrojan(e: Entry, t: string) {
    HasTrojan(e, t) && forall u | u in e.credentials && HasTrojan(e, u) :: u == t
  }

  lemma OnlyTrojanIff(e: Entry)
    ensures TrojanTags(e) != {} && |TrojanTags(e)| <= 1 <==> exists t | t in e.credentials :: OnlyTrojan(e, t)
  {
    if TrojanTags(e) != {} && |TrojanTags(e)| <= 1 {
      var t :| t in TrojanTags(e);
      OnlyMemberOf(TrojanTags(e), t);
      forall u | u in e.credentials && HasTrojan(e, u) ensures u == t {
        assert u in TrojanTags(e);
      }
      assert OnlyTrojan(e, t);
    }
    if t :| t in e.credentials && OnlyTrojan(e, t) {
      assert TrojanTags(e) == {t};
    }
  }

  lemma OnlyMemberOf(tags: set<string>, t: string)
    requires |tags| <= 1 && t in tags
    ensures tags == {t}
  {
    assert |tags - {t}| == 0;
  }

  /** A client can be moved exactly when its only credential is for another inbound of the target's protocol, and,
      if it is disabled, there is a secret to move. */
  lemma MovesIff(s: State, name: string, target: string)
    requires Consistent(s)
    ensures MoveError(s, name, target).None? <==>
              && Find(s.inbounds, target).Some? && name in s.clients
              && s.clients[name].credentials.Keys == {s.clients[name].connection}
              && s.clients[name].connection != target
              && MovesAs(s.clients[name], s.inbounds[Find(s.inbounds, target).value].protocol)
  {
    NobodyToAdopt(s, name);
    if Find(s.inbounds, target).Some? && name in s.clients && |s.clients[name].credentials| <= 1 {
      SoleConnection(s, name, s.clients[name]);
      MovesOneIff(s, name, s.clients[name], target);
    }
  }

  predicate MovesAs(e: Entry, protocol: Protocol)
    requires e.connection in e.credentials
  {
    var c := e.credentials[e.connection];
    c.protocol == protocol && (!c.enabled ==> Dials(e, c) != "")
  }

  lemma MovesOneIff(s: State, name: string, e: Entry, target: string)
    requires Consistent(s) && Record(s, name) == Some(e) && EntryFor(s, name) == Some(e)
    requires e.credentials.Keys == {e.connection} && |e.credentials| <= 1 && Find(s.inbounds, target).Some?
    ensures MoveError(s, name, target).None? <==>
              e.connection != target && MovesAs(e, s.inbounds[Find(s.inbounds, target).value].protocol)
  {
    MoveFacts(s, name, e);
    SoleCredential(s, name, e.connection);
    MovedFromProtocol(s, name, e);
    assert EntryOk(s.inbounds, name, e);
    SyncedIff(e);
    NothingAtTarget(s, name, e, target);
    MovesGiven(s, name, e, target);
  }

  lemma MovesGiven(s: State, name: string, e: Entry, target: string)
    requires EntryFor(s, name) == Some(e) && Find(s.inbounds, target).Some?
    requires e.credentials.Keys == {e.connection} && |e.credentials| <= 1 && MoveSource(s, name, e) == e.connection != ""
    requires SourceProtocol(s, name, e) == Some(e.credentials[e.connection].protocol)
    requires target != e.connection ==>
               (MovedItem(s, name, e, target).Ok? <==>
                  !e.credentials[e.connection].enabled ==> Dials(e, e.credentials[e.connection]) != "")
    ensures MoveError(s, name, target).None? <==>
              e.connection != target && MovesAs(e, s.inbounds[Find(s.inbounds, target).value].protocol)
  {
    MoveErrorOf(s, name, e, target);
    assert target in e.credentials.Keys <==> target == e.connection;
  }

  lemma MoveErrorOf(s: State, name: string, e: Entry, target: string)
    requires EntryFor(s, name) == Some(e) && Find(s.inbounds, target).Some?
    ensures MoveError(s, name, target).None? <==>
              && |e.credentials| <= 1 && target !in e.credentials
              && MoveSource(s, name, e) != "" && MoveSource(s, name, e) != target
              && SourceProtocol(s, name, e) == Some(s.inbounds[Find(s.inbounds, target).value].protocol)
              && MovedItem(s, name, e, target).Ok?
  {}

  /** The inbound that the client would be moved from is known, and its protocol is that of the credential. */
  lemma MovedFromProtocol(s: State, name: string, e: Entry)
    requires Consistent(s) && Record(s, name) == Some(e) && e.credentials.Keys == {e.connection} && |e.credentials| <= 1
    ensures MoveSource(s, name, e) == e.connection != ""
    ensures SourceProtocol(s, name, e) == Some(e.credentials[e.connection].protocol)
    ensures e.enabled <==> ActiveAny(s.inbounds, name).Some?
  {
    MoveFacts(s, name, e);
    assert EntryOk(s.inbounds, name, e) && CredentialOk(s.inbounds, name, e.connection, e.credentials[e.connection]);
    SyncedIff(e);
    FindSpec(s.inbounds, e.connection);
    if ActiveAny(s.inbounds, name).Some? {
      ActiveHere(s, name);
    }
  }

  lemma NothingAtTarget(s: State, name: string, e: Entry, target: string)
    requires Find(s.inbounds, target).Some? && Repeats(e) && (e.enabled <==> ActiveAny(s.inbounds, name).Some?)
    requires e.credentials.Keys == {e.connection}
    requires target != e.connection ==> Items(s.inbounds, target, name) == []
    ensures target != e.connection ==>
              (MovedItem(s, name, e, target).Ok? <==>
                 !e.credentials[e.connection].enabled ==> Dials(e, e.credentials[e.connection]) != "")
  {}
}
