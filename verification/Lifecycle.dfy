/** Adding, removing and moving clients, and rotating Trojan passwords. */
module Lifecycle {
  import opened Wrappers
  import opened Text
  import Email
  import opened Calendar
  import opened Limits
  import opened ClientState
  import opened Credentials
  import opened Switching

  // ---- add ----

  /** What the caller of `add` supplies, and what its factories produced. */
  datatype AddInput = AddInput(days: Option<nat>, paid: Option<bool>, uuid: string, credentialUuid: string,
                               password: string, stamp: string, now: Moment)

  /** The record that receives the new credential. */
  function AddBase(s: State, name: string, input: AddInput): Entry
    requires ValidMoment(input.now)
  {
    match EntryFor(s, name)
    case None =>
      Entry(input.uuid, input.stamp, true, "", Vless, NO_ITEM, input.paid == Some(true),
            ExpiresAtFromDays(input.days, input.now), None, NOT_DISABLED, map[])
    case Some(e) =>
      e.(id := Or(e.id, input.uuid), paid := if input.paid.Some? then input.paid.value else e.paid)
  }

  /** `credential_record`: the inbound item and the stored credential. */
  function CredentialRecord(name: string, i: Inbound, tag: string, id: string, created: string, password: string)
    : Result<(Item, Credential), Error>
  {
    var email := Email.EmailForClient(name, created, tag);
    if i.protocol.Trojan? then
      if !ValidPassword(password) then Err(InvalidPassword)
      else
        var item := Item(email, "", password, "");
        Ok((item, Credential(id, Trojan, i.security, Transport(i), true, created, item.(id := id))))
    else
      var item := WithTransport(Item(email, id, "", ""), Transport(i));
      Ok((item, Credential(id, i.protocol, i.security, Transport(i), true, created, item)))
  }

  function AddError(s: State, name: string, tag: string, input: AddInput): Option<Error>
    requires ValidMoment(input.now)
  {
    if Find(s.inbounds, tag).None? then Some(ConnectionNotFound)
    else if tag in AddBase(s, name, input).credentials || Items(s.inbounds, tag, name) != [] then Some(CredentialExists)
    else if AddRecord(s, name, tag, input).Err? then Some(AddRecord(s, name, tag, input).error)
    else None
  }

  /** A new client's first credential shares the client's id. */
  function AddRecord(s: State, name: string, tag: string, input: AddInput): Result<(Item, Credential), Error>
    requires Find(s.inbounds, tag).Some?
  {
    var id := if EntryFor(s, name).None? then input.uuid else input.credentialUuid;
    CredentialRecord(name, s.inbounds[Find(s.inbounds, tag).value], tag, id, input.stamp, input.password)
  }

  /** Both copies after `add`: the credential is live only when the client is enabled and not expired. */
  function Added(s: State, name: string, tag: string, input: AddInput): State
    requires ValidMoment(input.now) && AddError(s, name, tag, input).None?
  {
    var base := AddBase(s, name, input);
    var (item, c) := AddRecord(s, name, tag, input).value;
    var live := base.enabled && !AccessExpired(base.expiresAt, input.now);
    AddedOne(s, name, tag, base, item, c.(enabled := live))
  }

  /** A new credential in a record, with its item when it is live. */
  function AddedOne(s: State, name: string, tag: string, base: Entry, item: Item, c: Credential): State
    requires Find(s.inbounds, tag).Some?
  {
    State(if c.enabled then PutItem(s.inbounds, tag, name, item) else s.inbounds, s.connections,
          s.clients[name := Sync(base.(credentials := base.credentials[tag := c]))])
  }

  method AddClient(config: Config, db: Db, name: string, tag: string, input: AddInput) returns (error: Option<Error>)
    requires ValidName(name) && ValidMoment(input.now)
    modifies config, db
    ensures error == AddError(old(View(config, db)), name, tag, input)
    ensures View(config, db) == if error.Some? then old(View(config, db)) else Added(old(View(config, db)), name, tag, input)
  {
    var s := View(config, db);
    var found := Find(config.inbounds, tag);
    if found.None? {
      return Some(ConnectionNotFound);
    }
    var existing := EntryFor(s, name);
    var e := AddBase(s, name, input);
    if tag in e.credentials || ActiveItem(config.inbounds, tag, name).Some? {
      return Some(CredentialExists);
    }
    var id := if existing.None? then input.uuid else input.credentialUuid;
    var i := config.inbounds[found.value];
    var record := CredentialRecord(name, i, tag, id, input.stamp, input.password);
    if record.Err? {
      return Some(record.error);
    }
    var (item, c) := record.value;
    var shouldEnable := e.enabled && !AccessExpired(e.expiresAt, input.now);
    e := Sync(e.(credentials := e.credentials[tag := c.(enabled := shouldEnable)]));
    if shouldEnable {
      AppendIsPut(i.clients, name, item);
      config.inbounds := config.inbounds[found.value := i.(clients := i.clients + [item])];
    }
    db.clients := db.clients[name := e];
    error := None;
  }

  /** Appending is what putting does when the client has no item yet. */
  lemma AppendIsPut(items: seq<Item>, name: string, item: Item)
    requires Only(items, name) == []
    ensures Put(items, name, item) == items + [item]
  {
    var k := FirstAt(items, name);
    if k < |items| {
      OnlyMember(items, k, name);
    }
  }

  lemma RecordMirrors(name: string, i: Inbound, tag: string, id: string, created: string, password: string)
    requires ValidName(name) && !i.protocol.Other?
    requires CredentialRecord(name, i, tag, id, created, password).Ok?
    ensures var (item, c) := CredentialRecord(name, i, tag, id, created, password).value;
            && Name(item) == name && OwnEmail(name, c.client)
            && c.protocol == i.protocol && SameSecret(c.protocol, item, c.client)
  {
    var (item, c) := CredentialRecord(name, i, tag, id, created, password).value;
    Email.NameOfEmail(name, created, tag);
    TrimKeepsName(name, item.email);
  }

  lemma AddKeeps(s: State, name: string, tag: string, input: AddInput)
    requires ValidName(name) && ValidMoment(input.now) && Consistent(s)
    requires AddError(s, name, tag, input).None?
    ensures Consistent(Added(s, name, tag, input))
    ensures SameShape(s.inbounds, Added(s, name, tag, input).inbounds)
  {
    NobodyToAdopt(s, name);
    AddRecordOk(s, name, tag, input);
    var (item, c) := AddRecord(s, name, tag, input).value;
    var base := AddBase(s, name, input);
    AddedOneKeeps(s, name, tag, base, item,
                  c.(enabled := base.enabled && !AccessExpired(base.expiresAt, input.now)));
  }

  function CredentialsOf(s: State, name: string): map<string, Credential> {
    if name in s.clients then s.clients[name].credentials else map[]
  }

  lemma AddedOneKeeps(s: State, name: string, tag: string, base: Entry, item: Item, c: Credential)
    requires ValidName(name) && Consistent(s) && base.credentials == CredentialsOf(s, name)
    requires Find(s.inbounds, tag).Some? && Items(s.inbounds, tag, name) == [] && tag !in base.credentials
    requires Name(item) == name && CredentialOk(s.inbounds, name, tag, c) && SameSecret(c.protocol, item, c.client)
    ensures Consistent(AddedOne(s, name, tag, base, item, c))
    ensures SameShape(s.inbounds, AddedOne(s, name, tag, base, item, c).inbounds)
  {
    var e := Sync(base.(credentials := base.credentials[tag := c]));
    var inbounds := if c.enabled then PutItem(s.inbounds, tag, name, item) else s.inbounds;
    assert EntryOk(s.inbounds, name, e) by {
      AddedEntryOk(s, name, tag, base, c);
    }
    assert SameExcept(s.inbounds, inbounds, {name}) by {
      PutItemEffect(s.inbounds, tag, name, item);
      SameExceptRefl(s.inbounds, {name});
    }
    assert MirrorOf(State(inbounds, s.connections, s.clients[name := e]), name) by {
      assert MirrorOf(s, name);
      AddMirrors(s, State(inbounds, s.connections, s.clients[name := e]), name, tag, item, c);
    }
    KeepsRecord(s, inbounds, name, e);
  }

  lemma AddRecordOk(s: State, name: string, tag: string, input: AddInput)
    requires ValidName(name) && Find(s.inbounds, tag).Some? && AddRecord(s, name, tag, input).Ok?
    ensures var (item, c) := AddRecord(s, name, tag, input).value;
            && Name(item) == name && CredentialOk(s.inbounds, name, tag, c)
            && SameSecret(c.protocol, item, c.client)
  {
    FindSpec(s.inbounds, tag);
    var id := if EntryFor(s, name).None? then input.uuid else input.credentialUuid;
    RecordMirrors(name, s.inbounds[Find(s.inbounds, tag).value], tag, id, input.stamp, input.password);
  }

  /** The client gains one credential, with its item when it is live. */
  lemma AddMirrors(s: State, s': State, name: string, tag: string, item: Item, c: Credential)
    requires MirrorOf(s, name) && Find(s.inbounds, tag).Some?
    requires Items(s.inbounds, tag, name) == [] && CredentialAt(s, name, tag).None?
    requires Name(item) == name && SameSecret(c.protocol, item, c.client)
    requires s'.inbounds == if c.enabled then PutItem(s.inbounds, tag, name, item) else s.inbounds
    requires name in s'.clients && s'.clients[name].credentials
             == (if name in s.clients then s.clients[name].credentials else map[])[tag := c]
    ensures MirrorOf(s', name)
  {
    PutItemEffect(s.inbounds, tag, name, item);
    MirrorOneTag(s, s', name, tag);
  }

  lemma AddedEntryOk(s: State, name: string, tag: string, base: Entry, c: Credential)
    requires ValidName(name) && WellFormed(s) && base.credentials == CredentialsOf(s, name)
    requires CredentialOk(s.inbounds, name, tag, c)
    ensures EntryOk(s.inbounds, name, Sync(base.(credentials := base.credentials[tag := c])))
  {
    var e := base.(credentials := base.credentials[tag := c]);
    SyncIdempotent(e);
    assert tag in e.credentials;
    if name in s.clients {
      assert EntryOk(s.inbounds, name, s.clients[name]);
    }
    forall t | t in e.credentials ensures CredentialOk(s.inbounds, name, t, e.credentials[t]) {
      if t != tag {
        assert CredentialOk(s.inbounds, name, t, s.clients[name].credentials[t]);
      }
    }
  }

  // ---- remove ----

  function DropEverywhere(inbounds: seq<Inbound>, name: string): (r: seq<Inbound>)
    ensures |r| == |inbounds|
    ensures forall k | 0 <= k < |r| :: r[k] == Dropped(inbounds[k], name)
  {
    seq(|inbounds|, k requires 0 <= k < |inbounds| => Dropped(inbounds[k], name))
  }

  function Dropped(i: Inbound, name: string): Inbound {
    if Managed(i) then i.(clients := Without(i.clients, name)) else i
  }

  /** Both copies after `remove`. */
  function Removed(s: State, name: string): State {
    State(DropEverywhere(s.inbounds, name), s.connections, s.clients - {name})
  }

  method RemoveClient(config: Config, db: Db, name: string) returns (error: Option<Error>)
    modifies config, db
    ensures View(config, db) == if error.None? then Removed(old(View(config, db)), name) else old(View(config, db))
    ensures error == if EntryFor(old(View(config, db)), name).Some? then None else Some(ClientNotFound)
  {
    var foundActive := false;
    var n := |config.inbounds|;
    ghost var start := config.inbounds;
    for k := 0 to n
      modifies config
      invariant |config.inbounds| == n
      invariant forall j | 0 <= j < n :: config.inbounds[j] == if j < k then Dropped(start[j], name) else start[j]
      invariant foundActive <==> exists j | 0 <= j < k :: Dropped(start[j], name) != start[j]
    {
      var i := config.inbounds[k];
      if Managed(i) {
        var after := Without(i.clients, name);
        if |after| != |i.clients| {
          foundActive := true;
          config.inbounds := config.inbounds[k := i.(clients := after)];
        } else {
          WithoutNone(i.clients, name);
        }
      }
    }
    FoundIsActive(start, name);
    if !foundActive && name !in db.clients {
      return Some(ClientNotFound);
    }
    db.clients := db.clients - {name};
    error := None;
  }

  /** Some inbound loses items exactly when the client is active somewhere. */
  lemma FoundIsActive(inbounds: seq<Inbound>, name: string)
    ensures ActiveAny(inbounds, name).Some? <==> exists j | 0 <= j < |inbounds| :: Dropped(inbounds[j], name) != inbounds[j]
    ensures ActiveAny(inbounds, name).None? ==> DropEverywhere(inbounds, name) == inbounds
  {
    FirstManagedSpec(inbounds, ByClient(name));
    forall j | 0 <= j < |inbounds|
      ensures Dropped(inbounds[j], name) != inbounds[j] <==> Managed(inbounds[j]) && Accepts(ByClient(name), inbounds[j])
    {
      DroppedIff(inbounds[j], name);
    }
  }

  lemma DroppedIff(i: Inbound, name: string)
    ensures Dropped(i, name) != i <==> Managed(i) && Only(i.clients, name) != []
  {
    OnlyCount(i.clients, name);
    if Only(i.clients, name) == [] {
      WithoutNone(i.clients, name);
    }
  }

  lemma RemoveKeeps(s: State, name: string)
    requires Consistent(s)
    ensures Consistent(Removed(s, name))
    ensures SameShape(s.inbounds, Removed(s, name).inbounds)
  {
    var s' := Removed(s, name);
    DroppedExcept(s.inbounds, name);
    forall t ensures MirrorAt(s', name, t) {
      DroppedItems(s.inbounds, name, t);
    }
    KeepsOne(s, s', name);
  }

  lemma DroppedExcept(inbounds: seq<Inbound>, name: string)
    ensures SameExcept(inbounds, DropEverywhere(inbounds, name), {name})
    ensures SameShape(inbounds, DropEverywhere(inbounds, name))
  {
    var after := DropEverywhere(inbounds, name);
    forall k | 0 <= k < |inbounds| ensures InboundExcept(inbounds[k], after[k], {name}) {
      forall n { OnlyWithout(inbounds[k].clients, name, n); }
    }
    ShapeOf(inbounds, after, {name});
  }

  lemma DroppedItems(inbounds: seq<Inbound>, name: string, tag: string)
    ensures Items(DropEverywhere(inbounds, name), tag, name) == []
  {
    var after := DropEverywhere(inbounds, name);
    FindSpec(after, tag);
    if Find(after, tag).Some? {
      OnlyWithout(inbounds[Find(after, tag).value].clients, name, name);
    }
  }

  // ---- rotate-trojan-password ----

  predicate SomeInboundMissing(inbounds: seq<Inbound>, e: Entry) {
    exists t | t in e.credentials :: Find(inbounds, t).None?
  }

  function TrojanTags(e: Entry): set<string> {
    set t | t in e.credentials && e.credentials[t].protocol.Trojan?
  }

  /** `resolve_trojan_credential_tag`. */
  function TrojanTag(inbounds: seq<Inbound>, e: Entry, tag: Option<string>): Result<string, Error> {
    match tag
    case Some(t) =>
      if t !in e.credentials then Err(CredentialNotFound)
      else if Find(inbounds, t).None? then Err(ConnectionNotFound)
      else if !e.credentials[t].protocol.Trojan? then Err(NotTrojan)
      else Ok(t)
    case None =>
      var tags := TrojanTags(e);
      if SomeInboundMissing(inbounds, e) then Err(ConnectionNotFound)
      else if tags == {} then Err(NotTrojan)
      else if |tags| > 1 then Err(AmbiguousTrojan)
      else Ok(Least(tags))
  }

  function RotateError(s: State, name: string, tag: Option<string>, password: string): Option<Error> {
    match EntryFor(s, name)
    case None => Some(ClientNotFound)
    case Some(e) =>
      match TrojanTag(s.inbounds, e, tag)
      case Err(error) => Some(error)
      case Ok(_) => if ValidPassword(password) then None else Some(InvalidPassword)
  }

  function RotatedCredential(c: Credential, entryId: string, password: string): Credential {
    c.(client := c.client.(password := password, id := Or(c.client.id, Or(c.id, entryId))), protocol := Trojan)
  }

  /** Both copies after a rotation: the stored password and, if it is live, the item's. */
  function Rotated(s: State, name: string, tag: Option<string>, password: string): State
    requires RotateError(s, name, tag, password).None?
  {
    var e := EntryFor(s, name).value;
    RotatedAt(s, name, e, TrojanTag(s.inbounds, e, tag).value, password)
  }

  function RotatedAt(s: State, name: string, e: Entry, t: string, password: string): State
    requires t in e.credentials
  {
    State(WithPassword(s.inbounds, t, name, password), s.connections, s.clients[name := RotatedEntry(e, t, password)])
  }

  function RotatedEntry(e: Entry, t: string, password: string): Entry
    requires t in e.credentials
  {
    Sync(e.(credentials := e.credentials[t := RotatedCredential(e.credentials[t], e.id, password)]))
  }

  lemma ActiveIsFound(inbounds: seq<Inbound>, tag: string, name: string)
    ensures ActiveItem(inbounds, tag, name).Some? ==> Find(inbounds, tag).Some?
  {}

  method RotateTrojanPassword(config: Config, db: Db, name: string, tag: Option<string>, password: string)
      returns (error: Option<Error>, configChanged: bool)
    modifies config, db
    ensures error == RotateError(old(View(config, db)), name, tag, password)
    ensures View(config, db) == if error.Some? then old(View(config, db)) else Rotated(old(View(config, db)), name, tag, password)
    ensures configChanged <==>
              && error.None?
              && var e := EntryFor(old(View(config, db)), name).value;
                 ActiveItem(old(config.inbounds), TrojanTag(old(config.inbounds), e, tag).value, name).Some?
    ensures !configChanged ==> config.inbounds == old(config.inbounds)
  {
    configChanged := false;
    var found := EntryFor(View(config, db), name);
    if found.None? {
      return Some(ClientNotFound), false;
    }
    var e := found.value;
    var selected := TrojanTag(config.inbounds, e, tag);
    if selected.Err? {
      return Some(selected.error), false;
    }
    var t := selected.value;
    if !ValidPassword(password) {
      return Some(InvalidPassword), false;
    }
    configChanged := SetPassword(config, t, name, password);
    db.clients := db.clients[name := RotatedEntry(e, t, password)];
    error := None;
  }

  /** The client's first item under the tag, if it has one, gets the new password. */
  method SetPassword(config: Config, tag: string, name: string, password: string) returns (changed: bool)
    modifies config
    ensures config.inbounds == WithPassword(old(config.inbounds), tag, name, password)
    ensures changed <==> ActiveItem(old(config.inbounds), tag, name).Some?
    ensures !changed ==> config.inbounds == old(config.inbounds)
  {
    var item := ActiveItem(config.inbounds, tag, name);
    if item.None? {
      return false;
    }
    var k := Find(config.inbounds, tag).value;
    var current := config.inbounds[k].clients;
    var at := FirstAt(current, name);
    FirstIsHead(current, name);
    current := current[at := current[at].(password := password)];
    config.inbounds := config.inbounds[k := config.inbounds[k].(clients := current)];
    changed := true;
  }

  function WithPassword(inbounds: seq<Inbound>, tag: string, name: string, password: string): seq<Inbound> {
    var item := ActiveItem(inbounds, tag, name);
    ActiveIsFound(inbounds, tag, name);
    if item.None? then inbounds else PutItem(inbounds, tag, name, item.value.(password := password))
  }

  lemma FirstIsHead(items: seq<Item>, name: string)
    requires Only(items, name) != []
    ensures FirstAt(items, name) < |items| && items[FirstAt(items, name)] == Only(items, name)[0]
  {
    var k := FirstAt(items, name);
    SplitAtFirst(items, name, NO_ITEM);
    assert items[..|items|] == items;
    if k < |items| {
      HeadAround(items[..k], items[k], items[k + 1..], name);
    }
  }

  lemma HeadAround(head: seq<Item>, x: Item, tail: seq<Item>, name: string)
    requires Only(head, name) == [] && Name(x) == name
    ensures Only(head + [x] + tail, name) == [x] + Only(tail, name)
  {
    OnlyAround(head, x, tail, name);
  }

  lemma RotateKeeps(s: State, name: string, tag: Option<string>, password: string)
    requires Consistent(s) && RotateError(s, name, tag, password).None?
    ensures Consistent(Rotated(s, name, tag, password))
    ensures SameShape(s.inbounds, Rotated(s, name, tag, password).inbounds)
  {
    NobodyToAdopt(s, name);
    var e := s.clients[name];
    RotatedAtKeeps(s, name, e, TrojanTag(s.inbounds, e, tag).value, password);
  }

  lemma RotatedAtKeeps(s: State, name: string, e: Entry, t: string, password: string)
    requires Consistent(s) && Record(s, name) == Some(e)
    requires t in e.credentials && e.credentials[t].protocol.Trojan?
    ensures Consistent(RotatedAt(s, name, e, t, password))
    ensures SameShape(s.inbounds, RotatedAt(s, name, e, t, password).inbounds)
  {
    var s' := RotatedAt(s, name, e, t, password);
    var e' := RotatedEntry(e, t, password);
    assert EntryOk(s.inbounds, name, e') by {
      assert EntryOk(s.inbounds, name, e);
      RotatedEntryOk(s.inbounds, name, e, t, password);
    }
    assert SameExcept(s.inbounds, s'.inbounds, {name}) && MirrorOf(s', name) by {
      assert MirrorOf(s, name);
      RotateMirrors(s, name, e, t, password);
    }
    KeepsRecord(s, s'.inbounds, name, e');
  }

  lemma RotateMirrors(s: State, name: string, e: Entry, t: string, password: string)
    requires MirrorOf(s, name) && Record(s, name) == Some(e)
    requires t in e.credentials && e.credentials[t].protocol.Trojan?
    ensures var s' := RotatedAt(s, name, e, t, password);
            SameExcept(s.inbounds, s'.inbounds, {name}) && MirrorOf(s', name)
  {
    var s' := RotatedAt(s, name, e, t, password);
    var item := ActiveItem(s.inbounds, t, name);
    if item.Some? {
      ItemsNames(s.inbounds, t, name);
      PutItemEffect(s.inbounds, t, name, item.value.(password := password));
    } else {
      SameExceptRefl(s.inbounds, {name});
    }
    assert MirrorAt(s, name, t);
    MirrorOneTag(s, s', name, t);
  }

  lemma RotatedEntryOk(inbounds: seq<Inbound>, name: string, e: Entry, t: string, password: string)
    requires EntryOk(inbounds, name, e) && t in e.credentials && e.credentials[t].protocol.Trojan?
    ensures EntryOk(inbounds, name, RotatedEntry(e, t, password))
  {
    var c := RotatedCredential(e.credentials[t], e.id, password);
    var e' := e.(credentials := e.credentials[t := c]);
    SyncIdempotent(e');
    assert t in e'.credentials;
    forall u | u in e'.credentials ensures CredentialOk(inbounds, name, u, e'.credentials[u]) {
      assert CredentialOk(inbounds, name, u, e.credentials[u]);
    }
  }

  // ---- move ----

  /** Where the client is moved from: its live inbound, or else the connection its record names. */
  function MoveSource(s: State, name: string, e: Entry): string {
    match ActiveAny(s.inbounds, name)
    case Some(k) => Tag(s.inbounds[k])
    case None => e.connection
  }

  /** The item to place in the target, or to store when the client is disabled. */
  function MovedItem(s: State, name: string, e: Entry, target: string): Result<Item, Error>
    requires Find(s.inbounds, target).Some?
  {
    var i := s.inbounds[Find(s.inbounds, target).value];
    var email := Email.EmailForClient(name, e.created, target);
    match ActiveAny(s.inbounds, name)
    case Some(k) =>
      if Items(s.inbounds, target, name) != [] then Err(CredentialExists)
      else
        var item := Only(s.inbounds[k].clients, name)[0];
        Ok((if i.protocol.Vless? then WithTransport(item, Transport(i)) else item).(email := email))
    case None =>
      if e.enabled then Err(NotEnabled)
      else if e.protocol.Trojan? then
        var password := Trim(e.client.password);
        if password == "" then Err(InvalidPassword) else Ok(Item(email, "", password, ""))
      else
        var id := Or(e.client.id, e.id);
        var item := Item(email, id, e.client.password, Or(e.client.flow, VISION_FLOW));
        if id == "" then Err(NoUuid)
        else Ok(if i.protocol.Vless? then WithTransport(item, Transport(i)) else item)
  }

  function MoveError(s: State, name: string, target: string): Option<Error> {
    if Find(s.inbounds, target).None? then Some(ConnectionNotFound) else
    match EntryFor(s, name)
    case None => Some(ClientNotFound)
    case Some(e) =>
      var source := MoveSource(s, name, e);
      var sourceAt := if ActiveAny(s.inbounds, name).Some? then ActiveAny(s.inbounds, name) else Find(s.inbounds, source);
      if |e.credentials| > 1 then Some(MultipleCredentials)
      else if target in e.credentials then Some(CredentialExists)
      else if source == "" then Some(ConnectionNotFound)
      else if source == target then Some(SameConnection)
      else if sourceAt.None? then Some(ConnectionNotFound)
      else if s.inbounds[sourceAt.value].protocol != s.inbounds[Find(s.inbounds, target).value].protocol
        then Some(ProtocolMismatch)
      else if MovedItem(s, name, e, target).Err? then Some(MovedItem(s, name, e, target).error)
      else None
  }

  /** The record after the move: its credential is re-keyed and re-filled. */
  function MovedEntry(s: State, name: string, e: Entry, target: string, moved: Item): Entry
    requires Find(s.inbounds, target).Some?
  {
    var i := s.inbounds[Find(s.inbounds, target).value];
    var source := MoveSource(s, name, e);
    var id := Or(moved.id, e.id);
    var client := if i.protocol.Trojan? then moved.(id := id) else moved;
    var created := if source in e.credentials then e.credentials[source].created else e.created;
    var oldId := if source in e.credentials then e.credentials[source].id else "";
    var c := Credential(Or(id, Or(oldId, client.id)), i.protocol, i.security, Transport(i),
                        ActiveAny(s.inbounds, name).Some?, created, client);
    var normalized := Sync(e.(id := id, connection := target));
    Sync(normalized.(credentials := (e.credentials - {source})[target := c]))
  }

  /** The live item leaves the source inbound and is placed in the target. */
  function MovedInbounds(inbounds: seq<Inbound>, source: string, target: string, name: string, item: Item): seq<Inbound>
    requires Find(inbounds, target).Some?
  {
    var dropped := DropItems(inbounds, source, name);
    FindAfterDrop(inbounds, source, name, target);
    PutItem(dropped, target, name, item)
  }

  lemma FindAfterDrop(inbounds: seq<Inbound>, source: string, name: string, target: string)
    ensures Find(DropItems(inbounds, source, name), target) == Find(inbounds, target)
  {
    DropItemsEffect(inbounds, source, name);
    ShapeOf(inbounds, DropItems(inbounds, source, name), {name});
    FindFrame(inbounds, DropItems(inbounds, source, name), target);
  }

  /** Both copies after a move. */
  function Moved(s: State, name: string, target: string): State
    requires MoveError(s, name, target).None?
  {
    var e := EntryFor(s, name).value;
    MovedFrom(s, name, e, target, MovedItem(s, name, e, target).value)
  }

  function MovedFrom(s: State, name: string, e: Entry, target: string, moved: Item): State
    requires Find(s.inbounds, target).Some?
  {
    State(if ActiveAny(s.inbounds, name).None? then s.inbounds
          else MovedInbounds(s.inbounds, MoveSource(s, name, e), target, name, moved),
          s.connections,
          s.clients[name := MovedEntry(s, name, e, target, moved)])
  }

  /** The protocol of the inbound that a client is moved from. */
  function SourceProtocol(s: State, name: string, e: Entry): Option<Protocol> {
    var k := if ActiveAny(s.inbounds, name).Some? then ActiveAny(s.inbounds, name) else Find(s.inbounds, e.connection);
    if k.None? then None else Some(s.inbounds[k.value].protocol)
  }

  /** What a move has checked. */
  lemma Movable(s: State, name: string, target: string)
    requires MoveError(s, name, target).None?
    ensures Find(s.inbounds, target).Some? && EntryFor(s, name).Some?
    ensures var e := EntryFor(s, name).value;
            && |e.credentials| <= 1 && MoveSource(s, name, e) != target
            && MovedItem(s, name, e, target).Ok?
            && SourceProtocol(s, name, e) == Some(s.inbounds[Find(s.inbounds, target).value].protocol)
            && Moved(s, name, target) == MovedFrom(s, name, e, target, MovedItem(s, name, e, target).value)
  {}

  method MoveClient(config: Config, db: Db, name: string, target: string)
      returns (error: Option<Error>, source: string, configChanged: bool)
    requires ActiveUnderOwnTag(config.inbounds, name)
    modifies config, db
    ensures error == MoveError(old(View(config, db)), name, target)
    ensures View(config, db) == if error.Some? then old(View(config, db)) else Moved(old(View(config, db)), name, target)
    ensures error.None? ==>
              source == MoveSource(old(View(config, db)), name, EntryFor(old(View(config, db)), name).value)
    ensures configChanged <==> error.None? && ActiveAny(old(config.inbounds), name).Some?
    ensures !configChanged ==> config.inbounds == old(config.inbounds)
  {
    var s := View(config, db);
    source, configChanged := "", false;
    var found := Find(config.inbounds, target);
    if found.None? {
      return Some(ConnectionNotFound), source, false;
    }
    var existing := EntryFor(s, name);
    if existing.None? {
      return Some(ClientNotFound), source, false;
    }
    var e := existing.value;
    if |e.credentials| > 1 {
      return Some(MultipleCredentials), source, false;
    }
    if target in e.credentials {
      return Some(CredentialExists), source, false;
    }
    var active := ActiveAny(config.inbounds, name);
    source := if active.Some? then Tag(config.inbounds[active.value]) else e.connection;
    if source == "" {
      return Some(ConnectionNotFound), source, false;
    }
    if source == target {
      return Some(SameConnection), source, false;
    }
    var sourceAt := if active.Some? then active else Find(config.inbounds, source);
    if sourceAt.None? {
      return Some(ConnectionNotFound), source, false;
    }
    var targetInbound := config.inbounds[found.value];
    if config.inbounds[sourceAt.value].protocol != targetInbound.protocol {
      return Some(ProtocolMismatch), source, false;
    }
    var item := MovedItem(s, name, e, target);
    if item.Err? {
      return Some(item.error), source, false;
    }
    if active.Some? {
      var k := active.value;
      var remaining := Without(config.inbounds[k].clients, name);
      config.inbounds := config.inbounds[k := config.inbounds[k].(clients := remaining)];
      assert config.inbounds == DropItems(s.inbounds, source, name);
      FindAfterDrop(s.inbounds, source, name, target);
      AppendAfterDrop(s.inbounds, source, target, name, item.value);
      var items := config.inbounds[found.value].clients;
      config.inbounds := config.inbounds[found.value := config.inbounds[found.value].(clients := items + [item.value])];
      configChanged := true;
    }
    db.clients := db.clients[name := MovedEntry(s, name, e, target, item.value)];
    error := None;
  }

  /** The inbound in which the client is found first is also the one found under its tag. */
  predicate ActiveUnderOwnTag(inbounds: seq<Inbound>, name: string) {
    var k := ActiveAny(inbounds, name);
    k.Some? ==> Find(inbounds, Tag(inbounds[k.value])) == k
  }

  lemma AppendAfterDrop(inbounds: seq<Inbound>, source: string, target: string, name: string, item: Item)
    requires source != target && Find(inbounds, target).Some? && Items(inbounds, target, name) == []
    ensures var dropped := DropItems(inbounds, source, name);
            var k := Find(inbounds, target).value;
            && k < |dropped|
            && MovedInbounds(inbounds, source, target, name, item)
               == dropped[k := dropped[k].(clients := dropped[k].clients + [item])]
  {
    var dropped := DropItems(inbounds, source, name);
    FindAfterDrop(inbounds, source, name, target);
    DropItemsEffect(inbounds, source, name);
    AppendIsPut(dropped[Find(inbounds, target).value].clients, name, item);
  }

  /** A consistent client with at most one credential has exactly the one it is moved from. */
  lemma MoveFacts(s: State, name: string, e: Entry)
    requires Consistent(s) && Record(s, name) == Some(e) && |e.credentials| <= 1
    ensures e.credentials.Keys == {MoveSource(s, name, e)}
    ensures ActiveAny(s.inbounds, name).Some? <==> e.credentials[MoveSource(s, name, e)].enabled
  {
    SoleConnection(s, name, e);
    if ActiveAny(s.inbounds, name).Some? {
      ActiveHere(s, name);
    } else {
      assert MirrorOf(s, name);
      NotActive(s, name, e.connection);
    }
  }

  lemma SoleConnection(s: State, name: string, e: Entry)
    requires WellFormed(s) && Record(s, name) == Some(e) && |e.credentials| <= 1
    ensures e.credentials.Keys == {e.connection}
  {
    assert EntryOk(s.inbounds, name, e);
    OneKey(e.credentials, e.connection);
  }

  lemma ActiveHere(s: State, name: string)
    requires Consistent(s) && ActiveAny(s.inbounds, name).Some?
    ensures var k := ActiveAny(s.inbounds, name).value;
            && Find(s.inbounds, Tag(s.inbounds[k])) == Some(k)
            && Enabled(s, name, Tag(s.inbounds[k]))
  {
    var k := ActiveAny(s.inbounds, name).value;
    FirstManagedSpec(s.inbounds, ByClient(name));
    FindUnique(s.inbounds, k);
    assert MirrorOf(s, name) && MirrorAt(s, name, Tag(s.inbounds[k]));
  }

  lemma NotActive(s: State, name: string, tag: string)
    requires MirrorOf(s, name) && ActiveAny(s.inbounds, name).None?
    ensures !Enabled(s, name, tag)
  {
    assert MirrorAt(s, name, tag);
    FirstManagedSpec(s.inbounds, ByClient(name));
    FindSpec(s.inbounds, tag);
    if Find(s.inbounds, tag).Some? {
      assert !Accepts(ByClient(name), s.inbounds[Find(s.inbounds, tag).value]);
    }
  }

  lemma OneKey(credentials: map<string, Credential>, k: string)
    requires |credentials| <= 1 && k in credentials
    ensures credentials.Keys == {k}
  {
    var rest := credentials.Keys - {k};
    assert |rest| == |credentials.Keys| - 1;
  }

  lemma MovedItemOk(s: State, name: string, e: Entry, target: string)
    requires ValidName(name) && Find(s.inbounds, target).Some? && MovedItem(s, name, e, target).Ok?
    ensures Name(MovedItem(s, name, e, target).value) == name
    ensures OwnEmail(name, MovedItem(s, name, e, target).value)
  {
    Email.NameOfEmail(name, e.created, target);
    TrimKeepsName(name, MovedItem(s, name, e, target).value.email);
  }

  lemma MoveKeeps(s: State, name: string, target: string)
    requires Consistent(s) && MoveError(s, name, target).None?
    ensures Consistent(Moved(s, name, target))
    ensures SameShape(s.inbounds, Moved(s, name, target).inbounds)
  {
    Movable(s, name, target);
    NobodyToAdopt(s, name);
    var e := s.clients[name];
    MovedFromKeeps(s, name, e, target, MovedItem(s, name, e, target).value);
  }

  lemma MovedFromKeeps(s: State, name: string, e: Entry, target: string, moved: Item)
    requires Consistent(s) && Record(s, name) == Some(e) && |e.credentials| <= 1
    requires Find(s.inbounds, target).Some? && MoveSource(s, name, e) != target
    requires MovedItem(s, name, e, target) == Ok(moved)
    ensures Consistent(MovedFrom(s, name, e, target, moved))
    ensures SameShape(s.inbounds, MovedFrom(s, name, e, target, moved).inbounds)
  {
    var source := MoveSource(s, name, e);
    var s' := MovedFrom(s, name, e, target, moved);
    var e' := MovedEntry(s, name, e, target, moved);
    assert ValidName(name) by {
      assert EntryOk(s.inbounds, name, e);
    }
    assert e.credentials.Keys == {source} && (ActiveAny(s.inbounds, name).Some? <==> e.credentials[source].enabled) by {
      MoveFacts(s, name, e);
    }
    MovedItemOk(s, name, e, target);
    MovedEntryShape(s, name, e, target, moved, source);
    assert EntryOk(s.inbounds, name, e') by {
      MovedEntryOk(s.inbounds, name, e', target, moved);
    }
    assert SameExcept(s.inbounds, s'.inbounds, {name}) && MirrorOf(s', name) by {
      SoleCredential(s, name, source);
      MovedFromMirrors(s, name, e, target, moved);
    }
    KeepsRecord(s, s'.inbounds, name, e');
  }

  lemma MovedFromMirrors(s: State, name: string, e: Entry, target: string, moved: Item)
    requires Find(s.inbounds, target).Some? && MoveSource(s, name, e) != target && Name(moved) == name
    requires e.credentials.Keys == {MoveSource(s, name, e)}
    requires ActiveAny(s.inbounds, name).Some? <==> e.credentials[MoveSource(s, name, e)].enabled
    requires forall t | t != MoveSource(s, name, e) :: Items(s.inbounds, t, name) == []
    requires !e.credentials[MoveSource(s, name, e)].enabled ==> Items(s.inbounds, MoveSource(s, name, e), name) == []
    ensures var s' := MovedFrom(s, name, e, target, moved);
            SameExcept(s.inbounds, s'.inbounds, {name}) && MirrorOf(s', name)
  {
    var source := MoveSource(s, name, e);
    var s' := MovedFrom(s, name, e, target, moved);
    MovedEntryShape(s, name, e, target, moved, source);
    var e' := MovedEntry(s, name, e, target, moved);
    OneCredential(s', name, e', target);
    MoveMirrors(s, s', name, source, target, moved, e'.credentials[target]);
  }

  lemma OneCredential(s: State, name: string, e: Entry, tag: string)
    requires Record(s, name) == Some(e) && e.credentials.Keys == {tag}
    ensures tag in e.credentials && CredentialAt(s, name, tag) == Some(e.credentials[tag])
    ensures forall t | t != tag :: CredentialAt(s, name, t) == None
  {
    assert tag in e.credentials;
  }

  /** A client with one credential has no items outside its connection, and none inside when disabled. */
  lemma SoleCredential(s: State, name: string, source: string)
    requires Mirror(s) && name in s.clients && s.clients[name].credentials.Keys == {source}
    ensures forall t | t != source :: Items(s.inbounds, t, name) == []
    ensures !s.clients[name].credentials[source].enabled ==> Items(s.inbounds, source, name) == []
  {
    assert MirrorOf(s, name);
    forall t ensures t != source || !s.clients[name].credentials[source].enabled ==> Items(s.inbounds, t, name) == [] {
      assert MirrorAt(s, name, t);
    }
  }

  lemma MovedEntryShape(s: State, name: string, e: Entry, target: string, moved: Item, source: string)
    requires Find(s.inbounds, target).Some? && e.credentials.Keys == {source} && source == MoveSource(s, name, e)
    ensures var e' := MovedEntry(s, name, e, target, moved);
            && Sync(e') == e'
            && e'.credentials.Keys == {target}
            && var c := e'.credentials[target];
               && c.protocol == s.inbounds[Find(s.inbounds, target).value].protocol
               && c.enabled == ActiveAny(s.inbounds, name).Some?
               && Refilled(c, moved)
  {
    var rest := e.credentials - {source};
    assert rest.Keys == {};
    var e' := MovedEntry(s, name, e, target, moved);
    SyncIdempotent(Sync(e.(id := Or(moved.id, e.id), connection := target)).(credentials := e'.credentials));
  }

  lemma MovedEntryOk(inbounds: seq<Inbound>, name: string, e: Entry, target: string, moved: Item)
    requires ValidName(name) && OwnEmail(name, moved) && Find(inbounds, target).Some?
    requires Sync(e) == e && e.credentials.Keys == {target} && Refilled(e.credentials[target], moved)
    requires e.credentials[target].protocol == inbounds[Find(inbounds, target).value].protocol
    ensures EntryOk(inbounds, name, e)
  {
    assert target in e.credentials;
    assert CredentialOk(inbounds, name, target, e.credentials[target]);
  }

  lemma MoveMirrors(s: State, s': State, name: string, source: string, target: string, moved: Item, c: Credential)
    requires source != target && Find(s.inbounds, target).Some? && Name(moved) == name && Refilled(c, moved)
    requires forall t | t != source :: Items(s.inbounds, t, name) == []
    requires !c.enabled ==> Items(s.inbounds, source, name) == []
    requires s'.inbounds == if c.enabled then MovedInbounds(s.inbounds, source, target, name, moved) else s.inbounds
    requires CredentialAt(s', name, target) == Some(c)
    requires forall t | t != target :: CredentialAt(s', name, t) == None
    ensures SameExcept(s.inbounds, s'.inbounds, {name}) && MirrorOf(s', name)
  {
    if c.enabled {
      var dropped := DropItems(s.inbounds, source, name);
      DropItemsEffect(s.inbounds, source, name);
      FindAfterDrop(s.inbounds, source, name, target);
      PutItemEffect(dropped, target, name, moved);
      SameExceptTransitive(s.inbounds, dropped, s'.inbounds, {name}, {name});
      assert {name} + {name} == {name};
    } else {
      SameExceptRefl(s.inbounds, {name});
    }
    forall t ensures MirrorAt(s', name, t) {
      assert t != target ==> CredentialAt(s', name, t) == None;
    }
  }
}
