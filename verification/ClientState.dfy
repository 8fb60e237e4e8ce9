/** The two copies of every client: the inbounds of `config.json` and the records of `manager.db`. */
module ClientState {
  import opened Wrappers
  import opened Text
  import Email
  import opened Calendar
  import opened Limits

  datatype Protocol = Vless | Trojan | Other

  /** An Xray client item, or the client block stored in a credential. An absent key is "". */
  datatype Item = Item(email: string, id: string, password: string, flow: string)

  const NO_ITEM := Item("", "", "", "")

  datatype Inbound = Inbound(tag: string, protocol: Protocol, security: string, network: string,
                             listen: string, port: int, clients: seq<Item>)

  /** A credential; the connection tag is its key in the entry. */
  datatype Credential = Credential(id: string, protocol: Protocol, security: string, transport: string,
                                   enabled: bool, created: string, client: Item)

  datatype DisabledReason = NoReason | TrafficLimitReached | AccessEnded

  /** Why and since when a client is disabled. */
  datatype DisabledState = DisabledState(at: string, reason: DisabledReason, expiredAt: string,
                                         exceededAt: string, exceededPeriod: Option<PeriodKey>,
                                         exceededBytes: int, resetAt: Option<Moment>)

  const NOT_DISABLED := DisabledState("", NoReason, "", "", None, 0, None)

  /** A client record. `connection`, `client`, `protocol` and `enabled` repeat one of its credentials. */
  datatype Entry = Entry(id: string, created: string, enabled: bool, connection: string,
                         protocol: Protocol, client: Item, paid: bool, expiresAt: Option<Moment>,
                         limit: Option<Limit>, disabled: DisabledState,
                         credentials: map<string, Credential>)

  datatype Connection = Connection(name: string, protocol: Protocol, security: string, port: int, publicPort: Option<int>)

  datatype Error =
    | ClientNotFound | ConnectionNotFound | CredentialNotFound | CredentialExists | MultipleCredentials
    | AlreadyEnabled | AlreadyDisabled | NotEnabled | AccessOver | TrafficExceeded | InvalidPassword | NoUuid
    | NotTrojan | AmbiguousTrojan | SameConnection | ProtocolMismatch | LastVless | LastReality
    | NameTaken | PortTaken | NoFreePort | PublicPortTaken | NotTrojanWs | AmbiguousName | NameRequired

  datatype State = State(inbounds: seq<Inbound>, connections: map<string, Connection>, clients: map<string, Entry>)

  /** The loaded `config.json`. */
  class Config {
    var inbounds: seq<Inbound>

    constructor (inbounds: seq<Inbound>)
      ensures this.inbounds == inbounds
    {
      this.inbounds := inbounds;
    }
  }

  /** The loaded `manager.db`. */
  class Db {
    var connections: map<string, Connection>
    var clients: map<string, Entry>

    constructor (connections: map<string, Connection>, clients: map<string, Entry>)
      ensures this.connections == connections && this.clients == clients
    {
      this.connections, this.clients := connections, clients;
    }
  }

  function View(config: Config, db: Db): State
    reads config, db
  {
    State(config.inbounds, db.connections, db.clients)
  }

  // ---- Managed inbounds ----

  const INBOUND_TAG := "vless-reality"
  const TLS_INBOUND_TAG := "vless-tls"
  const TROJAN_INBOUND_TAG := "trojan-tls"

  function Tag(i: Inbound): string {
    Or(i.tag, INBOUND_TAG)
  }

  predicate Reality(i: Inbound) {
    i.protocol.Vless? && i.security == "reality"
  }

  predicate TlsXhttp(i: Inbound) {
    i.protocol.Vless? && StartsWith(Tag(i), TLS_INBOUND_TAG) && i.network == "xhttp"
  }

  predicate ManagedVless(i: Inbound) {
    Reality(i) || TlsXhttp(i)
  }

  predicate ManagedTrojan(i: Inbound) {
    i.protocol.Trojan? && StartsWith(Tag(i), TROJAN_INBOUND_TAG)
  }

  predicate Managed(i: Inbound) {
    ManagedVless(i) || ManagedTrojan(i)
  }

  /** Classes of managed inbounds in the order in which the manager lists them. */
  predicate InClass(i: Inbound, c: nat) {
    if c == 0 then Reality(i) else if c == 1 then TlsXhttp(i) && !Reality(i) else ManagedTrojan(i)
  }

  /** What an inbound is looked up by. */
  datatype Query = ByTag(tag: string) | ByClient(name: string)

  predicate Accepts(q: Query, i: Inbound) {
    match q
    case ByTag(tag) => Tag(i) == tag
    case ByClient(name) => Only(i.clients, name) != []
  }

  /** First inbound of a class, from position `k`, that a query accepts; the length when there is none. */
  function Pick(inbounds: seq<Inbound>, c: nat, q: Query, k: nat): (r: nat)
    requires k <= |inbounds|
    ensures k <= r <= |inbounds|
    decreases |inbounds| - k
  {
    if k == |inbounds| || (InClass(inbounds[k], c) && Accepts(q, inbounds[k])) then k else Pick(inbounds, c, q, k + 1)
  }

  lemma {:induction false} PickSpec(inbounds: seq<Inbound>, c: nat, q: Query, k: nat)
    requires k <= |inbounds|
    ensures var r := Pick(inbounds, c, q, k);
            && (r < |inbounds| ==> InClass(inbounds[r], c) && Accepts(q, inbounds[r]))
            && forall j | k <= j < r :: !(InClass(inbounds[j], c) && Accepts(q, inbounds[j]))
    decreases |inbounds| - k
  {
    if k < |inbounds| {
      PickSpec(inbounds, c, q, k + 1);
    }
  }

  /** First managed inbound that a query accepts: the Reality ones come first, then TLS, then Trojan. */
  function FirstManaged(inbounds: seq<Inbound>, q: Query): (r: Option<nat>)
    ensures r.Some? ==> r.value < |inbounds|
  {
    var n := |inbounds|;
    var reality := Pick(inbounds, 0, q, 0);
    var tls := Pick(inbounds, 1, q, 0);
    var trojan := Pick(inbounds, 2, q, 0);
    if reality < n then Some(reality)
    else if tls < n then Some(tls)
    else if trojan < n then Some(trojan)
    else None
  }

  lemma FirstManagedSpec(inbounds: seq<Inbound>, q: Query)
    ensures match FirstManaged(inbounds, q)
            case Some(r) => Managed(inbounds[r]) && Accepts(q, inbounds[r])
            case None => forall j | 0 <= j < |inbounds| :: !(Managed(inbounds[j]) && Accepts(q, inbounds[j]))
  {
    PickSpec(inbounds, 0, q, 0);
    PickSpec(inbounds, 1, q, 0);
    PickSpec(inbounds, 2, q, 0);
    assert forall j | 0 <= j < |inbounds| && Managed(inbounds[j]) ::
      InClass(inbounds[j], 0) || InClass(inbounds[j], 1) || InClass(inbounds[j], 2);
  }

  /** `find_inbound_by_tag`. */
  function Find(inbounds: seq<Inbound>, tag: string): (r: Option<nat>)
    ensures r.Some? ==> r.value < |inbounds|
  {
    FirstManaged(inbounds, ByTag(tag))
  }

  lemma FindSpec(inbounds: seq<Inbound>, tag: string)
    ensures match Find(inbounds, tag)
            case Some(r) => Managed(inbounds[r]) && Tag(inbounds[r]) == tag
            case None => forall j | 0 <= j < |inbounds| :: !(Managed(inbounds[j]) && Tag(inbounds[j]) == tag)
  {
    FirstManagedSpec(inbounds, ByTag(tag));
    if Find(inbounds, tag).None? {
      assert forall j | 0 <= j < |inbounds| :: Accepts(ByTag(tag), inbounds[j]) == (Tag(inbounds[j]) == tag);
    }
  }

  // ---- Items by client name ----

  function Name(item: Item): string {
    Email.ClientName(item.email)
  }

  /** The items of one client. */
  function Only(items: seq<Item>, name: string): (r: seq<Item>)
    ensures |r| <= |items|
  {
    if items == [] then []
    else
      var rest := Only(items[..|items| - 1], name);
      var last := items[|items| - 1];
      if Name(last) == name then rest + [last] else rest
  }

  /** The items of all other clients. */
  function Without(items: seq<Item>, name: string): (r: seq<Item>)
    ensures |r| <= |items|
  {
    if items == [] then []
    else
      var rest := Without(items[..|items| - 1], name);
      var last := items[|items| - 1];
      if Name(last) == name then rest else rest + [last]
  }

  lemma {:induction false} OnlyMembers(items: seq<Item>, name: string)
    ensures forall x | x in Only(items, name) :: x in items && Name(x) == name
  {
    if items != [] {
      OnlyMembers(items[..|items| - 1], name);
    }
  }

  lemma {:induction false} OnlyConcat(a: seq<Item>, b: seq<Item>, name: string)
    ensures Only(a + b, name) == Only(a, name) + Only(b, name)
    decreases |b|
  {
    if b == [] {
      assert a + b == a;
    } else {
      var init := b[..|b| - 1];
      assert (a + b)[..|a + b| - 1] == a + init;
      OnlyConcat(a, init, name);
    }
  }

  lemma {:induction false} OnlyWithout(items: seq<Item>, name: string, other: string)
    ensures Only(Without(items, name), other) == if other == name then [] else Only(items, other)
  {
    if items != [] {
      OnlyWithout(items[..|items| - 1], name, other);
      OnlyConcat(Without(items[..|items| - 1], name), [items[|items| - 1]], other);
    }
  }

  /** The items of a client in the managed inbound with a tag. */
  function Items(inbounds: seq<Inbound>, tag: string, name: string): seq<Item> {
    var i := Find(inbounds, tag);
    if i.Some? then Only(inbounds[i.value].clients, name) else []
  }

  /** `active_client_any`: the first managed inbound that has an item of the client. */
  function ActiveAny(inbounds: seq<Inbound>, name: string): (r: Option<nat>)
    ensures r.Some? ==> r.value < |inbounds| && Only(inbounds[r.value].clients, name) != []
  {
    FirstManagedSpec(inbounds, ByClient(name));
    FirstManaged(inbounds, ByClient(name))
  }

  // ---- Legacy fields ----

  predicate AnyEnabled(credentials: map<string, Credential>) {
    exists t | t in credentials :: credentials[t].enabled
  }

  /** The credential that the legacy fields repeat: the current one if it still exists, else the least tag. */
  function PrimaryTag(connection: string, credentials: map<string, Credential>): (t: string)
    requires credentials != map[]
    ensures t in credentials
  {
    if connection in credentials then connection else
      assert credentials.Keys != {} by {
        var k :| k in credentials;
        assert k in credentials.Keys;
      }
      Least(credentials.Keys)
  }

  /** `sync_legacy_fields`. */
  function Sync(e: Entry): (r: Entry)
    ensures r.credentials == e.credentials
  {
    if e.credentials == map[] then e
    else
      var tag := PrimaryTag(e.connection, e.credentials);
      var primary := e.credentials[tag];
      e.(connection := tag,
         client := primary.client.(id := Or(primary.client.id, primary.id)),
         protocol := primary.protocol,
         enabled := AnyEnabled(e.credentials))
  }

  /** The repeated fields are those of the credential that the record names; the record is enabled when one is. */
  predicate Repeats(e: Entry) {
    && (e.enabled <==> exists t | t in e.credentials :: e.credentials[t].enabled)
    && e.connection in e.credentials
    && var c := e.credentials[e.connection];
       && e.protocol == c.protocol
       && e.client.email == c.client.email && e.client.password == c.client.password && e.client.flow == c.client.flow
       && e.client.id == (if c.client.id == "" then c.id else c.client.id)
  }

  /** Nothing but the repeated fields and the credentials differs. */
  predicate SameTerms(a: Entry, b: Entry) {
    && b.id == a.id && b.created == a.created && b.paid == a.paid
    && b.expiresAt == a.expiresAt && b.limit == a.limit && b.disabled == a.disabled
  }

  /** Synchronising names the connection that was named, or the least one when that has no credential, and repeats it. */
  lemma SyncRepeats(e: Entry)
    requires e.credentials != map[]
    ensures Repeats(Sync(e)) && SameTerms(e, Sync(e))
    ensures if e.connection in e.credentials then Sync(e).connection == e.connection
            else IsLeast(Sync(e).connection, e.credentials.Keys)
  {
    assert IsLeast(Least(e.credentials.Keys), e.credentials.Keys) by {
      var k :| k in e.credentials;
      assert k in e.credentials.Keys;
    }
  }

  /** A record is left alone exactly when it repeats the credential it names. */
  lemma SyncedIff(e: Entry)
    requires e.credentials != map[]
    ensures Sync(e) == e <==> Repeats(e)
  {
    SyncRepeats(e);
  }

  lemma SyncIdempotent(e: Entry)
    ensures Sync(Sync(e)) == Sync(e)
  {}

  /** Synchronising in between does not matter as long as no credential appears or disappears. */
  lemma SyncAbsorbs(e: Entry, credentials: map<string, Credential>)
    requires credentials.Keys == e.credentials.Keys
    ensures Sync(Sync(e).(credentials := credentials)) == Sync(e.(credentials := credentials))
  {
    if e.credentials == map[] {
      assert credentials == map[];
    } else {
      assert credentials != map[] by {
        var k :| k in e.credentials;
        assert k in credentials.Keys;
      }
    }
  }

  // ---- Well-formedness and the mirror ----

  predicate NameChar(c: char) {
    'A' <= c <= 'Z' || 'a' <= c <= 'z' || '0' <= c <= '9' || c == '_' || c == '.' || c == '@' || c == '-'
  }

  /** `CLIENT_NAME_RE`. */
  predicate ValidName(name: string) {
    1 <= |name| <= 64 && forall c | c in name :: NameChar(c)
  }

  lemma {:induction false} TrimRightKeeps(s: string, k: nat)
    requires 0 < k <= |s| && !Blank(s[k - 1])
    ensures |TrimRight(s)| >= k
  {
    if Blank(s[|s| - 1]) {
      TrimRightKeeps(s[..|s| - 1], k);
    }
  }

  /** Trimming an email never cuts into a valid client name. */
  lemma {:induction false} TrimKeepsName(name: string, email: string)
    requires ValidName(name) && Email.ClientName(email) == name
    ensures Email.ClientName(Trim(email)) == name
  {
    Email.SplitHead(email);
    assert forall k | 0 <= k < |name| :: email[k] == name[k] && name[k] in name && NameChar(email[k]);
    var trimmed := TrimRight(email);
    TrimRightKeeps(email, |name|);
    if |email| > |name| {
      TrimRightKeeps(email, |name| + 1);
      assert trimmed == name + "|" + trimmed[|name| + 1..];
      Email.SplitAfterBar(name, trimmed[|name| + 1..]);
    } else {
      assert email == name && trimmed == email;
    }
  }

  predicate DistinctTags(inbounds: seq<Inbound>) {
    forall i, j | 0 <= i < j < |inbounds| && Managed(inbounds[i]) && Managed(inbounds[j]) ::
      Tag(inbounds[i]) != Tag(inbounds[j])
  }

  /** A stored email is absent or belongs to the client. */
  predicate OwnEmail(name: string, item: Item) {
    Trim(item.email) == "" || Email.ClientName(Trim(item.email)) == name
  }

  predicate CredentialOk(inbounds: seq<Inbound>, name: string, tag: string, c: Credential) {
    && OwnEmail(name, c.client)
    && Find(inbounds, tag).Some?
    && c.protocol == inbounds[Find(inbounds, tag).value].protocol
  }

  /** A record has a credential, every credential has its inbound, and the legacy fields are in sync. */
  predicate EntryOk(inbounds: seq<Inbound>, name: string, e: Entry) {
    && ValidName(name)
    && e.credentials != map[]
    && Sync(e) == e
    && forall t | t in e.credentials :: CredentialOk(inbounds, name, t, e.credentials[t])
  }

  predicate WellFormed(s: State) {
    && DistinctTags(s.inbounds)
    && forall n | n in s.clients :: EntryOk(s.inbounds, n, s.clients[n])
  }

  predicate Enabled(s: State, name: string, tag: string) {
    name in s.clients && tag in s.clients[name].credentials && s.clients[name].credentials[tag].enabled
  }

  /** The item and the stored client block carry the same secret. */
  predicate SameSecret(protocol: Protocol, item: Item, stored: Item) {
    if protocol.Trojan? then item.password == stored.password else item.id == stored.id
  }

  /** One item, with the stored secret, when the credential is enabled; no item otherwise. */
  predicate MirrorAt(s: State, name: string, tag: string) {
    var items := Items(s.inbounds, tag, name);
    if Enabled(s, name, tag) then
      |items| == 1 && SameSecret(s.clients[name].credentials[tag].protocol, items[0], s.clients[name].credentials[tag].client)
    else
      items == []
  }

  ghost predicate MirrorOf(s: State, name: string) {
    forall tag :: MirrorAt(s, name, tag)
  }

  /** The two copies agree about every client and every connection. */
  ghost predicate Mirror(s: State) {
    forall name :: MirrorOf(s, name)
  }

  ghost predicate Consistent(s: State) {
    WellFormed(s) && Mirror(s)
  }

  // ---- Frames ----

  /** Nothing but the client list differs. */
  predicate SameButClients(a: Inbound, b: Inbound) {
    b == a.(clients := b.clients)
  }

  predicate SameShape(a: seq<Inbound>, b: seq<Inbound>) {
    |a| == |b| && forall i | 0 <= i < |a| :: SameButClients(a[i], b[i])
  }

  /** The client list of a managed inbound may differ, for the clients in `names`. */
  ghost predicate InboundExcept(a: Inbound, b: Inbound, names: set<string>) {
    && SameButClients(a, b)
    && (!Managed(a) ==> b == a)
    && forall n | n !in names :: Only(b.clients, n) == Only(a.clients, n)
  }

  /** Only client lists changed, and only for the clients in `names`. */
  ghost predicate SameExcept(a: seq<Inbound>, b: seq<Inbound>, names: set<string>) {
    |a| == |b| && forall i | 0 <= i < |a| :: InboundExcept(a[i], b[i], names)
  }

  function Record(s: State, name: string): Option<Entry> {
    At(s.clients, name)
  }

  /** Nothing but the clients in `names` changed, in either copy. */
  ghost predicate Touches(s: State, s': State, names: set<string>) {
    && SameExcept(s.inbounds, s'.inbounds, names)
    && s'.connections == s.connections
    && forall n | n !in names :: Record(s', n) == Record(s, n)
  }

  lemma {:induction false} SameClassSamePick(a: seq<Inbound>, b: seq<Inbound>, c: nat, tag: string, k: nat)
    requires SameShape(a, b) && k <= |a|
    ensures Pick(a, c, ByTag(tag), k) == Pick(b, c, ByTag(tag), k)
    decreases |a| - k
  {
    if k < |a| {
      SameClassSamePick(a, b, c, tag, k + 1);
      assert SameButClients(a[k], b[k]);
    }
  }

  lemma FindFrame(a: seq<Inbound>, b: seq<Inbound>, tag: string)
    requires SameShape(a, b)
    ensures Find(b, tag) == Find(a, tag)
  {
    SameClassSamePick(a, b, 0, tag, 0);
    SameClassSamePick(a, b, 1, tag, 0);
    SameClassSamePick(a, b, 2, tag, 0);
  }

  lemma ShapeOf(a: seq<Inbound>, b: seq<Inbound>, names: set<string>)
    requires SameExcept(a, b, names)
    ensures SameShape(a, b)
  {
    forall i | 0 <= i < |a| ensures SameButClients(a[i], b[i]) {
      assert InboundExcept(a[i], b[i], names);
    }
  }

  lemma ItemsFrame(a: seq<Inbound>, b: seq<Inbound>, names: set<string>, tag: string, name: string)
    requires SameExcept(a, b, names) && name !in names
    ensures Items(b, tag, name) == Items(a, tag, name)
  {
    ShapeOf(a, b, names);
    FindFrame(a, b, tag);
    if Find(a, tag).Some? {
      var k := Find(a, tag).value;
      assert InboundExcept(a[k], b[k], names);
    }
  }

  lemma SameExceptRefl(a: seq<Inbound>, names: set<string>)
    ensures SameExcept(a, a, names)
  {}

  lemma SameExceptTransitive(a: seq<Inbound>, b: seq<Inbound>, c: seq<Inbound>, m: set<string>, n: set<string>)
    requires SameExcept(a, b, m) && SameExcept(b, c, n)
    ensures SameExcept(a, c, m + n)
  {
    forall i | 0 <= i < |a| ensures InboundExcept(a[i], c[i], m + n) {
      assert InboundExcept(a[i], b[i], m) && InboundExcept(b[i], c[i], n);
    }
  }

  lemma TouchesTransitive(s: State, t: State, u: State, m: set<string>, n: set<string>)
    requires Touches(s, t, m) && Touches(t, u, n)
    ensures Touches(s, u, m + n)
  {
    SameExceptTransitive(s.inbounds, t.inbounds, u.inbounds, m, n);
  }

  /** A change confined to `names` keeps the mirror if it keeps it for those clients. */
  lemma MirrorFrame(s: State, s': State, names: set<string>)
    requires Mirror(s) && Touches(s, s', names)
    requires forall n | n in names :: MirrorOf(s', n)
    ensures Mirror(s')
  {
    forall name ensures MirrorOf(s', name) {
      if name !in names {
        assert MirrorOf(s, name) && Record(s', name) == Record(s, name);
        forall tag ensures MirrorAt(s', name, tag) {
          assert MirrorAt(s, name, tag);
          ItemsFrame(s.inbounds, s'.inbounds, names, tag, name);
        }
      }
    }
  }

  lemma EntryOkFrame(a: seq<Inbound>, b: seq<Inbound>, name: string, e: Entry)
    requires SameShape(a, b) && EntryOk(a, name, e)
    ensures EntryOk(b, name, e)
  {
    forall t | t in e.credentials ensures CredentialOk(b, name, t, e.credentials[t]) {
      assert CredentialOk(a, name, t, e.credentials[t]);
      FindFrame(a, b, t);
    }
  }

  lemma DistinctFrame(a: seq<Inbound>, b: seq<Inbound>)
    requires SameShape(a, b) && DistinctTags(a)
    ensures DistinctTags(b)
  {
    assert forall i | 0 <= i < |a| :: SameButClients(a[i], b[i]);
    assert forall i | 0 <= i < |a| :: Managed(b[i]) == Managed(a[i]) && Tag(b[i]) == Tag(a[i]);
  }

  lemma WellFormedFrame(s: State, s': State, names: set<string>)
    requires WellFormed(s) && Touches(s, s', names)
    requires forall n | n in names && n in s'.clients :: EntryOk(s.inbounds, n, s'.clients[n])
    ensures WellFormed(s')
  {
    ShapeOf(s.inbounds, s'.inbounds, names);
    DistinctFrame(s.inbounds, s'.inbounds);
    forall n | n in s'.clients ensures EntryOk(s'.inbounds, n, s'.clients[n]) {
      assert n !in names ==> Record(s', n) == Record(s, n);
      EntryOkFrame(s.inbounds, s'.inbounds, n, s'.clients[n]);
    }
  }

  /** Consistency is kept by a change that keeps it for the clients it touches. */
  lemma ConsistentFrame(s: State, s': State, names: set<string>)
    requires Consistent(s) && Touches(s, s', names)
    requires forall n | n in names :: MirrorOf(s', n)
    requires forall n | n in names && n in s'.clients :: EntryOk(s.inbounds, n, s'.clients[n])
    ensures Consistent(s')
  {
    MirrorFrame(s, s', names);
    WellFormedFrame(s, s', names);
  }

  function CredentialAt(s: State, name: string, tag: string): Option<Credential> {
    if name in s.clients && tag in s.clients[name].credentials then Some(s.clients[name].credentials[tag]) else None
  }

  /** A client whose two copies differ from before under one tag only. */
  lemma MirrorOneTag(s: State, s': State, name: string, tag: string)
    requires MirrorOf(s, name) && MirrorAt(s', name, tag)
    requires forall t | t != tag :: Items(s'.inbounds, t, name) == Items(s.inbounds, t, name)
    requires forall t | t != tag :: CredentialAt(s', name, t) == CredentialAt(s, name, t)
    ensures MirrorOf(s', name)
  {
    forall t | t != tag ensures MirrorAt(s', name, t) {
      assert MirrorAt(s, name, t);
      assert CredentialAt(s', name, t) == CredentialAt(s, name, t);
    }
  }

  lemma KeepsOne(s: State, s': State, name: string)
    requires Consistent(s) && Touches(s, s', {name}) && MirrorOf(s', name)
    requires name in s'.clients ==> EntryOk(s.inbounds, name, s'.clients[name])
    ensures Consistent(s')
  {
    ConsistentFrame(s, s', {name});
  }

  /** One record is replaced and only that client's items move. */
  lemma KeepsRecord(s: State, inbounds: seq<Inbound>, name: string, e: Entry)
    requires Consistent(s) && SameExcept(s.inbounds, inbounds, {name}) && EntryOk(s.inbounds, name, e)
    requires MirrorOf(State(inbounds, s.connections, s.clients[name := e]), name)
    ensures Consistent(State(inbounds, s.connections, s.clients[name := e]))
    ensures SameShape(s.inbounds, inbounds)
  {
    ShapeOf(s.inbounds, inbounds, {name});
    KeepsOne(s, State(inbounds, s.connections, s.clients[name := e]), name);
  }

  /** With distinct managed tags, an inbound is the one found under its tag. */
  lemma FindUnique(inbounds: seq<Inbound>, i: nat)
    requires DistinctTags(inbounds) && i < |inbounds| && Managed(inbounds[i])
    ensures Find(inbounds, Tag(inbounds[i])) == Some(i)
  {
    FindSpec(inbounds, Tag(inbounds[i]));
  }

  lemma {:induction false} OnlyMember(items: seq<Item>, k: nat, name: string)
    requires k < |items| && Name(items[k]) == name
    ensures items[k] in Only(items, name)
  {
    if k < |items| - 1 {
      OnlyMember(items[..|items| - 1], k, name);
    }
  }

  /** No drift: whoever has an item in a managed inbound is in the database, with that credential enabled. */
  lemma ActiveIsStored(s: State, i: nat, k: nat)
    requires Consistent(s) && i < |s.inbounds| && Managed(s.inbounds[i]) && k < |s.inbounds[i].clients|
    ensures var name := Name(s.inbounds[i].clients[k]);
            Enabled(s, name, Tag(s.inbounds[i]))
  {
    var name := Name(s.inbounds[i].clients[k]);
    FindUnique(s.inbounds, i);
    OnlyMember(s.inbounds[i].clients, k, name);
    assert MirrorOf(s, name) && MirrorAt(s, name, Tag(s.inbounds[i]));
  }
}
