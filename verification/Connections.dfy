/** Connection records, and adding, renaming and re-porting inbounds. */
module Connections {
  import opened Wrappers
  import opened Text
  import opened ClientState
  import opened Allocation

  const DEFAULT_CONNECTION_NAME := "default"
  const DEFAULT_PUBLIC_PORT := 443

  function RemoveAll(s: string, part: string): string
    requires part != ""
  {
    if s == "" then ""
    else if StartsWith(s, part) then RemoveAll(s[|part|..], part)
    else [s[0]] + RemoveAll(s[1..], part)
  }

  /** `connection_name_from_tag`. */
  function NameFromTag(tag: string): string {
    if tag == INBOUND_TAG then DEFAULT_CONNECTION_NAME
    else if tag == TLS_INBOUND_TAG then "tls"
    else if StartsWith(tag, "vless-reality-") then RemoveAll(tag, "vless-reality-")
    else if StartsWith(tag, "vless-tls-") then RemoveAll(tag, "vless-tls-")
    else if tag == TROJAN_INBOUND_TAG then "trojan"
    else if StartsWith(tag, "trojan-tls-") then RemoveAll(tag, "trojan-tls-")
    else tag
  }

  // ---- ensure_connections ----

  function OrPort(port: int, fallback: int): int {
    if port != 0 then port else fallback
  }

  /** The three loops of `ensure_connections`. */
  datatype Pass = RealityPass | TlsPass | TrojanPass

  predicate InPass(p: Pass, i: Inbound) {
    match p
    case RealityPass => Reality(i)
    case TlsPass => TlsXhttp(i)
    case TrojanPass => ManagedTrojan(i)
  }

  /** An entry whose public side is served by Caddy. */
  function BehindCaddy(c: Connection): Connection {
    var publicPort := if c.publicPort.Some? then c.publicPort.value else OrPort(c.port, DEFAULT_PUBLIC_PORT);
    c.(publicPort := Some(publicPort), port := OrPort(publicPort, DEFAULT_PUBLIC_PORT))
  }

  /** The record that one loop writes for an inbound. */
  function EnsuredEntry(p: Pass, i: Inbound, known: Option<Connection>): Connection {
    var name := NameFromTag(Tag(i));
    match p
    case RealityPass =>
      var c := if known.Some? then known.value else Connection(name, Vless, "", 0, None);
      c.(port := i.port, security := "reality")
    case TlsPass =>
      var c := if known.Some? then known.value
               else Connection(name, Vless, "tls", DEFAULT_PUBLIC_PORT, Some(DEFAULT_PUBLIC_PORT));
      BehindCaddy(c.(security := "tls"))
    case TrojanPass =>
      var c := if known.Some? then known.value else Connection(name, Trojan, "tls", i.port, None);
      var c1 := c.(protocol := Trojan, security := "tls");
      if i.network == "ws" then BehindCaddy(c1)
      else c1.(port := i.port, publicPort := if c1.publicPort.Some? then c1.publicPort else Some(i.port))
  }

  /** The records after one loop has seen the first `k` inbounds. */
  function AfterPass(p: Pass, inbounds: seq<Inbound>, k: nat, connections: map<string, Connection>)
    : map<string, Connection>
    requires k <= |inbounds|
  {
    if k == 0 then connections
    else
      var before := AfterPass(p, inbounds, k - 1, connections);
      var i := inbounds[k - 1];
      if InPass(p, i) then before[Tag(i) := EnsuredEntry(p, i, At(before, Tag(i)))] else before
  }

  function Ensured(inbounds: seq<Inbound>, connections: map<string, Connection>): map<string, Connection> {
    var n := |inbounds|;
    AfterPass(TrojanPass, inbounds, n, AfterPass(TlsPass, inbounds, n, AfterPass(RealityPass, inbounds, n, connections)))
  }

  method RunPass(p: Pass, inbounds: seq<Inbound>, connections: map<string, Connection>)
      returns (r: map<string, Connection>)
    ensures r == AfterPass(p, inbounds, |inbounds|, connections)
  {
    r := connections;
    for k := 0 to |inbounds|
      invariant r == AfterPass(p, inbounds, k, connections)
    {
      var i := inbounds[k];
      if InPass(p, i) {
        r := r[Tag(i) := EnsuredEntry(p, i, At(r, Tag(i)))];
      }
    }
  }

  /** Raises when the configuration has no managed inbound at all. */
  method EnsureConnections(config: Config, db: Db) returns (ok: bool)
    modifies db
    ensures db.connections == Ensured(config.inbounds, old(db.connections)) && db.clients == old(db.clients)
    ensures ok <==> ManagedTags(config.inbounds) != {}
  {
    var connections := RunPass(RealityPass, config.inbounds, db.connections);
    connections := RunPass(TlsPass, config.inbounds, connections);
    connections := RunPass(TrojanPass, config.inbounds, connections);
    db.connections := connections;
    ok := ManagedTags(config.inbounds) != {};
  }

  /** What the three loops together make of one inbound's record. */
  function EnsuredConnection(i: Inbound, known: Option<Connection>): Option<Connection> {
    var a := if Reality(i) then Some(EnsuredEntry(RealityPass, i, known)) else known;
    var b := if TlsXhttp(i) then Some(EnsuredEntry(TlsPass, i, a)) else a;
    if ManagedTrojan(i) then Some(EnsuredEntry(TrojanPass, i, b)) else b
  }

  lemma {:induction false} AfterPassOther(p: Pass, inbounds: seq<Inbound>, k: nat, cs: map<string, Connection>, tag: string)
    requires k <= |inbounds| && forall j | 0 <= j < k && InPass(p, inbounds[j]) :: Tag(inbounds[j]) != tag
    ensures At(AfterPass(p, inbounds, k, cs), tag) == At(cs, tag)
  {
    if k > 0 {
      AfterPassOther(p, inbounds, k - 1, cs, tag);
    }
  }

  lemma {:induction false} AfterPassAt(p: Pass, inbounds: seq<Inbound>, k: nat, cs: map<string, Connection>, j: nat)
    requires DistinctTags(inbounds) && j < k <= |inbounds| && Managed(inbounds[j])
    ensures At(AfterPass(p, inbounds, k, cs), Tag(inbounds[j]))
         == if InPass(p, inbounds[j]) then Some(EnsuredEntry(p, inbounds[j], At(cs, Tag(inbounds[j]))))
            else At(cs, Tag(inbounds[j]))
  {
    if j == k - 1 {
      AfterPassOther(p, inbounds, j, cs, Tag(inbounds[j]));
    } else {
      AfterPassAt(p, inbounds, k - 1, cs, j);
    }
  }

  /** With distinct tags the three loops act on each inbound's record independently. */
  lemma EnsuredAt(inbounds: seq<Inbound>, cs: map<string, Connection>, tag: string)
    requires DistinctTags(inbounds)
    ensures At(Ensured(inbounds, cs), tag)
         == match Find(inbounds, tag)
            case Some(k) => EnsuredConnection(inbounds[k], At(cs, tag))
            case None => At(cs, tag)
  {
    var n := |inbounds|;
    var a := AfterPass(RealityPass, inbounds, n, cs);
    var b := AfterPass(TlsPass, inbounds, n, a);
    FindSpec(inbounds, tag);
    match Find(inbounds, tag) {
      case Some(k) =>
        AfterPassAt(RealityPass, inbounds, n, cs, k);
        AfterPassAt(TlsPass, inbounds, n, a, k);
        AfterPassAt(TrojanPass, inbounds, n, b, k);
      case None =>
        AfterPassOther(RealityPass, inbounds, n, cs, tag);
        AfterPassOther(TlsPass, inbounds, n, a, tag);
        AfterPassOther(TrojanPass, inbounds, n, b, tag);
    }
  }

  lemma EnsuredConnectionIdempotent(i: Inbound, known: Option<Connection>)
    ensures EnsuredConnection(i, EnsuredConnection(i, known)) == EnsuredConnection(i, known)
  {}

  /** Calling it again changes nothing, so it does not matter how many helpers of one command call it. */
  lemma EnsureIdempotent(inbounds: seq<Inbound>, cs: map<string, Connection>)
    requires DistinctTags(inbounds)
    ensures Ensured(inbounds, Ensured(inbounds, cs)) == Ensured(inbounds, cs)
  {
    var once := Ensured(inbounds, cs);
    forall t ensures At(Ensured(inbounds, once), t) == At(once, t) {
      EnsuredAt(inbounds, cs, t);
      EnsuredAt(inbounds, once, t);
      if Find(inbounds, t).Some? {
        EnsuredConnectionIdempotent(inbounds[Find(inbounds, t).value], At(cs, t));
      }
    }
    AtExtensional(Ensured(inbounds, once), once);
  }

  // ---- What the records tell ----

  /** Caddy stands between the clients and the inbound. */
  predicate BehindProxy(i: Inbound) {
    TlsXhttp(i) || (ManagedTrojan(i) && i.network == "ws")
  }

  function PortOr443(port: int): int {
    if port == 0 then 443 else port
  }

  /** A record names the security of its inbound and the port at which clients reach it: the inbound's own, or the
      public one that is on record, which is kept. A known name is kept as well. */
  predicate Tells(c: Connection, i: Inbound, known: Option<Connection>) {
    && c.protocol == i.protocol && c.security == (if TlsXhttp(i) || !i.protocol.Vless? then "tls" else "reality")
    && c.name == (if known.Some? then known.value.name else NameFromTag(Tag(i)))
    && (known.Some? && known.value.publicPort.Some? ==> c.publicPort == known.value.publicPort)
    && if BehindProxy(i) then
         && c.publicPort.Some? && c.port == PortOr443(c.publicPort.value)
         && (known.Some? && known.value.publicPort.None? && !Reality(i) ==> c.publicPort.value == PortOr443(known.value.port))
         && (known.None? && !Reality(i) ==> c.publicPort.value == if i.protocol.Vless? then 443 else PortOr443(i.port))
       else c.port == i.port
  }

  /** After ensuring, every managed inbound has a record, which tells where it is reached. */
  lemma EnsuredTells(s: State, k: nat)
    requires DistinctTags(s.inbounds) && RecordsFit(s) && k < |s.inbounds| && Managed(s.inbounds[k])
    ensures var c := At(Ensured(s.inbounds, s.connections), Tag(s.inbounds[k]));
            c.Some? && Tells(c.value, s.inbounds[k], At(s.connections, Tag(s.inbounds[k])))
  {
    FindUnique(s.inbounds, k);
    EnsuredAt(s.inbounds, s.connections, Tag(s.inbounds[k]));
  }

  /** The names that new records are given; two kinds of tags can lead to one name. */
  lemma DefaultNames()
    ensures NameFromTag("vless-reality") == "default" && NameFromTag("vless-tls") == "tls" && NameFromTag("trojan-tls") == "trojan"
    ensures NameFromTag("vless-reality-2") == NameFromTag("vless-tls-2") == NameFromTag("trojan-tls-2") == "2"
  {
    assert "vless-reality-2"[..14] == "vless-reality-" && "vless-reality-2"[14..] == "2";
    assert "vless-tls-2"[..10] == "vless-tls-" && "vless-tls-2"[10..] == "2";
    assert "trojan-tls-2"[..11] == "trojan-tls-" && "trojan-tls-2"[11..] == "2";
    assert "2"[1..] == "";
    assert "trojan-tls"[..10][0] == 't' && "trojan-tls-2"[..10][0] == 't' && "vless-tls-2"[..10][6] == 't';
  }

  // ---- Which inbound serves a tag ----

  /** The protocol and the clients of the managed inbound with a tag. */
  function Served(inbounds: seq<Inbound>, tag: string): Option<(Protocol, seq<Item>)> {
    match Find(inbounds, tag)
    case None => None
    case Some(k) => Some((inbounds[k].protocol, inbounds[k].clients))
  }

  lemma ServedBy(inbounds: seq<Inbound>, k: nat)
    requires DistinctTags(inbounds) && k < |inbounds| && Managed(inbounds[k])
    ensures Served(inbounds, Tag(inbounds[k])) == Some((inbounds[k].protocol, inbounds[k].clients))
  {
    FindUnique(inbounds, k);
  }

  lemma ServedNone(inbounds: seq<Inbound>, tag: string)
    ensures Served(inbounds, tag).None? <==> tag !in ManagedTags(inbounds)
  {
    FindSpec(inbounds, tag);
  }

  lemma DistinctAppend(inbounds: seq<Inbound>, i: Inbound)
    requires DistinctTags(inbounds) && (Managed(i) ==> Tag(i) !in ManagedTags(inbounds))
    ensures DistinctTags(inbounds + [i])
  {}

  lemma ServedAppend(inbounds: seq<Inbound>, i: Inbound, tag: string)
    requires DistinctTags(inbounds + [i])
    ensures Served(inbounds + [i], tag)
         == if Managed(i) && Tag(i) == tag then Some((i.protocol, i.clients)) else Served(inbounds, tag)
  {
    var all := inbounds + [i];
    assert all[|inbounds|] == i;
    if Managed(i) && Tag(i) == tag {
      ServedBy(all, |inbounds|);
    } else {
      FindSpec(inbounds, tag);
      FindSpec(all, tag);
      if Find(inbounds, tag).Some? {
        var k := Find(inbounds, tag).value;
        assert all[k] == inbounds[k];
        ServedBy(all, k);
      }
    }
  }

  /** Consistency depends only on who serves which tag; an inbound without clients may come in. */
  lemma ServedKeeps(s: State, s': State)
    requires Consistent(s) && DistinctTags(s'.inbounds) && s'.clients == s.clients
    requires forall t :: Served(s'.inbounds, t) == Served(s.inbounds, t)
                         || (Served(s.inbounds, t).None? && Served(s'.inbounds, t).Some? && Served(s'.inbounds, t).value.1 == [])
    ensures Consistent(s')
  {
    forall n | n in s'.clients ensures EntryOk(s'.inbounds, n, s'.clients[n]) {
      ServedEntryOk(s.inbounds, s'.inbounds, n, s.clients[n]);
    }
    forall n, t ensures MirrorAt(s', n, t) {
      assert MirrorOf(s, n) && MirrorAt(s, n, t);
      assert Items(s'.inbounds, t, n) == Items(s.inbounds, t, n) by {
        assert Served(s.inbounds, t).None? ==> Items(s.inbounds, t, n) == [];
      }
    }
    forall n ensures MirrorOf(s', n) {}
  }

  lemma ServedEntryOk(a: seq<Inbound>, b: seq<Inbound>, name: string, e: Entry)
    requires EntryOk(a, name, e)
    requires forall t | Served(a, t).Some? :: Served(b, t) == Served(a, t)
    ensures EntryOk(b, name, e)
  {
    forall t | t in e.credentials ensures CredentialOk(b, name, t, e.credentials[t]) {
      assert CredentialOk(a, name, t, e.credentials[t]);
      assert Served(a, t).Some?;
    }
  }

  // ---- Ports, and the VLESS and Reality inbounds ----

  predicate DistinctPorts(inbounds: seq<Inbound>) {
    forall i, j | 0 <= i < j < |inbounds| :: inbounds[i].port != inbounds[j].port
  }

  /** No Reality inbound carries a TLS tag with the xhttp transport; the manager never creates one. */
  predicate Unmixed(inbounds: seq<Inbound>) {
    forall i | 0 <= i < |inbounds| :: !(Reality(inbounds[i]) && TlsXhttp(inbounds[i]))
  }

  /** `len(vless_connection_inbounds(config))`. */
  function VlessCount(inbounds: seq<Inbound>): nat {
    if inbounds == [] then 0
    else VlessCount(inbounds[..|inbounds| - 1]) + (if ManagedVless(inbounds[|inbounds| - 1]) then 1 else 0)
  }

  /** `len(reality_inbounds(config))`. */
  function RealityCount(inbounds: seq<Inbound>): nat {
    if inbounds == [] then 0
    else RealityCount(inbounds[..|inbounds| - 1]) + (if Reality(inbounds[|inbounds| - 1]) then 1 else 0)
  }

  lemma CountsAppend(inbounds: seq<Inbound>, i: Inbound)
    ensures VlessCount(inbounds + [i]) == VlessCount(inbounds) + (if ManagedVless(i) then 1 else 0)
    ensures RealityCount(inbounds + [i]) == RealityCount(inbounds) + (if Reality(i) then 1 else 0)
  {
    assert (inbounds + [i])[..|inbounds|] == inbounds;
  }

  /** The shape that every command on connections keeps. */
  ghost predicate Layout(inbounds: seq<Inbound>) {
    DistinctPorts(inbounds) && Unmixed(inbounds) && VlessCount(inbounds) >= 1 && RealityCount(inbounds) >= 1
  }

  // ---- add ----

  /** The four kinds of connection, each with its own command. */
  datatype NewConnection =
    | NewReality(port: int, network: string)
    | NewTlsXhttp(port: int, publicPort: int)
    | NewTrojanTls(port: int)
    | NewTrojanWs(port: int, publicPort: int)

  function NewInbound(n: NewConnection, tag: string): Inbound {
    match n
    case NewReality(port, network) => Inbound(tag, Vless, "reality", network, "0.0.0.0", port, [])
    case NewTlsXhttp(port, _) => Inbound(tag, Vless, "none", "xhttp", "127.0.0.1", port, [])
    case NewTrojanTls(port) => Inbound(tag, Trojan, "tls", "tcp", "0.0.0.0", port, [])
    case NewTrojanWs(port, _) => Inbound(tag, Trojan, "none", "ws", "127.0.0.1", port, [])
  }

  function NewRecord(n: NewConnection, name: string): Connection {
    match n
    case NewReality(port, _) => Connection(name, Vless, "", port, None)
    case NewTlsXhttp(_, publicPort) => Connection(name, Vless, "tls", publicPort, Some(publicPort))
    case NewTrojanTls(port) => Connection(name, Trojan, "tls", port, None)
    case NewTrojanWs(_, publicPort) => Connection(name, Trojan, "tls", publicPort, Some(publicPort))
  }

  /** Where each kind looks for a free tag. */
  function TagBase(n: NewConnection): string {
    match n
    case NewReality(_, _) => INBOUND_TAG
    case NewTlsXhttp(_, _) => TLS_INBOUND_TAG
    case _ => TROJAN_INBOUND_TAG
  }

  function TagsConsidered(n: NewConnection, inbounds: seq<Inbound>): set<string> {
    if n.NewReality? then VlessTags(inbounds) else ManagedTags(inbounds)
  }

  predicate NameTakenIn(connections: map<string, Connection>, name: string) {
    exists t | t in connections :: connections[t].name == name
  }

  /** Both copies after adding a connection. */
  ghost predicate ConnectionAdded(s: State, s': State, name: string, n: NewConnection, tag: string) {
    && IsNextTag(TagBase(n), TagsConsidered(n, s.inbounds), tag)
    && !NameTakenIn(Ensured(s.inbounds, s.connections), name)
    && n.port !in UsedPorts(s.inbounds)
    && s' == State(s.inbounds + [NewInbound(n, tag)],
                   Ensured(s.inbounds, s.connections)[tag := NewRecord(n, name)], s.clients)
  }

  method AddConnection(config: Config, db: Db, name: string, n: NewConnection) returns (r: Result<string, Error>)
    modifies config, db
    ensures r.Ok? ==> ConnectionAdded(old(View(config, db)), View(config, db), name, n, r.value)
    ensures r.Err? ==> View(config, db) == old(View(config, db)).(connections := Ensured(config.inbounds, old(db.connections)))
    ensures r.Err? <==> ManagedTags(old(config.inbounds)) == {}
                        || NameTakenIn(Ensured(old(config.inbounds), old(db.connections)), name)
                        || n.port in UsedPorts(old(config.inbounds))
  {
    var ok := EnsureConnections(config, db);
    if !ok {
      return Err(ConnectionNotFound);
    }
    if NameTakenIn(db.connections, name) {
      return Err(NameTaken);
    }
    if n.port in UsedPorts(config.inbounds) {
      return Err(PortTaken);
    }
    var tag := NextTag(TagBase(n), TagsConsidered(n, config.inbounds));
    config.inbounds := config.inbounds + [NewInbound(n, tag)];
    db.connections := db.connections[tag := NewRecord(n, name)];
    r := Ok(tag);
  }

  /** The new inbound is managed, under a tag that no managed inbound has. */
  lemma NewInboundFits(inbounds: seq<Inbound>, n: NewConnection, tag: string)
    requires IsNextTag(TagBase(n), TagsConsidered(n, inbounds), tag)
    ensures Managed(NewInbound(n, tag)) && Tag(NewInbound(n, tag)) == tag && tag !in ManagedTags(inbounds)
    ensures !(Reality(NewInbound(n, tag)) && TlsXhttp(NewInbound(n, tag)))
  {
    CandidatePrefix(TagBase(n), TagsConsidered(n, inbounds), tag);
    if n.NewReality? {
      RealityTagIsNew(inbounds, tag);
      RealityTagIsNotTls(inbounds, tag);
    }
  }

  lemma AddConnectionKeeps(s: State, s': State, name: string, n: NewConnection, tag: string)
    requires Consistent(s) && ConnectionAdded(s, s', name, n, tag)
    ensures Consistent(s')
    ensures Layout(s.inbounds) ==> Layout(s'.inbounds)
  {
    var i := NewInbound(n, tag);
    NewInboundFits(s.inbounds, n, tag);
    DistinctAppend(s.inbounds, i);
    forall t ensures Served(s'.inbounds, t) == if t == tag then Some((i.protocol, [])) else Served(s.inbounds, t) {
      ServedAppend(s.inbounds, i, t);
    }
    ServedNone(s.inbounds, tag);
    ServedKeeps(s, s');
    CountsAppend(s.inbounds, i);
  }

  /** The new inbound has no clients and listens where it was asked to, in the open unless Caddy serves it; its record
      has the name and the public port that were asked for, and ensuring leaves them. */
  lemma AddedTells(s: State, s': State, name: string, n: NewConnection, tag: string)
    requires Consistent(s) && RecordsFit(s) && ConnectionAdded(s, s', name, n, tag)
    ensures var i, k := s'.inbounds[|s.inbounds|], At(Ensured(s'.inbounds, s'.connections), tag);
            && s'.inbounds[..|s.inbounds|] == s.inbounds && |s'.inbounds| == |s.inbounds| + 1 && s'.clients == s.clients
            && Tag(i) == tag && i.port == n.port && i.clients == [] && (Loopback(i.listen) <==> BehindProxy(i))
            && (BehindProxy(i) <==> n.NewTlsXhttp? || n.NewTrojanWs?) && (i.security == "none" <==> BehindProxy(i))
            && k.Some? && k.value.name == name
            && k.value.port == (if n.NewTlsXhttp? || n.NewTrojanWs? then PortOr443(n.publicPort) else n.port)
            && tag in s'.connections && s'.connections[tag].name == name && s'.connections[tag].protocol == i.protocol
            && s'.connections[tag].port == (if n.NewTlsXhttp? || n.NewTrojanWs? then n.publicPort else n.port)
            && (s'.connections[tag].security == "tls" <==> !n.NewReality?)
  {
    NewInboundFits(s.inbounds, n, tag);
    AddConnectionKeeps(s, s', name, n, tag);
    FindUnique(s'.inbounds, |s.inbounds|);
    EnsuredAt(s'.inbounds, s'.connections, tag);
  }

  // ---- rename ----

  /** The name of a connection; that of its tag when the record has none. */
  function ShownName(connections: map<string, Connection>, tag: string): string
    requires tag in connections
  {
    Or(connections[tag].name, NameFromTag(tag))
  }

  /** `resolve_connection_identifier` on ensured records: a tag, or the name of exactly one record. */
  function Resolve(connections: map<string, Connection>, value: string): (r: Result<string, Error>)
    ensures r.Ok? ==> r.value in connections
  {
    var identifier := Trim(value);
    var matches := set t | t in connections && ShownName(connections, t) == identifier;
    if identifier == "" then Err(NameRequired)
    else if identifier in connections then Ok(identifier)
    else if matches == {} then Err(ConnectionNotFound)
    else if |matches| > 1 then Err(AmbiguousName)
    else Ok(Least(matches))
  }

  /** An identifier is resolved to the tag that it is, or else to the only connection that has it as its name. */
  lemma ResolvesTo(connections: map<string, Connection>, value: string, tag: string)
    ensures Resolve(connections, value) == Ok(tag) <==>
              && Trim(value) != "" && tag in connections
              && (tag == Trim(value)
                  || (Trim(value) !in connections
                      && forall t | t in connections :: ShownName(connections, t) == Trim(value) <==> t == tag))
  {
    var identifier := Trim(value);
    var matches := set t | t in connections && ShownName(connections, t) == identifier;
    assert forall t | t in connections :: t in matches <==> ShownName(connections, t) == identifier;
    if Resolve(connections, value) == Ok(tag) && tag != identifier {
      OnlyElement(matches, tag);
      assert forall t | t in connections :: ShownName(connections, t) == identifier <==> t in {tag};
    } else if tag in connections && forall t | t in connections :: ShownName(connections, t) == identifier <==> t == tag {
      assert matches == {tag};
    }
  }

  /** Once renamed to a free name that is no tag, a connection is found under it. */
  lemma RenamedIsFound(connections: map<string, Connection>, tag: string, newName: string)
    requires tag in connections && Trim(newName) != "" && Trim(newName) !in connections
    requires forall t | t in connections && t != tag :: ShownName(connections, t) != Trim(newName)
    ensures Resolve(connections[tag := connections[tag].(name := Trim(newName))], newName) == Ok(tag)
  {
    var renamed := connections[tag := connections[tag].(name := Trim(newName))];
    forall t | t in renamed ensures ShownName(renamed, t) == Trim(newName) <==> t == tag {
      assert t != tag ==> ShownName(renamed, t) == ShownName(connections, t);
    }
    ResolvesTo(renamed, newName, tag);
  }

  lemma OnlyElement(tags: set<string>, tag: string)
    requires |tags| == 1 && tag in tags
    ensures tags == {tag}
  {
    assert |tags - {tag}| == 0;
  }

  predicate DistinctNames(connections: map<string, Connection>) {
    forall a, b | a in connections && b in connections && a != b :: ShownName(connections, a) != ShownName(connections, b)
  }

  method RenameConnection(config: Config, db: Db, identifier: string, newName: string) returns (error: Option<Error>)
    modifies db
    ensures db.clients == old(db.clients)
    ensures error.Some? ==> db.connections == Ensured(config.inbounds, old(db.connections))
    ensures error.Some? <==>
              var before := Ensured(config.inbounds, old(db.connections));
              || ManagedTags(config.inbounds) == {} || Trim(newName) == ""
              || Resolve(before, identifier).Err?
              || exists t | t in before :: t != Resolve(before, identifier).value && ShownName(before, t) == Trim(newName)
    ensures error.None? ==>
              var before := Ensured(config.inbounds, old(db.connections));
              && Resolve(before, identifier).Ok?
              && var tag := Resolve(before, identifier).value;
                 && db.connections == before[tag := before[tag].(name := Trim(newName))]
                 && (DistinctNames(before) ==> DistinctNames(db.connections))
  {
    var ok := EnsureConnections(config, db);
    var name := Trim(newName);
    if !ok {
      return Some(ConnectionNotFound);
    }
    if name == "" {
      return Some(NameRequired);
    }
    var resolved := Resolve(db.connections, identifier);
    if resolved.Err? {
      return Some(resolved.error);
    }
    var tag := resolved.value;
    if t :| t in db.connections && t != tag && ShownName(db.connections, t) == name {
      return Some(NameTaken);
    }
    db.connections := db.connections[tag := db.connections[tag].(name := name)];
    error := None;
  }

  // ---- update-trojan-connection ----

  predicate Loopback(listen: string) {
    listen in {"127.0.0.1", "localhost", "::1"}
  }

  /** `public_port_conflicts` is not empty. */
  predicate PublicPortConflict(inbounds: seq<Inbound>, port: int) {
    exists i | 0 <= i < |inbounds| :: inbounds[i].port == port && !Loopback(inbounds[i].listen)
  }

  /** `port_used_by_other_inbound`. */
  predicate PortUsedElsewhere(inbounds: seq<Inbound>, tag: string, port: int) {
    exists i | 0 <= i < |inbounds| :: Tag(inbounds[i]) != tag && inbounds[i].port == port
  }

  function NewLocalPort(i: Inbound, asked: Option<int>): int {
    if asked.Some? then asked.value else i.port
  }

  function NewPublicPort(c: Connection, asked: Option<int>): int {
    if asked.Some? then asked.value
    else OrPort(if c.publicPort.Some? then c.publicPort.value else 0, OrPort(c.port, DEFAULT_PUBLIC_PORT))
  }

  /** The inbound at `k` and its record on their new ports. */
  function Reported(s: State, k: nat, localPort: int, publicPort: int): State
    requires k < |s.inbounds| && Tag(s.inbounds[k]) in s.connections
  {
    var i := s.inbounds[k];
    State(s.inbounds[k := i.(port := localPort, network := "ws", security := "none")],
          s.connections[Tag(i) := s.connections[Tag(i)].(protocol := Trojan, security := "tls", port := publicPort,
                                                         publicPort := Some(publicPort))],
          s.clients)
  }

  ghost predicate TrojanUpdated(s: State, s': State, k: nat, localPort: Option<int>, publicPort: Option<int>) {
    var connections := Ensured(s.inbounds, s.connections);
    && k < |s.inbounds|
    && var i := s.inbounds[k];
       && Managed(i) && i.network == "ws" && Tag(i) in connections && connections[Tag(i)].protocol.Trojan?
       && var local := NewLocalPort(i, localPort);
          var public := NewPublicPort(connections[Tag(i)], publicPort);
          && !PortUsedElsewhere(s.inbounds, Tag(i), local)
          && !PublicPortConflict(s.inbounds, public)
          && s' == Reported(s.(connections := connections), k, local, public)
  }

  /** Exactly when the update is refused: no such Trojan connection over WebSocket, or a port that is not free. */
  predicate TrojanUpdateRefused(s: State, identifier: string, localPort: Option<int>, publicPort: Option<int>) {
    var connections := Ensured(s.inbounds, s.connections);
    || ManagedTags(s.inbounds) == {}
    || Resolve(connections, identifier).Err?
    || var tag := Resolve(connections, identifier).value;
       || Find(s.inbounds, tag).None?
       || !connections[tag].protocol.Trojan?
       || var i := s.inbounds[Find(s.inbounds, tag).value];
          || i.network != "ws"
          || PortUsedElsewhere(s.inbounds, tag, NewLocalPort(i, localPort))
          || PublicPortConflict(s.inbounds, NewPublicPort(connections[tag], publicPort))
  }

  /** With both ports asked for, a Trojan connection over WebSocket is refused exactly when another tag's inbound is on
      the local port or something listens publicly on the public one. */
  lemma AskedPortsRefusedIff(s: State, identifier: string, tag: string, k: nat, localPort: int, publicPort: int)
    requires Resolve(Ensured(s.inbounds, s.connections), identifier) == Ok(tag) && Find(s.inbounds, tag) == Some(k)
    requires s.inbounds[k].network == "ws" && Ensured(s.inbounds, s.connections)[tag].protocol.Trojan?
    ensures TrojanUpdateRefused(s, identifier, Some(localPort), Some(publicPort)) <==>
              || (exists j | 0 <= j < |s.inbounds| :: s.inbounds[j].port == localPort && Tag(s.inbounds[j]) != tag)
              || (exists j | 0 <= j < |s.inbounds| ::
                    s.inbounds[j].port == publicPort && s.inbounds[j].listen !in {"127.0.0.1", "localhost", "::1"})
  {
    FindSpec(s.inbounds, tag);
    assert tag in ManagedTags(s.inbounds);
  }

  method UpdateTrojanConnection(config: Config, db: Db, identifier: string, localPort: Option<int>, publicPort: Option<int>)
      returns (error: Option<Error>, ghost k: nat)
    modifies config, db
    ensures error.None? ==> TrojanUpdated(old(View(config, db)), View(config, db), k, localPort, publicPort)
    ensures error.Some? ==>
              View(config, db) == old(View(config, db)).(connections := Ensured(config.inbounds, old(db.connections)))
    ensures error.Some? <==> TrojanUpdateRefused(old(View(config, db)), identifier, localPort, publicPort)
    ensures error.None? ==> Resolve(Ensured(old(config.inbounds), old(db.connections)), identifier)
                            == Ok(Tag(old(config.inbounds)[k]))
  {
    k := 0;
    var ok := EnsureConnections(config, db);
    if !ok {
      return Some(ConnectionNotFound), 0;
    }
    var resolved := Resolve(db.connections, identifier);
    if resolved.Err? {
      return Some(resolved.error), 0;
    }
    var tag := resolved.value;
    var found := Find(config.inbounds, tag);
    if found.None? {
      return Some(ConnectionNotFound), 0;
    }
    FindSpec(config.inbounds, tag);
    var i := config.inbounds[found.value];
    var entry := db.connections[tag];
    if !entry.protocol.Trojan? {
      return Some(NotTrojan), 0;
    }
    if i.network != "ws" {
      return Some(NotTrojanWs), 0;
    }
    var local, public := NewLocalPort(i, localPort), NewPublicPort(entry, publicPort);
    if PortUsedElsewhere(config.inbounds, tag, local) {
      return Some(PortTaken), 0;
    }
    if PublicPortConflict(config.inbounds, public) {
      return Some(PublicPortTaken), 0;
    }
    config.inbounds := config.inbounds[found.value := i.(port := local, network := "ws", security := "none")];
    db.connections := db.connections[tag := entry.(protocol := Trojan, security := "tls", port := public,
                                                   publicPort := Some(public))];
    error, k := None, found.value;
  }

  /** A record tells the protocol of its inbound. */
  predicate RecordsFit(s: State) {
    forall k | 0 <= k < |s.inbounds| && Managed(s.inbounds[k]) && Tag(s.inbounds[k]) in s.connections ::
      s.connections[Tag(s.inbounds[k])].protocol == s.inbounds[k].protocol
  }

  lemma EnsuredFits(s: State, k: nat)
    requires DistinctTags(s.inbounds) && RecordsFit(s) && k < |s.inbounds| && Managed(s.inbounds[k])
    ensures var c := At(Ensured(s.inbounds, s.connections), Tag(s.inbounds[k]));
            c.Some? && c.value.protocol == s.inbounds[k].protocol
  {
    FindUnique(s.inbounds, k);
    EnsuredAt(s.inbounds, s.connections, Tag(s.inbounds[k]));
  }

  /** What serving a tag depends on. */
  predicate SameServer(a: Inbound, b: Inbound) {
    Managed(a) == Managed(b) && Tag(a) == Tag(b) && a.protocol == b.protocol && a.clients == b.clients
  }

  lemma SameServers(a: seq<Inbound>, b: seq<Inbound>)
    requires |a| == |b| && DistinctTags(a) && forall i | 0 <= i < |a| :: SameServer(a[i], b[i])
    ensures DistinctTags(b) && forall t :: Served(b, t) == Served(a, t)
  {
    forall i, j | 0 <= i < j < |b| && Managed(b[i]) && Managed(b[j]) ensures Tag(b[i]) != Tag(b[j]) {
      assert SameServer(a[i], b[i]) && SameServer(a[j], b[j]);
    }
    forall t ensures Served(b, t) == Served(a, t) {
      FindSpec(a, t);
      FindSpec(b, t);
      if Find(a, t).Some? {
        var k := Find(a, t).value;
        assert SameServer(a[k], b[k]);
        ServedBy(a, k);
        ServedBy(b, k);
      } else {
        assert forall k | 0 <= k < |a| :: SameServer(a[k], b[k]);
      }
    }
  }

  lemma {:induction false} SameCounts(a: seq<Inbound>, b: seq<Inbound>)
    requires |a| == |b|
    requires forall i | 0 <= i < |a| :: Reality(a[i]) == Reality(b[i]) && ManagedVless(a[i]) == ManagedVless(b[i])
    ensures VlessCount(a) == VlessCount(b) && RealityCount(a) == RealityCount(b)
  {
    if a != [] {
      SameCounts(a[..|a| - 1], b[..|b| - 1]);
    }
  }

  lemma TrojanUpdateKeeps(s: State, s': State, k: nat, localPort: Option<int>, publicPort: Option<int>)
    requires Consistent(s) && RecordsFit(s) && TrojanUpdated(s, s', k, localPort, publicPort)
    ensures Consistent(s')
  {
    EnsuredFits(s, k);
    SameServers(s.inbounds, s'.inbounds);
    ServedKeeps(s, s');
  }

  /** Another inbound under the same tag is on the port. */
  predicate NamesakeHolds(inbounds: seq<Inbound>, k: nat, port: int)
    requires k < |inbounds|
  {
    exists j | 0 <= j < |inbounds| :: j != k && Tag(inbounds[j]) == Tag(inbounds[k]) && inbounds[j].port == port
  }

  /** The port check skips every inbound with the same tag, not only the updated one: ports stay distinct
      exactly when no unmanaged namesake holds the new port. */
  lemma TrojanUpdatePorts(s: State, s': State, k: nat, localPort: Option<int>, publicPort: Option<int>)
    requires DistinctTags(s.inbounds) && RecordsFit(s) && TrojanUpdated(s, s', k, localPort, publicPort)
    requires Layout(s.inbounds)
    ensures Layout(s'.inbounds) <==>
              !NamesakeHolds(s.inbounds, k, NewLocalPort(s.inbounds[k], localPort))
  {
    EnsuredFits(s, k);
    SameCounts(s.inbounds, s'.inbounds);
    var b := s'.inbounds;
    assert forall j | 0 <= j < |b| && j != k :: b[j] == s.inbounds[j];
    if DistinctPorts(b) {
      assert forall j | 0 <= j < |b| && j != k :: b[j].port != b[k].port;
    }
  }

  const WS_INBOUND := Inbound("trojan-tls", Trojan, "none", "ws", "127.0.0.1", 10100, [])
  const NAMESAKE := Inbound("trojan-tls", Other, "none", "tcp", "127.0.0.1", 9000, [])

  /** A foreign inbound under the same tag: the update moves the connection onto its port. */
  lemma NamesakePortIsTaken()
    ensures var s := State([WS_INBOUND, NAMESAKE], map[], map[]);
            && DistinctPorts(s.inbounds) && DistinctTags(s.inbounds) && RecordsFit(s)
            && exists s' :: TrojanUpdated(s, s', 0, Some(9000), Some(443)) && !DistinctPorts(s'.inbounds)
  {
    var s := State([WS_INBOUND, NAMESAKE], map[], map[]);
    assert "trojan-tls"[..10] == "trojan-tls";
    EnsuredFits(s, 0);
    var s' := Reported(s.(connections := Ensured(s.inbounds, s.connections)), 0, 9000, 443);
    assert TrojanUpdated(s, s', 0, Some(9000), Some(443));
    assert s'.inbounds[0].port == s'.inbounds[1].port;
  }

  /** The ports asked for are the ones the inbound and its record end up with; without one the port stays. */
  lemma TrojanUpdateAsked(s: State, s': State, k: nat, localPort: Option<int>, publicPort: Option<int>)
    requires TrojanUpdated(s, s', k, localPort, publicPort)
    ensures var i, i', c' := s.inbounds[k], s'.inbounds[k], s'.connections[Tag(s.inbounds[k])];
            && i'.port == (match localPort case Some(p) => p case None => i.port)
            && (publicPort.Some? ==> c'.port == publicPort.value)
            && c'.publicPort == Some(c'.port)
            && (publicPort.None? ==>
                  var c := Ensured(s.inbounds, s.connections)[Tag(i)];
                  c.publicPort.Some? && c.publicPort.value != 0 ==> c'.port == c.publicPort.value)
            && i'.clients == i.clients && c'.name == Ensured(s.inbounds, s.connections)[Tag(i)].name
            && forall j | 0 <= j < |s.inbounds| && j != k :: s'.inbounds[j] == s.inbounds[j]
  {}

  /** Nothing that Xray exposes is left on the public port that Caddy will serve. */
  lemma TrojanUpdatePublicPort(s: State, s': State, k: nat, localPort: Option<int>, publicPort: Option<int>)
    requires TrojanUpdated(s, s', k, localPort, publicPort)
    ensures var port := s'.connections[Tag(s.inbounds[k])].port;
            forall j | 0 <= j < |s'.inbounds| && j != k && s'.inbounds[j].port == port :: Loopback(s'.inbounds[j].listen)
  {
    assert forall j | 0 <= j < |s'.inbounds| && j != k :: s'.inbounds[j] == s.inbounds[j];
  }
}
