/** Removing a connection with everything that belongs to it, in both copies. */
module Removal {
  import opened Wrappers
  import opened Text
  import opened ClientState
  import opened Switching
  import opened Connections
  import opened Allocation

  /** The inbounds that survive the removal of a tag; unmanaged namesakes go as well. */
  function Keep(inbounds: seq<Inbound>, tag: string): (r: seq<Inbound>)
    ensures |r| <= |inbounds|
  {
    if inbounds == [] then []
    else
      var rest := Keep(inbounds[..|inbounds| - 1], tag);
      var last := inbounds[|inbounds| - 1];
      if Tag(last) == tag && !last.protocol.Other? then rest else rest + [last]
  }

  lemma {:induction false} KeepMembers(inbounds: seq<Inbound>, tag: string)
    ensures forall i :: i in Keep(inbounds, tag) <==> i in inbounds && !(Tag(i) == tag && !i.protocol.Other?)
  {
    if inbounds != [] {
      KeepMembers(inbounds[..|inbounds| - 1], tag);
    }
  }

  lemma DistinctPrefix(inbounds: seq<Inbound>)
    requires DistinctTags(inbounds) && inbounds != []
    ensures DistinctTags(inbounds[..|inbounds| - 1])
    ensures inbounds == inbounds[..|inbounds| - 1] + [inbounds[|inbounds| - 1]]
    ensures Managed(inbounds[|inbounds| - 1]) ==>
              Tag(inbounds[|inbounds| - 1]) !in ManagedTags(inbounds[..|inbounds| - 1])
  {}

  lemma KeepTags(inbounds: seq<Inbound>, tag: string)
    ensures ManagedTags(Keep(inbounds, tag)) <= ManagedTags(inbounds)
  {
    KeepMembers(inbounds, tag);
    forall t | t in ManagedTags(Keep(inbounds, tag)) ensures t in ManagedTags(inbounds) {
      var k :| 0 <= k < |Keep(inbounds, tag)| && Managed(Keep(inbounds, tag)[k]) && Tag(Keep(inbounds, tag)[k]) == t;
      assert Keep(inbounds, tag)[k] in inbounds;
    }
  }

  /** The other tags are served as before. */
  lemma {:induction false} KeepServes(inbounds: seq<Inbound>, tag: string)
    requires DistinctTags(inbounds)
    ensures DistinctTags(Keep(inbounds, tag))
    ensures forall t :: Served(Keep(inbounds, tag), t) == if t == tag then None else Served(inbounds, t)
  {
    if inbounds != [] {
      var init, last := inbounds[..|inbounds| - 1], inbounds[|inbounds| - 1];
      DistinctPrefix(inbounds);
      KeepServes(init, tag);
      KeepTags(init, tag);
      forall t ensures Served(Keep(inbounds, tag), t) == if t == tag then None else Served(inbounds, t) {
        ServedAppend(init, last, t);
        if Tag(last) != tag || last.protocol.Other? {
          DistinctAppend(Keep(init, tag), last);
          ServedAppend(Keep(init, tag), last, t);
        }
      }
    }
  }

  function RealityTags(inbounds: seq<Inbound>): set<string> {
    set i | 0 <= i < |inbounds| && Reality(inbounds[i]) :: Tag(inbounds[i])
  }

  lemma VlessTagAppend(init: seq<Inbound>, last: Inbound, tag: string)
    ensures tag in VlessTags(init + [last]) <==> tag in VlessTags(init) || (ManagedVless(last) && Tag(last) == tag)
    ensures tag in VlessTags(init) ==> tag in ManagedTags(init)
  {
    var all := init + [last];
    assert all[|init|] == last && forall k | 0 <= k < |init| :: all[k] == init[k];
  }

  lemma RealityTagAppend(init: seq<Inbound>, last: Inbound, tag: string)
    ensures tag in RealityTags(init + [last]) <==> tag in RealityTags(init) || (Reality(last) && Tag(last) == tag)
    ensures tag in RealityTags(init) ==> tag in ManagedTags(init)
  {
    var all := init + [last];
    assert all[|init|] == last && forall k | 0 <= k < |init| :: all[k] == init[k];
  }

  lemma KeepAppend(init: seq<Inbound>, last: Inbound, tag: string)
    ensures Keep(init + [last], tag)
         == if Tag(last) == tag && !last.protocol.Other? then Keep(init, tag) else Keep(init, tag) + [last]
  {
    assert (init + [last])[..|init|] == init;
  }

  function One(b: bool): nat {
    if b then 1 else 0
  }

  lemma KeepVlessStep(init: seq<Inbound>, last: Inbound, tag: string)
    requires Managed(last) ==> Tag(last) !in ManagedTags(init)
    requires VlessCount(Keep(init, tag)) == VlessCount(init) - One(tag in VlessTags(init))
    ensures VlessCount(Keep(init + [last], tag)) == VlessCount(init + [last]) - One(tag in VlessTags(init + [last]))
  {
    KeepAppend(init, last, tag);
    CountsAppend(init, last);
    CountsAppend(Keep(init, tag), last);
    VlessTagAppend(init, last, tag);
  }

  lemma KeepRealityStep(init: seq<Inbound>, last: Inbound, tag: string)
    requires Managed(last) ==> Tag(last) !in ManagedTags(init)
    requires RealityCount(Keep(init, tag)) == RealityCount(init) - One(tag in RealityTags(init))
    ensures RealityCount(Keep(init + [last], tag)) == RealityCount(init + [last]) - One(tag in RealityTags(init + [last]))
  {
    KeepAppend(init, last, tag);
    CountsAppend(init, last);
    CountsAppend(Keep(init, tag), last);
    RealityTagAppend(init, last, tag);
  }

  /** How many VLESS and Reality inbounds go: one, if the tag is that of one. */
  lemma {:induction false} KeepVless(inbounds: seq<Inbound>, tag: string)
    requires DistinctTags(inbounds)
    ensures VlessCount(Keep(inbounds, tag)) == VlessCount(inbounds) - One(tag in VlessTags(inbounds))
  {
    if inbounds != [] {
      DistinctPrefix(inbounds);
      KeepVless(inbounds[..|inbounds| - 1], tag);
      KeepVlessStep(inbounds[..|inbounds| - 1], inbounds[|inbounds| - 1], tag);
    }
  }

  lemma {:induction false} KeepReality(inbounds: seq<Inbound>, tag: string)
    requires DistinctTags(inbounds)
    ensures RealityCount(Keep(inbounds, tag)) == RealityCount(inbounds) - One(tag in RealityTags(inbounds))
  {
    if inbounds != [] {
      DistinctPrefix(inbounds);
      KeepReality(inbounds[..|inbounds| - 1], tag);
      KeepRealityStep(inbounds[..|inbounds| - 1], inbounds[|inbounds| - 1], tag);
    }
  }

  lemma {:induction false} KeepPorts(inbounds: seq<Inbound>, tag: string)
    requires DistinctPorts(inbounds)
    ensures DistinctPorts(Keep(inbounds, tag))
  {
    if inbounds != [] {
      var init, last := inbounds[..|inbounds| - 1], inbounds[|inbounds| - 1];
      KeepPorts(init, tag);
      KeepMembers(init, tag);
      forall k | 0 <= k < |Keep(init, tag)| ensures Keep(init, tag)[k].port != last.port {
        assert Keep(init, tag)[k] in init;
      }
    }
  }

  // ---- the clients ----

  /** `connection_client_names`. */
  function UsersOf(s: State, tag: string): set<string>
    requires Find(s.inbounds, tag).Some?
  {
    var items := s.inbounds[Find(s.inbounds, tag).value].clients;
    (set k | 0 <= k < |items| && Name(items[k]) != "" :: Name(items[k]))
    + (set n | n in s.clients && tag in s.clients[n].credentials)
  }

  /** The clients of a connection: whoever has an item with a name in its inbound, or a credential for it. */
  lemma UsersAre(s: State, tag: string, n: string)
    requires Find(s.inbounds, tag).Some?
    ensures n in UsersOf(s, tag) <==>
              (n != "" && Items(s.inbounds, tag, n) != []) || (n in s.clients && tag in s.clients[n].credentials)
  {
    var items := s.inbounds[Find(s.inbounds, tag).value].clients;
    if k :| 0 <= k < |items| && Name(items[k]) == n {
      OnlyMember(items, k, n);
    }
    OnlyMembers(items, n);
    if Only(items, n) != [] {
      assert Only(items, n)[0] in items;
    }
  }

  /** A record without the credential of the removed connection. */
  function Detached(e: Entry, tag: string): Entry {
    Sync(Sync(e).(credentials := e.credentials - {tag}))
  }

  predicate Survives(s: State, n: string, tag: string) {
    n in s.clients && s.clients[n].credentials - {tag} != map[]
  }

  function ClientsLeft(s: State, users: set<string>, tag: string): map<string, Entry> {
    map n | n in s.clients && (n in users ==> Survives(s, n, tag)) ::
      if n in users then Detached(s.clients[n], tag) else Sync(s.clients[n])
  }

  function DbSecurity(s: State, tag: string): string
    requires Find(s.inbounds, tag).Some?
  {
    var recorded := if tag in s.connections then s.connections[tag].security else "";
    Or(recorded, Or(s.inbounds[Find(s.inbounds, tag).value].security, "reality"))
  }

  /** The check on ensured records that keeps the last VLESS and the last Reality connection. */
  function RemoveRefusal(s: State, tag: string): Option<Error>
    requires Find(s.inbounds, tag).Some?
  {
    var i := s.inbounds[Find(s.inbounds, tag).value];
    if i.protocol.Vless? && VlessCount(s.inbounds) <= 1 then Some(LastVless)
    else if i.protocol.Vless? && DbSecurity(s, tag) == "reality" && RealityCount(s.inbounds) <= 1 then Some(LastReality)
    else None
  }

  /** Both copies after the removal. */
  function ConnectionRemoved(s: State, tag: string): State
    requires Find(s.inbounds, tag).Some?
  {
    State(Keep(s.inbounds, tag), Ensured(s.inbounds, s.connections) - {tag}, ClientsLeft(s, UsersOf(s, tag), tag))
  }

  datatype Removal = Removal(tag: string, removed: set<string>, detached: set<string>)

  method RemoveConnection(config: Config, db: Db, identifier: string) returns (r: Result<Removal, Error>)
    modifies config, db
    ensures var s := old(View(config, db)).(connections := Ensured(old(config.inbounds), old(db.connections)));
            r.Err? <==>
              || ManagedTags(s.inbounds) == {}
              || Resolve(s.connections, identifier).Err?
              || Find(s.inbounds, Resolve(s.connections, identifier).value).None?
              || RemoveRefusal(s, Resolve(s.connections, identifier).value).Some?
    ensures var s := old(View(config, db)).(connections := Ensured(old(config.inbounds), old(db.connections)));
            if r.Err? then View(config, db) == s
            else
              var tag := r.value.tag;
              && Resolve(s.connections, identifier) == Ok(tag) && Find(s.inbounds, tag).Some?
              && RemoveRefusal(s, tag).None?
              && View(config, db) == ConnectionRemoved(old(View(config, db)), tag)
              && (forall n :: n in r.value.removed <==> n in UsersOf(s, tag) && !Survives(s, n, tag))
              && (forall n :: n in r.value.detached <==> n in UsersOf(s, tag) && Survives(s, n, tag))
  {
    ghost var start := View(config, db);
    var ok := EnsureConnections(config, db);
    if !ok {
      return Err(ConnectionNotFound);
    }
    var resolved := Resolve(db.connections, identifier);
    if resolved.Err? {
      return Err(resolved.error);
    }
    var tag := resolved.value;
    if Find(config.inbounds, tag).None? {
      return Err(ConnectionNotFound);
    }
    var s := View(config, db);
    var refusal := RemoveRefusal(s, tag);
    if refusal.Some? {
      return Err(refusal.value);
    }
    var users := UsersOf(s, tag);
    assert users == UsersOf(start, tag);
    config.inbounds := Keep(config.inbounds, tag);
    db.connections := db.connections - {tag};
    var removed, detached := DetachAll(db, users, tag);
    ClientsLeftFrame(start, s, users, tag);
    forall n ensures Survives(start, n, tag) == Survives(s, n, tag) {}
    r := Ok(Removal(tag, removed, detached));
  }

  lemma ClientsLeftFrame(s: State, s': State, users: set<string>, tag: string)
    requires s.clients == s'.clients
    ensures ClientsLeft(s, users, tag) == ClientsLeft(s', users, tag)
  {
    assert forall n :: Survives(s, n, tag) == Survives(s', n, tag);
  }

  /** The loop over the names: every record loses the credential, and a record without any is dropped. */
  method DetachAll(db: Db, users: set<string>, tag: string) returns (removed: set<string>, detached: set<string>)
    modifies db
    ensures db.connections == old(db.connections)
    ensures var s := old(State([], db.connections, db.clients));
            && db.clients == ClientsLeft(s, users, tag)
            && (forall n :: n in removed <==> n in users && !Survives(s, n, tag))
            && (forall n :: n in detached <==> n in users && Survives(s, n, tag))
  {
    ghost var s := State([], db.connections, db.clients);
    db.clients := map n | n in db.clients :: Sync(db.clients[n]);
    removed, detached := {}, {};
    var remaining := users;
    ghost var done: set<string> := {};
    assert db.clients == ClientsLeft(s, {}, tag);
    while remaining != {}
      invariant done !! remaining && done + remaining == users
      invariant db.connections == s.connections && db.clients == ClientsLeft(s, done, tag)
      invariant forall n :: n in removed <==> n in done && !Survives(s, n, tag)
      invariant forall n :: n in detached <==> n in done && Survives(s, n, tag)
      decreases remaining
    {
      var name :| name in remaining;
      DetachOne(s, done, tag, name);
      if name !in db.clients {
        removed := removed + {name};
      } else {
        var e := db.clients[name];
        var credentials := e.credentials - {tag};
        if credentials != map[] {
          db.clients := db.clients[name := Sync(e.(credentials := credentials))];
          detached := detached + {name};
        } else {
          db.clients := db.clients - {name};
          removed := removed + {name};
        }
      }
      remaining, done := remaining - {name}, done + {name};
    }
    assert done == users;
  }

  lemma DetachOne(s: State, done: set<string>, tag: string, name: string)
    requires name !in done
    ensures var before, after := ClientsLeft(s, done, tag), ClientsLeft(s, done + {name}, tag);
            && (name in before <==> name in s.clients)
            && (name in before ==> before[name] == Sync(s.clients[name])
                                   && before[name].credentials == s.clients[name].credentials)
            && after == if name !in s.clients then before
                        else if Survives(s, name, tag) then before[name := Detached(s.clients[name], tag)]
                        else before - {name}
  {}

  // ---- what the removal keeps ----

  lemma RemoveConnectionKeeps(s: State, tag: string)
    requires Consistent(s) && Find(s.inbounds, tag).Some?
    ensures Consistent(ConnectionRemoved(s, tag))
  {
    var s' := ConnectionRemoved(s, tag);
    KeepServes(s.inbounds, tag);
    forall n | n in s'.clients ensures EntryOk(s'.inbounds, n, s'.clients[n]) {
      RemovedEntryOk(s, tag, n);
    }
    forall n ensures MirrorOf(s', n) {
      RemovedMirror(s, tag, n);
    }
  }

  lemma UserHasCredential(s: State, tag: string, n: string)
    requires Consistent(s) && Find(s.inbounds, tag).Some? && n in s.clients
    ensures n in UsersOf(s, tag) <==> tag in s.clients[n].credentials
  {
    var items := s.inbounds[Find(s.inbounds, tag).value].clients;
    FindSpec(s.inbounds, tag);
    forall k | 0 <= k < |items| && Name(items[k]) == n ensures tag in s.clients[n].credentials {
      ActiveIsStored(s, Find(s.inbounds, tag).value, k);
    }
  }

  lemma RemovedEntryOk(s: State, tag: string, n: string)
    requires Consistent(s) && Find(s.inbounds, tag).Some? && n in ConnectionRemoved(s, tag).clients
    requires forall t | t != tag :: Served(Keep(s.inbounds, tag), t) == Served(s.inbounds, t)
    ensures EntryOk(Keep(s.inbounds, tag), n, ConnectionRemoved(s, tag).clients[n])
  {
    var e := s.clients[n];
    UserHasCredential(s, tag, n);
    assert EntryOk(s.inbounds, n, e);
    LeftShape(s, UsersOf(s, tag), tag, n);
    DetachedEntryOk(s.inbounds, Keep(s.inbounds, tag), n, e, ClientsLeft(s, UsersOf(s, tag), tag)[n], tag);
  }

  lemma LeftShape(s: State, users: set<string>, tag: string, n: string)
    requires n in s.clients && (n in users <==> tag in s.clients[n].credentials)
    requires s.clients[n].credentials != map[] && n in ClientsLeft(s, users, tag)
    ensures var e, e' := s.clients[n], ClientsLeft(s, users, tag)[n];
            Sync(e') == e' && e'.credentials == e.credentials - {tag} && e'.credentials != map[]
  {
    var e := s.clients[n];
    if n in users {
      SyncIdempotent(Sync(e).(credentials := e.credentials - {tag}));
    } else {
      SyncIdempotent(e);
      assert e.credentials - {tag} == e.credentials;
    }
  }

  lemma DetachedEntryOk(a: seq<Inbound>, b: seq<Inbound>, n: string, e: Entry, e': Entry, tag: string)
    requires EntryOk(a, n, e) && e'.credentials == e.credentials - {tag} && e'.credentials != map[] && Sync(e') == e'
    requires forall t | t != tag :: Served(b, t) == Served(a, t)
    ensures EntryOk(b, n, e')
  {
    forall t | t in e'.credentials ensures CredentialOk(b, n, t, e'.credentials[t]) {
      assert CredentialOk(a, n, t, e.credentials[t]);
      assert Served(b, t) == Served(a, t);
    }
  }

  lemma RemovedMirror(s: State, tag: string, n: string)
    requires Consistent(s) && Find(s.inbounds, tag).Some?
    requires forall t :: Served(Keep(s.inbounds, tag), t) == if t == tag then None else Served(s.inbounds, t)
    ensures MirrorOf(ConnectionRemoved(s, tag), n)
  {
    var s' := ConnectionRemoved(s, tag);
    assert MirrorOf(s, n);
    if n in s.clients {
      UserHasCredential(s, tag, n);
    }
    forall t ensures MirrorAt(s', n, t) {
      RemovedCredential(s, tag, n, t);
      assert MirrorAt(s, n, t);
      MirrorUnder(s, s', n, t, tag);
    }
  }

  /** The mirror under one tag depends on the credential and on who serves the tag. */
  lemma MirrorUnder(s: State, s': State, n: string, t: string, gone: string)
    requires MirrorAt(s, n, t)
    requires Served(s'.inbounds, t) == if t == gone then None else Served(s.inbounds, t)
    requires CredentialAt(s', n, t) == if t == gone then None else CredentialAt(s, n, t)
    ensures MirrorAt(s', n, t)
  {
    ServedItems(s.inbounds, t, n);
    ServedItems(s'.inbounds, t, n);
  }

  lemma ServedItems(inbounds: seq<Inbound>, t: string, n: string)
    ensures Items(inbounds, t, n) == if Served(inbounds, t).Some? then Only(Served(inbounds, t).value.1, n) else []
  {}

  lemma RemovedCredential(s: State, tag: string, n: string, t: string)
    requires Find(s.inbounds, tag).Some?
    requires n in s.clients ==> (n in UsersOf(s, tag) <==> tag in s.clients[n].credentials)
    ensures CredentialAt(ConnectionRemoved(s, tag), n, t) == if t == tag then None else CredentialAt(s, n, t)
  {
    if n in s.clients {
      var rest := s.clients[n].credentials - {tag};
      assert rest == map[] ==> t !in rest;
      assert t != tag && t in s.clients[n].credentials ==> t in rest;
    }
  }

  /** Which inbounds may go: one VLESS connection always stays. */
  lemma VlessStays(s: State, tag: string)
    requires DistinctTags(s.inbounds) && Find(s.inbounds, tag).Some?
    requires VlessCount(s.inbounds) >= 1 && RemoveRefusal(s, tag).None?
    ensures VlessCount(Keep(s.inbounds, tag)) >= 1
  {
    SoleServer(s.inbounds, tag);
    KeepVless(s.inbounds, tag);
  }

  lemma SoleServer(inbounds: seq<Inbound>, tag: string)
    requires DistinctTags(inbounds) && Find(inbounds, tag).Some?
    ensures forall i | i in inbounds && Managed(i) && Tag(i) == tag :: i == inbounds[Find(inbounds, tag).value]
  {
    forall k | 0 <= k < |inbounds| && Managed(inbounds[k]) && Tag(inbounds[k]) == tag
      ensures Find(inbounds, tag) == Some(k)
    {
      FindUnique(inbounds, k);
    }
  }

  /** The guard of the last Reality connection looks at the recorded security, which the TLS loop overwrites:
      a Reality connection survives every permitted removal exactly when the removed one is not the last
      Reality inbound under a TLS tag with the xhttp transport. */
  lemma RealityStays(s: State, tag: string)
    requires DistinctTags(s.inbounds) && Find(s.inbounds, tag).Some?
    requires RealityCount(s.inbounds) >= 1
    requires RemoveRefusal(s.(connections := Ensured(s.inbounds, s.connections)), tag).None?
    ensures var i := s.inbounds[Find(s.inbounds, tag).value];
            RealityCount(Keep(s.inbounds, tag)) >= 1 <==>
              !(Reality(i) && TlsXhttp(i) && RealityCount(s.inbounds) == 1)
  {
    var k := Find(s.inbounds, tag).value;
    FindSpec(s.inbounds, tag);
    SoleServer(s.inbounds, tag);
    KeepReality(s.inbounds, tag);
    EnsuredAt(s.inbounds, s.connections, tag);
    assert s.inbounds[k] in s.inbounds;
  }

  /** Where the manager's layout is in place, a removal is refused exactly when it would take the last VLESS connection
      or the last Reality connection away. */
  lemma RemovesIff(s: State, tag: string)
    requires DistinctTags(s.inbounds) && Find(s.inbounds, tag).Some? && RecordsFit(s) && Unmixed(s.inbounds)
    ensures var e, i := s.(connections := Ensured(s.inbounds, s.connections)), s.inbounds[Find(s.inbounds, tag).value];
            RemoveRefusal(e, tag).Some? <==>
              || (ManagedVless(i) && VlessCount(Keep(s.inbounds, tag)) == 0)
              || (Reality(i) && RealityCount(Keep(s.inbounds, tag)) == 0)
  {
    FindSpec(s.inbounds, tag);
    SoleServer(s.inbounds, tag);
    KeepVless(s.inbounds, tag);
    KeepReality(s.inbounds, tag);
    EnsuredTells(s, Find(s.inbounds, tag).value);
    assert s.inbounds[Find(s.inbounds, tag).value] in s.inbounds;
  }

  const MIXED := Inbound("vless-tls-2", Vless, "reality", "xhttp", "0.0.0.0", 443, [])
  const PLAIN_TLS := Inbound("vless-tls", Vless, "none", "xhttp", "127.0.0.1", 10000, [])

  lemma MixedFacts()
    ensures Reality(MIXED) && TlsXhttp(MIXED) && TlsXhttp(PLAIN_TLS) && !Reality(PLAIN_TLS)
    ensures VlessCount([MIXED, PLAIN_TLS]) == 2 && RealityCount([MIXED, PLAIN_TLS]) == 1
    ensures DistinctTags([MIXED, PLAIN_TLS])
  {
    assert "vless-tls-2"[..9] == "vless-tls";
    assert [MIXED] + [PLAIN_TLS] == [MIXED, PLAIN_TLS] && [] + [MIXED] == [MIXED];
    CountsAppend([], MIXED);
    CountsAppend([MIXED], PLAIN_TLS);
  }

  /** Two inbounds from which the last Reality connection can be removed. */
  lemma LastRealityCanGo()
    ensures var s := State([MIXED, PLAIN_TLS], map[], map[]);
            && Find(s.inbounds, MIXED.tag).Some? && RealityCount(s.inbounds) == 1
            && RemoveRefusal(s.(connections := Ensured(s.inbounds, s.connections)), MIXED.tag).None?
            && RealityCount(Keep(s.inbounds, MIXED.tag)) == 0
  {
    var inbounds := [MIXED, PLAIN_TLS];
    MixedFacts();
    FindUnique(inbounds, 0);
    EnsuredAt(inbounds, map[], MIXED.tag);
    assert MIXED in inbounds;
    KeepReality(inbounds, MIXED.tag);
  }

  lemma RemoveConnectionLayout(s: State, tag: string)
    requires DistinctTags(s.inbounds) && Find(s.inbounds, tag).Some? && Layout(s.inbounds)
    requires RemoveRefusal(s.(connections := Ensured(s.inbounds, s.connections)), tag).None?
    ensures Layout(Keep(s.inbounds, tag))
  {
    var e := s.(connections := Ensured(s.inbounds, s.connections));
    VlessStays(e, tag);
    RealityStays(s, tag);
    KeepPorts(s.inbounds, tag);
    KeepMembers(s.inbounds, tag);
    forall k | 0 <= k < |Keep(s.inbounds, tag)|
      ensures !(Reality(Keep(s.inbounds, tag)[k]) && TlsXhttp(Keep(s.inbounds, tag)[k]))
    {
      assert Keep(s.inbounds, tag)[k] in s.inbounds;
    }
  }
}
