/** The optimistic store behind `manager.db`: snapshots, conflict checks, union-style saves, explicit deletions. */
module Store {
  import opened Wrappers
  import opened Text
  import opened ClientState

  datatype Route = Route(payload: string)

  /** The rows as they are stored; a client row's legacy fields may be out of sync until it is read. */
  datatype Tables = Tables(connections: map<string, Connection>, routes: map<string, Route>, clients: map<string, Entry>)

  datatype Failure = Conflict | NoSuchClient | TagRequired

  /** `load_db_from_sqlite`: every client is normalized as it is read. */
  function Loaded(t: Tables): Tables {
    t.(clients := map n | n in t.clients :: Sync(t.clients[n]))
  }

  lemma LoadedAt(t: Tables, n: string)
    ensures At(Loaded(t).clients, n) == if n in t.clients then Some(Sync(t.clients[n])) else None
  {}

  /** `upsert_client`: the fields are overwritten, the credentials are united. */
  function UpsertedRow(stored: Option<Entry>, e: Entry): Entry {
    e.(credentials := (if stored.Some? then stored.value.credentials else map[]) + e.credentials)
  }

  /** `save_client` normalizes the entry first. */
  function SavedEntry(stored: Option<Entry>, e: Entry): Entry {
    UpsertedRow(stored, Sync(e))
  }

  /** Connections and routes are read as they are stored and overwritten as a whole. */
  function Plain<V>(v: V): V {
    v
  }

  function SavedPlain<V>(stored: Option<V>, v: V): V {
    v
  }

  // ---- writing the changed records ----

  /** A record differs from what was loaded; in a plain dict every record counts as changed. */
  predicate ChangedAt<V(==)>(records: map<string, V>, before: Option<map<string, V>>, k: string) {
    k in records && (before.Some? ==> At(before.value, k) != Some(records[k]))
  }

  /** The stored value is no longer the loaded one. */
  predicate ClashAt<V(==)>(stored: map<string, V>, read: V -> V, records: map<string, V>, before: Option<map<string, V>>,
                           k: string)
  {
    && before.Some? && ChangedAt(records, before, k)
    && At(before.value, k) != (if k in stored then Some(read(stored[k])) else None)
  }

  ghost predicate SectionClash<V>(stored: map<string, V>, read: V -> V, records: map<string, V>,
                                  before: Option<map<string, V>>)
  {
    exists k :: ClashAt(stored, read, records, before, k)
  }

  function Written<V(==)>(stored: map<string, V>, save: (Option<V>, V) -> V, records: map<string, V>,
                          before: Option<map<string, V>>): map<string, V>
  {
    map k | k in stored.Keys + records.Keys && (k in stored || ChangedAt(records, before, k)) ::
      if ChangedAt(records, before, k) then save(At(stored, k), records[k]) else stored[k]
  }

  /** The loop over one section: unchanged records are skipped, a stale one stops the save. */
  method WriteSection<V(==)>(stored: map<string, V>, read: V -> V, save: (Option<V>, V) -> V, records: map<string, V>,
                             before: Option<map<string, V>>) returns (ok: bool, result: map<string, V>)
    ensures ok <==> !SectionClash(stored, read, records, before)
    ensures ok ==> result == Written(stored, save, records, before)
  {
    result := stored;
    var remaining := records.Keys;
    ghost var done: set<string> := {};
    while remaining != {}
      invariant done !! remaining && done + remaining == records.Keys
      invariant forall k | k in done :: !ClashAt(stored, read, records, before, k)
      invariant forall k :: At(result, k) ==
                  if k in done && ChangedAt(records, before, k) then Some(save(At(stored, k), records[k])) else At(stored, k)
      decreases remaining
    {
      var k :| k in remaining;
      assert At(result, k) == At(stored, k);
      if ChangedAt(records, before, k) {
        if before.Some? && At(before.value, k) != (if k in result then Some(read(result[k])) else None) {
          assert ClashAt(stored, read, records, before, k);
          return false, stored;
        }
        result := result[k := save(At(result, k), records[k])];
      }
      remaining, done := remaining - {k}, done + {k};
    }
    assert done == records.Keys;
    var written := Written(stored, save, records, before);
    forall k ensures (k in result <==> k in written) && (k in result ==> result[k] == written[k]) {
      assert At(result, k) == At(written, k);
    }
    ok := true;
  }

  // ---- deletions ----

  datatype Deletions = Deletions(clients: set<string>, credentials: set<(string, string)>, connections: set<string>,
                                 routes: set<string>)

  function TagsFor(credentials: set<(string, string)>, n: string): set<string> {
    set p | p in credentials && p.0 == n :: p.1
  }

  /** A client row after `delete_credential` removed the given tags. */
  function Stripped(e: Entry, tags: set<string>): Entry {
    if e.credentials.Keys !! tags then e else Sync(Sync(e).(credentials := e.credentials - tags))
  }

  /** `delete_credential` refuses to remove the last one. */
  predicate LeavesSome(e: Entry, tags: set<string>) {
    e.credentials != map[] ==> e.credentials - tags != map[]
  }

  /** Foreign keys: a deleted connection takes its credentials along and clears the clients that name it. */
  function Cascaded(e: Entry, tags: set<string>): Entry {
    e.(credentials := e.credentials - tags, connection := if e.connection in tags then "" else e.connection)
  }

  predicate Deletable(t: Tables, d: Deletions) {
    forall n | n in t.clients :: LeavesSome(t.clients[n], TagsFor(d.credentials, n))
  }

  /** The store after all deletions, in whatever order each kind is carried out. */
  function AfterDeletions(t: Tables, d: Deletions): Tables {
    Tables(t.connections - d.connections, t.routes - d.routes,
           map n | n in t.clients && n !in d.clients ::
             Cascaded(Stripped(t.clients[n], TagsFor(d.credentials, n)), d.connections * t.connections.Keys))
  }

  /** Foreign keys: credentials and clients refer to stored connections only. */
  predicate References(t: Tables) {
    forall n | n in t.clients ::
      && t.clients[n].credentials.Keys <= t.connections.Keys
      && (t.clients[n].connection != "" ==> t.clients[n].connection in t.connections)
  }

  /** Deletions leave no reference to what is gone. */
  lemma DeletionsKeepReferences(t: Tables, d: Deletions)
    requires References(t)
    ensures References(AfterDeletions(t, d))
  {
    var gone, after := d.connections * t.connections.Keys, AfterDeletions(t, d);
    forall n | n in after.clients
      ensures after.clients[n].credentials.Keys <= after.connections.Keys
      ensures after.clients[n].connection != "" ==> after.clients[n].connection in after.connections
    {
      StrippedRefers(t.clients[n], TagsFor(d.credentials, n), t.connections.Keys);
    }
  }

  lemma StrippedRefers(e: Entry, tags: set<string>, known: set<string>)
    requires e.credentials.Keys <= known && (e.connection != "" ==> e.connection in known)
    ensures Stripped(e, tags).credentials.Keys <= known
    ensures Stripped(e, tags).connection != "" ==> Stripped(e, tags).connection in known
  {}

  lemma LeastOfLess(tags: set<string>, fewer: set<string>)
    requires fewer != {} && fewer <= tags && Least(tags) in fewer
    ensures Least(fewer) == Least(tags)
  {
    LeAntisymmetric(Least(fewer), Least(tags));
  }

  /** Deleting credentials one by one comes to the same as deleting them together. */
  lemma StrippedOnce(e: Entry, tags: set<string>, tag: string)
    requires tag in e.credentials && tag !in tags && e.credentials - tags - {tag} != map[]
    ensures Sync(Sync(Stripped(e, tags)).(credentials := Stripped(e, tags).credentials - {tag})) == Stripped(e, tags + {tag})
  {
    var rest := e.credentials - tags - {tag};
    assert rest == e.credentials - (tags + {tag});
    if e.credentials.Keys !! tags {
      assert e.credentials - tags == e.credentials;
    } else {
      var some := e.credentials - tags;
      assert some != map[] by {
        var k :| k in rest;
        assert k in some;
      }
      StripTwice(Sync(e).(credentials := some), rest);
      StripFields(Sync(e), some, rest);
    }
  }

  /** Synchronising after a first removal does not change what a second removal leads to. */
  lemma StripTwice(e: Entry, rest: map<string, Credential>)
    requires rest != map[] && rest.Keys <= e.credentials.Keys && forall t | t in rest :: rest[t] == e.credentials[t]
    ensures Sync(Sync(e).(credentials := rest)) == Sync(e.(credentials := rest))
  {
    var k :| k in rest;
    assert k in rest.Keys && k in e.credentials;
    var tag := PrimaryTag(e.connection, e.credentials);
    if e.connection !in e.credentials && tag in rest {
      LeastOfLess(e.credentials.Keys, rest.Keys);
    }
  }

  lemma StripFields(e: Entry, some: map<string, Credential>, rest: map<string, Credential>)
    ensures e.(credentials := some).(credentials := rest) == e.(credentials := rest)
    ensures Sync(Sync(e.(credentials := some))) == Sync(e.(credentials := some))
  {
    SyncIdempotent(e.(credentials := some));
  }

  /** The tables, updated in place by one connection to the database. */
  class Database {
    var tables: Tables

    constructor (tables: Tables)
      ensures this.tables == tables
    {
      this.tables := tables;
    }

    /** Whether a credential was deleted; refuses to delete the last one. */
    method DeleteCredential(name: string, tag: string) returns (r: Result<bool, Failure>)
      modifies this
      ensures match CredentialDeleted(old(tables), name, tag)
              case None => r == Err(Conflict) && tables == old(tables)
              case Some(t) => tables == t && r == Ok(name in old(tables.clients) && tag in old(tables.clients)[name].credentials)
    {
      if name !in tables.clients || tag !in tables.clients[name].credentials {
        return Ok(false);
      }
      var e := Sync(tables.clients[name]);
      var rest := e.credentials - {tag};
      if rest == map[] {
        return Err(Conflict);
      }
      tables := tables.(clients := tables.clients[name := Sync(e.(credentials := rest))]);
      r := Ok(true);
    }

    /** Stores one credential and brings the legacy fields up to date. */
    method SaveCredential(name: string, tag: string, c: Credential) returns (failure: Option<Failure>)
      modifies this
      ensures failure == if tag == "" then Some(TagRequired) else if name !in old(tables.clients) then Some(NoSuchClient) else None
      ensures failure.Some? ==> tables == old(tables)
      ensures failure.None? ==>
                var e := old(tables.clients)[name];
                tables == old(tables).(clients := old(tables.clients)[name :=
                            Sync(Sync(e).(credentials := e.credentials[tag := c]))])
    {
      if tag == "" {
        return Some(TagRequired);
      }
      if name !in tables.clients {
        return Some(NoSuchClient);
      }
      var stored := tables.clients[name];
      var e := Sync(stored);
      e := Sync(e.(credentials := e.credentials[tag := c]));
      assert stored.credentials + map[tag := c] == stored.credentials[tag := c];
      tables := tables.(clients := tables.clients[name := UpsertedRow(Some(stored), e.(credentials := map[tag := c]))]);
      failure := None;
    }

    method DeleteConnection(tag: string)
      modifies this
      ensures tables == ConnectionDeleted(old(tables), tag)
    {
      if tag in tables.connections {
        tables := Tables(tables.connections - {tag}, tables.routes,
                         map n | n in tables.clients :: Cascaded(tables.clients[n], {tag}));
      }
    }

    /** `Deletions.apply`. */
    method ApplyDeletions(d: Deletions) returns (ok: bool)
      modifies this
      ensures ok <==> Deletable(old(tables), d)
      ensures ok ==> tables == AfterDeletions(old(tables), d)
    {
      ghost var t := tables;
      ok := DeleteCredentials(d.credentials);
      if !ok {
        return;
      }
      tables := tables.(clients := tables.clients - d.clients);
      ghost var t1 := tables;
      DeleteConnections(d.connections);
      tables := tables.(routes := tables.routes - d.routes);
    }

    method DeleteCredentials(credentials: set<(string, string)>) returns (ok: bool)
      modifies this
      ensures ok <==> forall n | n in old(tables.clients) :: LeavesSome(old(tables.clients)[n], TagsFor(credentials, n))
      ensures ok ==> tables == AllStripped(old(tables), credentials)
    {
      ghost var t := tables;
      var remaining := credentials;
      ghost var done: set<(string, string)> := {};
      assert t == AllStripped(t, {});
      while remaining != {}
        invariant done !! remaining && done + remaining == credentials
        invariant tables == AllStripped(t, done)
        invariant forall n | n in t.clients :: LeavesSome(t.clients[n], TagsFor(done, n))
        decreases remaining
      {
        var p :| p in remaining;
        DeleteStep(t, done, credentials, p);
        var r := DeleteCredential(p.0, p.1);
        if r.Err? {
          return false;
        }
        remaining, done := remaining - {p}, done + {p};
      }
      assert done == credentials;
      ok := true;
    }

    method DeleteConnections(tags: set<string>)
      modifies this
      ensures tables == ConnectionsDeleted(old(tables), tags)
    {
      ghost var t := tables;
      var remaining := tags;
      ghost var done: set<string> := {};
      ConnectionsDeletedNone(t);
      while remaining != {}
        invariant done !! remaining && done + remaining == tags
        invariant tables == ConnectionsDeleted(t, done)
        decreases remaining
      {
        var tag :| tag in remaining;
        DeleteConnection(tag);
        ConnectionsDeletedNext(t, done, tag);
        remaining, done := remaining - {tag}, done + {tag};
      }
      assert done == tags;
    }
  }

  function ConnectionDeleted(t: Tables, tag: string): Tables {
    if tag in t.connections
    then Tables(t.connections - {tag}, t.routes, map n | n in t.clients :: Cascaded(t.clients[n], {tag}))
    else t
  }

  function ConnectionsDeleted(t: Tables, tags: set<string>): Tables {
    Tables(t.connections - tags, t.routes, map n | n in t.clients :: Cascaded(t.clients[n], tags * t.connections.Keys))
  }

  lemma ConnectionsDeletedNone(t: Tables)
    ensures ConnectionsDeleted(t, {}) == t
  {
    assert t.connections - {} == t.connections;
    forall n | n in t.clients ensures Cascaded(t.clients[n], {} * t.connections.Keys) == t.clients[n] {
      assert t.clients[n].credentials - {} == t.clients[n].credentials;
    }
  }

  lemma CascadedTwice(e: Entry, a: set<string>, b: set<string>)
    ensures Cascaded(Cascaded(e, a), b) == Cascaded(e, a + b)
  {
    assert e.credentials - a - b == e.credentials - (a + b);
  }

  lemma ConnectionsDeletedNext(t: Tables, done: set<string>, tag: string)
    requires tag !in done
    ensures ConnectionDeleted(ConnectionsDeleted(t, done), tag) == ConnectionsDeleted(t, done + {tag})
  {
    var a, b := done * t.connections.Keys, (done + {tag}) * t.connections.Keys;
    assert t.connections - done - {tag} == t.connections - (done + {tag});
    if tag in t.connections {
      assert b == a + {tag};
      forall n | n in t.clients ensures Cascaded(Cascaded(t.clients[n], a), {tag}) == Cascaded(t.clients[n], b) {
        CascadedTwice(t.clients[n], a, {tag});
      }
    } else {
      assert b == a && t.connections - (done + {tag}) == t.connections - done;
    }
  }

  /** `delete_credential` on the tables; None when it refuses. */
  function CredentialDeleted(t: Tables, name: string, tag: string): Option<Tables> {
    if name !in t.clients || tag !in t.clients[name].credentials then Some(t)
    else if t.clients[name].credentials - {tag} == map[] then None
    else Some(t.(clients := t.clients[name := Stripped(t.clients[name], {tag})]))
  }

  lemma TagsForNext(done: set<(string, string)>, p: (string, string), n: string)
    ensures TagsFor(done + {p}, n) == if n == p.0 then TagsFor(done, n) + {p.1} else TagsFor(done, n)
  {
    assert forall q | q in done + {p} :: q in done || q == p;
    if n == p.0 {
      assert p in done + {p};
    }
    forall t | t in TagsFor(done, n) ensures t in TagsFor(done + {p}, n) {
      var q :| q in done && q.0 == n && q.1 == t;
      assert q in done + {p};
    }
  }

  lemma TagsForMonotone(some: set<(string, string)>, all: set<(string, string)>, n: string)
    requires some <= all
    ensures TagsFor(some, n) <= TagsFor(all, n)
  {
    forall t | t in TagsFor(some, n) ensures t in TagsFor(all, n) {
      var q :| q in some && q.0 == n && q.1 == t;
      assert q in all;
    }
  }

  /** One more credential off a row from which `tags` are already gone. */
  lemma StripStep(e: Entry, tags: set<string>, tag: string)
    requires tag !in tags
    ensures var s := Stripped(e, tags);
            && s.credentials == e.credentials - tags
            && if tag !in s.credentials then Stripped(e, tags + {tag}) == s && e.credentials - (tags + {tag}) == e.credentials - tags
               else s.credentials - {tag} == e.credentials - (tags + {tag})
                    && (s.credentials - {tag} != map[] ==> Stripped(s, {tag}) == Stripped(e, tags + {tag}))
  {
    var s := Stripped(e, tags);
    assert e.credentials.Keys !! tags ==> e.credentials - tags == e.credentials;
    if tag !in s.credentials {
      assert e.credentials - (tags + {tag}) == e.credentials - tags;
    } else {
      assert s.credentials - {tag} == e.credentials - (tags + {tag});
      if s.credentials - {tag} != map[] {
        StrippedOnce(e, tags, tag);
      }
    }
  }

  lemma DeleteStep(t: Tables, done: set<(string, string)>, credentials: set<(string, string)>, p: (string, string))
    requires p !in done && done + {p} <= credentials
    requires forall n | n in t.clients :: LeavesSome(t.clients[n], TagsFor(done, n))
    ensures match CredentialDeleted(AllStripped(t, done), p.0, p.1)
            case None => p.0 in t.clients && !LeavesSome(t.clients[p.0], TagsFor(credentials, p.0))
            case Some(t') => t' == AllStripped(t, done + {p})
                             && forall n | n in t.clients :: LeavesSome(t.clients[n], TagsFor(done + {p}, n))
  {
    forall n ensures TagsFor(done + {p}, n) == if n == p.0 then TagsFor(done, n) + {p.1} else TagsFor(done, n) {
      TagsForNext(done, p, n);
    }
    if p.0 !in t.clients {
      AllStrippedSame(t, done, done + {p});
    } else {
      var e, tags := t.clients[p.0], TagsFor(done, p.0);
      assert p.1 !in tags;
      StripStep(e, tags, p.1);
      if p.1 !in Stripped(e, tags).credentials {
        AllStrippedSame(t, done, done + {p});
      } else if Stripped(e, tags).credentials - {p.1} != map[] {
        AllStrippedNext(t, done, p);
      } else {
        TagsForMonotone(done + {p}, credentials, p.0);
        LeavesNone(e, tags + {p.1}, TagsFor(credentials, p.0));
      }
    }
  }

  lemma LeavesNone(e: Entry, tags: set<string>, more: set<string>)
    requires e.credentials != map[] && tags <= more && e.credentials - tags == map[]
    ensures !LeavesSome(e, more)
  {
    forall k | k in e.credentials ensures k in more {
      assert k !in e.credentials - tags;
    }
  }

  lemma AllStrippedSame(t: Tables, done: set<(string, string)>, more: set<(string, string)>)
    requires forall n | n in t.clients :: Stripped(t.clients[n], TagsFor(more, n)) == Stripped(t.clients[n], TagsFor(done, n))
    ensures AllStripped(t, more) == AllStripped(t, done)
  {}

  lemma AllStrippedNext(t: Tables, done: set<(string, string)>, p: (string, string))
    requires p.0 in t.clients
    requires forall n | n != p.0 :: TagsFor(done + {p}, n) == TagsFor(done, n)
    requires Stripped(Stripped(t.clients[p.0], TagsFor(done, p.0)), {p.1}) == Stripped(t.clients[p.0], TagsFor(done + {p}, p.0))
    ensures var before := AllStripped(t, done);
            before.(clients := before.clients[p.0 := Stripped(before.clients[p.0], {p.1})]) == AllStripped(t, done + {p})
  {}

  function AllStripped(t: Tables, credentials: set<(string, string)>): Tables {
    t.(clients := map n | n in t.clients :: Stripped(t.clients[n], TagsFor(credentials, n)))
  }
}
