/** What `remove-connection` and `move-connection` leave in the store is what they made in memory. */
module Persistence {
  import opened Wrappers
  import opened Text
  import opened ClientState
  import opened Switching
  import opened Connections
  import opened Removal
  import Lifecycle
  import opened Store
  import opened Snapshots

  /** The database half of a state, with the routes that these commands do not touch. */
  function TablesOf(s: State, routes: map<string, Route>): Tables {
    Tables(s.connections, routes, s.clients)
  }

  /** The store holds the state: reading it gives the database half. */
  ghost predicate Holds(t: Tables, s: State) {
    Loaded(t) == TablesOf(s, t.routes)
  }

  /** The snapshot `s`, changed to `s'` in memory and saved with these deletions, leaves `s'` in the store. */
  ghost predicate StoredAs(t: Tables, s: State, s': State, deletions: Option<Deletions>) {
    var db, original := TablesOf(s', t.routes), Some(TablesOf(s, t.routes));
    SaveOk(t, db, original, deletions) && Holds(Saved(t, db, original, deletions), s')
  }

  lemma HeldRow(t: Tables, s: State, n: string)
    requires Holds(t, s)
    ensures n in t.clients <==> n in s.clients
    ensures n in s.clients ==> Sync(t.clients[n]) == s.clients[n] && t.clients[n].credentials == s.clients[n].credentials
  {
    LoadedAt(t, n);
    assert At(Loaded(t).clients, n) == At(s.clients, n);
  }

  /** The row of a client after the changed records were upserted. */
  function WrittenRow(t: Tables, s: State, s': State, n: string): Option<Entry> {
    if ChangedAt(s'.clients, Some(s.clients), n) then Some(SavedEntry(At(t.clients, n), s'.clients[n])) else At(t.clients, n)
  }

  /** What is left of the row after the deletions is read as the client in memory. */
  ghost predicate RowAgrees(t: Tables, s: State, s': State, d: Deletions, n: string) {
    var row, tags := WrittenRow(t, s, s', n), TagsFor(d.credentials, n);
    if row.None? || n in d.clients then n !in s'.clients && (row.Some? ==> LeavesSome(row.value, tags))
    else
      && n in s'.clients && LeavesSome(row.value, tags)
      && forall some | some <= d.connections :: Sync(Cascaded(Stripped(row.value, tags), some)) == s'.clients[n]
  }

  /** Two readings agree when they agree on every client. */
  lemma ReadsAs(t: Tables, clients: map<string, Entry>)
    requires forall n :: (match At(t.clients, n) case None => None case Some(row) => Some(Sync(row))) == At(clients, n)
    ensures Loaded(t).clients == clients
  {
    forall n ensures At(Loaded(t).clients, n) == At(clients, n) {
      LoadedAt(t, n);
    }
    AtExtensional(Loaded(t).clients, clients);
  }

  /** Memory, saved with these deletions, is what is read back, if that holds client by client. */
  lemma RowsAgree(t: Tables, s: State, s': State, d: Deletions)
    requires Holds(t, s) && forall n :: RowAgrees(t, s, s', d, n)
    requires d.routes == {} && s'.connections.Keys !! d.connections
    requires s.connections.Keys - d.connections <= s'.connections.Keys
    ensures StoredAs(t, s, s', Some(d))
  {
    var db, original := TablesOf(s', t.routes), TablesOf(s, t.routes);
    var written := AllWritten(t, db, Some(original));
    forall n ensures At(written.clients, n) == WrittenRow(t, s, s', n) {
      WrittenAt(t.clients, SavedEntry, s'.clients, Some(s.clients), n);
    }
    NoLostUpdate(t, db, original);
    RowsDeletable(t, s, s', d, written);
    RowsRead(t, s, s', d, written);
    forall k ensures At(written.connections - d.connections, k) == At(s'.connections, k) {
      WrittenAt(t.connections, SavedPlain, s'.connections, Some(s.connections), k);
    }
    AtExtensional(written.connections - d.connections, s'.connections);
    forall k ensures At(written.routes - d.routes, k) == At(t.routes, k) {
      WrittenAt(t.routes, SavedPlain, t.routes, Some(t.routes), k);
    }
    AtExtensional(written.routes - d.routes, t.routes);
  }

  lemma RowsDeletable(t: Tables, s: State, s': State, d: Deletions, written: Tables)
    requires forall n :: RowAgrees(t, s, s', d, n)
    requires forall n :: At(written.clients, n) == WrittenRow(t, s, s', n)
    ensures Deletable(written, d)
  {
    forall n | n in written.clients ensures LeavesSome(written.clients[n], TagsFor(d.credentials, n)) {
      assert RowAgrees(t, s, s', d, n);
      assert At(written.clients, n) == Some(written.clients[n]);
    }
  }

  lemma RowsRead(t: Tables, s: State, s': State, d: Deletions, written: Tables)
    requires forall n :: RowAgrees(t, s, s', d, n)
    requires forall n :: At(written.clients, n) == WrittenRow(t, s, s', n)
    ensures Loaded(AfterDeletions(written, d)).clients == s'.clients
  {
    var after := AfterDeletions(written, d);
    forall n ensures (match At(after.clients, n) case None => None case Some(row) => Some(Sync(row))) == At(s'.clients, n) {
      assert RowAgrees(t, s, s', d, n);
      assert At(written.clients, n) == WrittenRow(t, s, s', n);
    }
    ReadsAs(after, s'.clients);
  }

  // ---- remove-connection ----

  /** The deletions that the command derives from the result of the removal. */
  function RemovalDeletions(users: set<string>, s: State, tag: string): Deletions {
    Deletions(set n | n in users && !Survives(s, n, tag), set n | n in users && Survives(s, n, tag) :: (n, tag), {tag}, {})
  }

  lemma RemovalTags(users: set<string>, s: State, tag: string, n: string)
    ensures TagsFor(RemovalDeletions(users, s, tag).credentials, n) == if n in users && Survives(s, n, tag) then {tag} else {}
  {
    var credentials := RemovalDeletions(users, s, tag).credentials;
    if n in users && Survives(s, n, tag) {
      assert (n, tag) in credentials;
    }
  }

  /** A detached client: the union-style save brings the credential back, the explicit deletion takes it out again. */
  lemma DetachedRow(raw: Entry, e: Entry, tag: string)
    requires Sync(raw) == e && raw.credentials == e.credentials && tag in e.credentials
    requires e.credentials - {tag} != map[]
    ensures var rec := Detached(e, tag);
            var row := SavedEntry(Some(raw), rec);
            && rec != e && LeavesSome(row, {tag})
            && (forall some | some <= {tag} :: Sync(Cascaded(Stripped(row, {tag}), some)) == rec)
  {
    var rest := e.credentials - {tag};
    var rec := Detached(e, tag);
    SyncIdempotent(Sync(e).(credentials := rest));
    assert raw.credentials + rest == e.credentials;
    StripRestores(rec, e.credentials, tag);
    forall some | some <= {tag} ensures Sync(Cascaded(rec, some)) == rec {
      assert rec.credentials - some == rec.credentials;
      assert rec.connection in rest;
    }
  }

  /** A client without the removed credential: its row is not even written. */
  lemma StayingRow(raw: Entry, tag: string)
    requires "" !in raw.credentials && tag !in raw.credentials && raw.credentials != map[]
    ensures LeavesSome(raw, {})
    ensures forall some | some <= {tag} :: Sync(Cascaded(Stripped(raw, {}), some)) == Sync(raw)
  {
    assert raw.credentials - {} == raw.credentials;
    forall some | some <= {tag} ensures Sync(Cascaded(raw, some)) == Sync(raw) {
      CascadeReads(raw, some);
    }
  }

  lemma NoEmptyTag(s: State, n: string)
    requires WellFormed(s) && n in s.clients
    ensures "" !in s.clients[n].credentials
  {
    assert EntryOk(s.inbounds, n, s.clients[n]);
    if "" in s.clients[n].credentials {
      assert CredentialOk(s.inbounds, n, "", s.clients[n].credentials[""]);
      FindSpec(s.inbounds, "");
    }
  }

  lemma RemovedRow(t: Tables, s: State, s': State, users: set<string>, tag: string, n: string)
    requires Holds(t, s) && s'.clients == ClientsLeft(s, users, tag)
    requires n in s.clients ==>
               var e := s.clients[n];
               (n in users <==> tag in e.credentials) && e.credentials != map[] && Sync(e) == e && "" !in e.credentials
    ensures RowAgrees(t, s, s', RemovalDeletions(users, s, tag), n)
  {
    HeldRow(t, s, n);
    RemovalTags(users, s, tag, n);
    if n in s.clients {
      if n !in users {
        StayingRow(t.clients[n], tag);
      } else if Survives(s, n, tag) {
        DetachedRow(t.clients[n], s.clients[n], tag);
      } else {
        assert t.clients[n].credentials - {} == t.clients[n].credentials;
      }
    }
  }

  lemma EnsuredKeeps(inbounds: seq<Inbound>, connections: map<string, Connection>)
    requires DistinctTags(inbounds)
    ensures connections.Keys <= Ensured(inbounds, connections).Keys
  {
    forall k | k in connections ensures k in Ensured(inbounds, connections) {
      EnsuredAt(inbounds, connections, k);
      FindSpec(inbounds, k);
      assert At(Ensured(inbounds, connections), k).Some?;
    }
  }

  /** `remove-connection`: the changed records and the explicit deletions together leave exactly the state in memory. */
  lemma RemovalIsStored(t: Tables, s: State, tag: string)
    requires Consistent(s) && Find(s.inbounds, tag).Some? && Holds(t, s)
    ensures StoredAs(t, s, ConnectionRemoved(s, tag), Some(RemovalDeletions(UsersOf(s, tag), s, tag)))
  {
    var s', users := ConnectionRemoved(s, tag), UsersOf(s, tag);
    forall n ensures RowAgrees(t, s, s', RemovalDeletions(users, s, tag), n) {
      if n in s.clients {
        UserHasCredential(s, tag, n);
        NoEmptyTag(s, n);
        assert EntryOk(s.inbounds, n, s.clients[n]);
      }
      RemovedRow(t, s, s', users, tag, n);
    }
    EnsuredKeeps(s.inbounds, s.connections);
    RowsAgree(t, s, s', RemovalDeletions(users, s, tag));
  }

  /** Without the explicit deletions a detached client would still have the credential afterwards. */
  lemma DeletionsAreNeeded(t: Tables, s: State, tag: string, n: string)
    requires Consistent(s) && Find(s.inbounds, tag).Some? && Holds(t, s)
    requires Enabled(s, n, tag) && Survives(s, n, tag)
    ensures var db, original := TablesOf(ConnectionRemoved(s, tag), t.routes), Some(TablesOf(s, t.routes));
            tag in Loaded(Saved(t, db, original, None)).clients[n].credentials
  {
    var s' := ConnectionRemoved(s, tag);
    HeldRow(t, s, n);
    UserHasCredential(s, tag, n);
    WrittenAt(t.clients, SavedEntry, s'.clients, Some(s.clients), n);
  }

  // ---- move-connection ----

  function MoveDeletions(name: string, source: string): Deletions {
    Deletions({}, {(name, source)}, {}, {})
  }

  lemma MoveTags(name: string, source: string, n: string)
    ensures TagsFor(MoveDeletions(name, source).credentials, n) == if n == name then {source} else {}
  {
    if n == name {
      assert (name, source) in MoveDeletions(name, source).credentials;
    }
  }

  /** The moved client: old and new credential are united, and the old one is deleted. */
  lemma MovedRow(raw: Entry, e: Entry, rec: Entry, source: string, target: string)
    requires raw.credentials == e.credentials && e.credentials.Keys == {source} && source != target
    requires rec.credentials.Keys == {target} && Sync(rec) == rec
    ensures var row := SavedEntry(Some(raw), rec);
            rec != e && LeavesSome(row, {source}) && Sync(Cascaded(Stripped(row, {source}), {})) == rec
  {
    var more := raw.credentials + rec.credentials;
    assert more - {source} == rec.credentials;
    assert target in rec.credentials;
    StripRestores(rec, more, source);
    assert rec.credentials - {} == rec.credentials;
  }

  lemma UntouchedRow(raw: Entry)
    ensures LeavesSome(raw, {}) && Sync(Cascaded(Stripped(raw, {}), {})) == Sync(raw)
  {
    assert raw.credentials - {} == raw.credentials;
  }

  /** Everybody else's row is neither written nor changed. */
  lemma OtherRow(t: Tables, s: State, s': State, name: string, source: string, n: string)
    requires Holds(t, s) && n != name && Record(s', n) == Record(s, n)
    ensures RowAgrees(t, s, s', MoveDeletions(name, source), n)
  {
    HeldRow(t, s, n);
    MoveTags(name, source, n);
    if n in s.clients {
      UntouchedRow(t.clients[n]);
      assert forall some: set<string> | some <= MoveDeletions(name, source).connections :: some == {};
    }
  }

  lemma MoveRow(t: Tables, s: State, s': State, name: string, source: string, target: string, n: string)
    requires Holds(t, s) && name in s.clients && name in s'.clients && s'.clients == s.clients[name := s'.clients[name]]
    requires s.clients[name].credentials.Keys == {source} && s'.clients[name].credentials.Keys == {target} && source != target
    requires Sync(s'.clients[name]) == s'.clients[name]
    ensures RowAgrees(t, s, s', MoveDeletions(name, source), n)
  {
    if n == name {
      MovedRowAgrees(t, s, s', name, source, target, s'.clients[name]);
    } else {
      OtherRow(t, s, s', name, source, n);
    }
  }

  lemma MovedRowAgrees(t: Tables, s: State, s': State, name: string, source: string, target: string, rec: Entry)
    requires Holds(t, s) && name in s.clients && Record(s', name) == Some(rec)
    requires s.clients[name].credentials.Keys == {source} && rec.credentials.Keys == {target} && source != target
    requires Sync(rec) == rec
    ensures RowAgrees(t, s, s', MoveDeletions(name, source), name)
  {
    HeldRow(t, s, name);
    MoveTags(name, source, name);
    MovedRow(t.clients[name], s.clients[name], rec, source, target);
    assert forall some: set<string> | some <= MoveDeletions(name, source).connections :: some == {};
  }

  /** `move-connection`: likewise. */
  lemma MoveIsStored(t: Tables, s: State, name: string, target: string)
    requires Consistent(s) && Lifecycle.MoveError(s, name, target).None? && Holds(t, s)
    ensures EntryFor(s, name).Some?
    ensures StoredAs(t, s, Lifecycle.Moved(s, name, target),
                     Some(MoveDeletions(name, Lifecycle.MoveSource(s, name, EntryFor(s, name).value))))
  {
    Lifecycle.Movable(s, name, target);
    NobodyToAdopt(s, name);
    var e := s.clients[name];
    var moved := Lifecycle.MovedItem(s, name, e, target).value;
    var source := Lifecycle.MoveSource(s, name, e);
    Lifecycle.MoveFacts(s, name, e);
    Lifecycle.MovedEntryShape(s, name, e, target, moved, source);
    var s' := Lifecycle.Moved(s, name, target);
    assert s'.clients == s.clients[name := Lifecycle.MovedEntry(s, name, e, target, moved)];
    forall n ensures RowAgrees(t, s, s', MoveDeletions(name, source), n) {
      MoveRow(t, s, s', name, source, target, n);
    }
    RowsAgree(t, s, s', MoveDeletions(name, source));
  }

  /** What either command leaves behind: no client without credentials, no trace of the tag that is gone. */
  lemma NothingStale(t: Tables, s: State, tag: string, n: string)
    requires Holds(t, s) && Consistent(s) && Find(s.inbounds, tag).None? && n in Loaded(t).clients
    ensures var e := Loaded(t).clients[n];
            e.credentials != map[] && tag !in e.credentials && e.connection in e.credentials && e.connection != tag
  {
    assert At(Loaded(t).clients, n) == At(s.clients, n);
    assert EntryOk(s.inbounds, n, s.clients[n]);
    assert forall u | u in s.clients[n].credentials :: CredentialOk(s.inbounds, n, u, s.clients[n].credentials[u]);
  }
}
