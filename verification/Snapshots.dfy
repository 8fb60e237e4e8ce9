/** Saving a loaded snapshot: what is checked, what is written, what is never lost. */
module Snapshots {
  import opened Wrappers
  import opened Text
  import opened ClientState
  import opened Store

  /** A loaded database that remembers what was loaded; a plain dict remembers nothing. */
  class Snapshot {
    var db: Tables
    var original: Option<Tables>

    constructor (db: Tables, original: Option<Tables>)
      ensures this.db == db && this.original == original
    {
      this.db, this.original := db, original;
    }
  }

  function ConnectionsOf(o: Option<Tables>): Option<map<string, Connection>> {
    if o.Some? then Some(o.value.connections) else None
  }

  function RoutesOf(o: Option<Tables>): Option<map<string, Route>> {
    if o.Some? then Some(o.value.routes) else None
  }

  function ClientsOf(o: Option<Tables>): Option<map<string, Entry>> {
    if o.Some? then Some(o.value.clients) else None
  }

  /** Some changed record is no longer stored as it was loaded. */
  ghost predicate Clashes(t: Tables, db: Tables, original: Option<Tables>) {
    || SectionClash(t.connections, Plain, db.connections, ConnectionsOf(original))
    || SectionClash(t.routes, Plain, db.routes, RoutesOf(original))
    || SectionClash(t.clients, Sync, db.clients, ClientsOf(original))
  }

  /** The store with every changed record upserted. */
  function AllWritten(t: Tables, db: Tables, original: Option<Tables>): Tables {
    Tables(Written(t.connections, SavedPlain, db.connections, ConnectionsOf(original)),
           Written(t.routes, SavedPlain, db.routes, RoutesOf(original)),
           Written(t.clients, SavedEntry, db.clients, ClientsOf(original)))
  }

  /** When a save goes through; one that names deletions insists on the whole snapshot being current. */
  ghost predicate SaveOk(t: Tables, db: Tables, original: Option<Tables>, deletions: Option<Deletions>) {
    && (deletions.Some? && original.Some? ==> Loaded(t) == original.value)
    && !Clashes(t, db, original)
    && (deletions.Some? ==> Deletable(AllWritten(t, db, original), deletions.value))
  }

  function Saved(t: Tables, db: Tables, original: Option<Tables>, deletions: Option<Deletions>): Tables {
    var written := AllWritten(t, db, original);
    if deletions.Some? then AfterDeletions(written, deletions.value) else written
  }

  /** `load_db`. */
  method LoadDb(database: Database) returns (snapshot: Snapshot)
    ensures fresh(snapshot) && snapshot.db == Loaded(database.tables) && snapshot.original == Some(Loaded(database.tables))
  {
    var loaded := Loaded(database.tables);
    snapshot := new Snapshot(loaded, Some(loaded));
  }

  /** `_write_records`. */
  method WriteRecords(database: Database, db: Tables, original: Option<Tables>, deletions: Option<Deletions>)
      returns (failure: Option<Failure>)
    modifies database
    ensures failure.None? <==> SaveOk(old(database.tables), db, original, deletions)
    ensures failure.None? ==> database.tables == Saved(old(database.tables), db, original, deletions)
  {
    var t := database.tables;
    if deletions.Some? && original.Some? && Loaded(t) != original.value {
      return Some(Conflict);
    }
    var ok, connections := WriteSection(t.connections, Plain, SavedPlain, db.connections, ConnectionsOf(original));
    if !ok {
      return Some(Conflict);
    }
    var routes;
    ok, routes := WriteSection(t.routes, Plain, SavedPlain, db.routes, RoutesOf(original));
    if !ok {
      return Some(Conflict);
    }
    var clients;
    ok, clients := WriteSection(t.clients, Sync, SavedEntry, db.clients, ClientsOf(original));
    if !ok {
      return Some(Conflict);
    }
    database.tables := Tables(connections, routes, clients);
    if deletions.Some? {
      ok := database.ApplyDeletions(deletions.value);
      if !ok {
        return Some(Conflict);
      }
    }
    failure := None;
  }

  /** `save_db`: all or nothing; a snapshot that was saved becomes the snapshot of what is now stored. */
  method SaveDb(database: Database, snapshot: Snapshot, deletions: Option<Deletions>) returns (failure: Option<Failure>)
    modifies database, snapshot
    ensures failure.None? <==> SaveOk(old(database.tables), old(snapshot.db), old(snapshot.original), deletions)
    ensures failure.Some? ==> database.tables == old(database.tables) && snapshot.db == old(snapshot.db)
                              && snapshot.original == old(snapshot.original)
    ensures failure.None? ==> database.tables == Saved(old(database.tables), old(snapshot.db), old(snapshot.original), deletions)
    ensures failure.None? && old(snapshot.original).Some? ==>
              snapshot.db == Loaded(database.tables) && snapshot.original == Some(Loaded(database.tables))
    ensures failure.None? && old(snapshot.original).None? ==> snapshot.db == old(snapshot.db) && snapshot.original.None?
  {
    var begun := database.tables;
    failure := WriteRecords(database, snapshot.db, snapshot.original, deletions);
    if failure.Some? {
      database.tables := begun;
      return;
    }
    if snapshot.original.Some? {
      snapshot.db := Loaded(database.tables);
      snapshot.original := Some(snapshot.db);
    }
  }

  /** `restore_after_update`: undoes a committed update. */
  method RestoreAfterUpdate(database: Database, committed: Tables, previous: Tables) returns (failure: Option<Failure>)
    modifies database
    ensures var d := Introduced(committed, previous);
            && (failure.None? <==> SaveOk(old(database.tables), previous, Some(committed), Some(d)))
            && database.tables == if failure.None? then Saved(old(database.tables), previous, Some(committed), Some(d))
                                  else old(database.tables)
  {
    var undo := new Snapshot(previous, Some(committed));
    failure := SaveDb(database, undo, Some(Introduced(committed, previous)));
  }

  /** The connections and routes that the update had added. */
  function Introduced(committed: Tables, previous: Tables): Deletions {
    Deletions({}, {}, committed.connections.Keys - previous.connections.Keys, committed.routes.Keys - previous.routes.Keys)
  }

  // ---- no lost update ----

  /** Every record that a snapshot changed is still stored as it was loaded. */
  ghost predicate StillCurrent(t: Tables, db: Tables, original: Tables) {
    && (forall k | ChangedAt(db.connections, Some(original.connections), k) ::
          At(t.connections, k) == At(original.connections, k))
    && (forall k | ChangedAt(db.routes, Some(original.routes), k) :: At(t.routes, k) == At(original.routes, k))
    && (forall k | ChangedAt(db.clients, Some(original.clients), k) ::
          At(Loaded(t).clients, k) == At(original.clients, k))
  }

  lemma NoLostUpdate(t: Tables, db: Tables, original: Tables)
    ensures SaveOk(t, db, Some(original), None) <==> StillCurrent(t, db, original)
  {
    forall k | ChangedAt(db.connections, Some(original.connections), k)
      ensures ClashAt(t.connections, Plain, db.connections, Some(original.connections), k)
              <==> At(t.connections, k) != At(original.connections, k) {}
    forall k | ChangedAt(db.routes, Some(original.routes), k)
      ensures ClashAt(t.routes, Plain, db.routes, Some(original.routes), k)
              <==> At(t.routes, k) != At(original.routes, k) {}
    forall k | ChangedAt(db.clients, Some(original.clients), k)
      ensures ClashAt(t.clients, Sync, db.clients, Some(original.clients), k)
              <==> At(Loaded(t).clients, k) != At(original.clients, k) {}
  }

  lemma WrittenAt<V>(stored: map<string, V>, save: (Option<V>, V) -> V, records: map<string, V>,
                     before: Option<map<string, V>>, k: string)
    ensures At(Written(stored, save, records, before), k)
         == if ChangedAt(records, before, k) then Some(save(At(stored, k), records[k])) else At(stored, k)
  {}

  function CredentialsIn(clients: map<string, Entry>, n: string): map<string, Credential> {
    if n in clients then clients[n].credentials else map[]
  }

  /** An unchanged client is read as before. A changed one keeps every credential it had when it was loaded, so it is
      read back as it was in memory exactly when memory had left none of them out. */
  lemma SavedClientReads(t: Tables, db: Tables, original: Tables, n: string)
    requires SaveOk(t, db, Some(original), None)
    ensures var after := At(Loaded(Saved(t, db, Some(original), None)).clients, n);
            var known := CredentialsIn(original.clients, n);
            if !ChangedAt(db.clients, Some(original.clients), n) then after == At(Loaded(t).clients, n)
            else
              && after.Some? && after.value.credentials == known + db.clients[n].credentials
              && (after == Some(Sync(db.clients[n])) <==> known.Keys <= db.clients[n].credentials.Keys)
  {
    NoLostUpdate(t, db, original);
    WrittenAt(t.clients, SavedEntry, db.clients, Some(original.clients), n);
    if ChangedAt(db.clients, Some(original.clients), n) {
      var known := CredentialsIn(original.clients, n);
      assert At(Loaded(t).clients, n) == At(original.clients, n);
      assert known == CredentialsIn(t.clients, n);
      ReadsBack(db.clients[n], known);
    }
  }

  lemma ReadsBack(e: Entry, known: map<string, Credential>)
    ensures Sync(Sync(e).(credentials := known + e.credentials)) == Sync(e) <==> known.Keys <= e.credentials.Keys
  {
    var all := known + e.credentials;
    assert all.Keys == known.Keys + e.credentials.Keys;
    if known.Keys <= e.credentials.Keys {
      assert all == e.credentials;
      SyncIdempotent(e);
    } else {
      assert all != e.credentials;
    }
  }

  // ---- two writers ----

  ghost predicate Disjoint<V>(before: map<string, V>, a: map<string, V>, b: map<string, V>) {
    forall k :: !(ChangedAt(a, Some(before), k) && ChangedAt(b, Some(before), k))
  }

  lemma SectionsCommute<V>(stored: map<string, V>, read: V -> V, save: (Option<V>, V) -> V, before: map<string, V>,
                           a: map<string, V>, b: map<string, V>)
    requires Disjoint(before, a, b) && !SectionClash(stored, read, a, Some(before)) && !SectionClash(stored, read, b, Some(before))
    ensures !SectionClash(Written(stored, save, a, Some(before)), read, b, Some(before))
    ensures Written(Written(stored, save, a, Some(before)), save, b, Some(before))
         == Written(Written(stored, save, b, Some(before)), save, a, Some(before))
  {
    var afterA, afterB := Written(stored, save, a, Some(before)), Written(stored, save, b, Some(before));
    forall k ensures !ClashAt(afterA, read, b, Some(before), k) {
      WrittenAt(stored, save, a, Some(before), k);
      assert !ClashAt(stored, read, b, Some(before), k);
      assert ChangedAt(b, Some(before), k) ==> At(afterA, k) == At(stored, k);
    }
    var ab, ba := Written(afterA, save, b, Some(before)), Written(afterB, save, a, Some(before));
    forall k ensures At(ab, k) == At(ba, k) {
      WrittenAt(stored, save, a, Some(before), k);
      WrittenAt(stored, save, b, Some(before), k);
      WrittenAt(afterA, save, b, Some(before), k);
      WrittenAt(afterB, save, a, Some(before), k);
    }
    AtExtensional(ab, ba);
  }

  /** Two snapshots of one store whose changes touch different records both save, in either order, to the same store. */
  lemma DisjointSavesCommute(t: Tables, original: Tables, a: Tables, b: Tables)
    requires SaveOk(t, a, Some(original), None) && SaveOk(t, b, Some(original), None)
    requires Disjoint(original.connections, a.connections, b.connections)
    requires Disjoint(original.routes, a.routes, b.routes)
    requires Disjoint(original.clients, a.clients, b.clients)
    ensures SaveOk(Saved(t, a, Some(original), None), b, Some(original), None)
    ensures SaveOk(Saved(t, b, Some(original), None), a, Some(original), None)
    ensures Saved(Saved(t, a, Some(original), None), b, Some(original), None)
         == Saved(Saved(t, b, Some(original), None), a, Some(original), None)
  {
    SectionsCommute(t.connections, Plain, SavedPlain, original.connections, a.connections, b.connections);
    SectionsCommute(t.connections, Plain, SavedPlain, original.connections, b.connections, a.connections);
    SectionsCommute(t.routes, Plain, SavedPlain, original.routes, a.routes, b.routes);
    SectionsCommute(t.routes, Plain, SavedPlain, original.routes, b.routes, a.routes);
    SectionsCommute(t.clients, Sync, SavedEntry, original.clients, a.clients, b.clients);
    SectionsCommute(t.clients, Sync, SavedEntry, original.clients, b.clients, a.clients);
  }

  /** Saving a changed client leaves it to be read as it was loaded: nothing but credentials was taken out of it. */
  predicate ReadsAsBefore(original: Tables, a: Tables, n: string)
    requires n in a.clients
  {
    && n in original.clients
    && Sync(Sync(a.clients[n]).(credentials := original.clients[n].credentials + a.clients[n].credentials)) == original.clients[n]
  }

  /** The first writer's change of a client shows in the store. */
  predicate Shows(original: Tables, a: Tables, n: string) {
    ChangedAt(a.clients, Some(original.clients), n) && !ReadsAsBefore(original, a, n)
  }

  lemma ShownAt(t: Tables, original: Tables, a: Tables, n: string)
    requires Loaded(t) == original
    ensures At(Loaded(Saved(t, a, Some(original), None)).clients, n) == At(original.clients, n) <==> !Shows(original, a, n)
  {
    var after := Saved(t, a, Some(original), None);
    LoadedAt(t, n);
    LoadedAt(after, n);
    assert At(Loaded(t).clients, n) == At(original.clients, n);
    WrittenAt(t.clients, SavedEntry, a.clients, Some(original.clients), n);
  }

  lemma ShownInSection<V>(stored: map<string, V>, before: map<string, V>, a: map<string, V>, k: string)
    requires stored == before
    ensures At(Written(stored, SavedPlain, a, Some(before)), k) == At(before, k) <==> !ChangedAt(a, Some(before), k)
  {
    WrittenAt(stored, SavedPlain, a, Some(before), k);
  }

  /** Of two snapshots of one store, once the first is saved the second saves exactly when it changes no connection or
      route that the first changed, and no client whose change shows. */
  lemma SecondWriterIff(t: Tables, original: Tables, a: Tables, b: Tables)
    requires Loaded(t) == original && SaveOk(t, a, Some(original), None)
    ensures SaveOk(Saved(t, a, Some(original), None), b, Some(original), None) <==>
              && Disjoint(original.connections, a.connections, b.connections)
              && Disjoint(original.routes, a.routes, b.routes)
              && forall n :: !(Shows(original, a, n) && ChangedAt(b.clients, Some(original.clients), n))
  {
    var after := Saved(t, a, Some(original), None);
    NoLostUpdate(after, b, original);
    forall k ensures At(after.connections, k) == At(original.connections, k) <==>
                       !ChangedAt(a.connections, Some(original.connections), k) {
      ShownInSection(t.connections, original.connections, a.connections, k);
    }
    forall k ensures At(after.routes, k) == At(original.routes, k) <==> !ChangedAt(a.routes, Some(original.routes), k) {
      ShownInSection(t.routes, original.routes, a.routes, k);
    }
    forall n ensures At(Loaded(after).clients, n) == At(original.clients, n) <==> !Shows(original, a, n) {
      ShownAt(t, original, a, n);
    }
  }

  // ---- what may disappear ----

  /** Nothing but what `deletions` names ever disappears: clients and connections only by name, credentials only by
      name or with their client or their connection. */
  lemma NothingElseDisappears(t: Tables, db: Tables, original: Option<Tables>, deletions: Option<Deletions>)
    requires SaveOk(t, db, original, deletions)
    ensures var d := if deletions.Some? then deletions.value else Deletions({}, {}, {}, {});
            var after := Saved(t, db, original, deletions);
            && t.connections.Keys - d.connections <= after.connections.Keys
            && t.routes.Keys - d.routes <= after.routes.Keys
            && t.clients.Keys - d.clients <= after.clients.Keys
            && forall n | n in t.clients && n in after.clients ::
                 forall tag | tag in t.clients[n].credentials && tag !in after.clients[n].credentials ::
                   (n, tag) in d.credentials || tag in d.connections
  {
    var written := AllWritten(t, db, original);
    forall n | n in t.clients ensures n in written.clients && t.clients[n].credentials.Keys <= written.clients[n].credentials.Keys {
      WrittenAt(t.clients, SavedEntry, db.clients, ClientsOf(original), n);
    }
    if deletions.Some? {
      var d := deletions.value;
      forall n, tag | n in t.clients && n !in d.clients && tag in t.clients[n].credentials
                      && tag !in AfterDeletions(written, d).clients[n].credentials
        ensures (n, tag) in d.credentials || tag in d.connections
      {
        StrippedKeys(written.clients[n], TagsFor(d.credentials, n));
      }
    }
  }

  lemma StrippedKeys(e: Entry, tags: set<string>)
    ensures Stripped(e, tags).credentials == e.credentials - tags
  {
    if e.credentials.Keys !! tags {
      assert e.credentials - tags == e.credentials;
    }
  }

  // ---- single credentials ----

  /** Saving a new credential and deleting it again leaves the client as it was read before. */
  lemma SaveThenDelete(e: Entry, tag: string, c: Credential)
    requires e.credentials != map[] && tag !in e.credentials
    ensures Sync(Stripped(Sync(Sync(e).(credentials := e.credentials[tag := c])), {tag})) == Sync(e)
  {
    var more := e.credentials[tag := c];
    var saved := Sync(Sync(e).(credentials := more));
    assert more - {tag} == e.credentials;
    SyncIdempotent(e);
    StripRestores(Sync(e), more, tag);
    assert saved.connection == Sync(e).connection;
    assert Sync(saved) == saved by { SyncIdempotent(Sync(e).(credentials := more)); }
    assert Sync(Sync(e).(credentials := more)) == saved;
    assert Sync(saved.(credentials := e.credentials)) == Sync(e);
  }

  /** Deleting the only credential that is not in a synchronised record leads back to that record. */
  lemma StripRestores(e: Entry, more: map<string, Credential>, tag: string)
    requires Sync(e) == e && e.credentials != map[] && tag in more && more - {tag} == e.credentials
    ensures Stripped(e.(credentials := more), {tag}) == e
    ensures LeavesSome(e.(credentials := more), {tag})
  {
    var row := e.(credentials := more);
    assert e.connection in e.credentials;
    assert e.connection in more - {tag};
    assert Sync(row).connection == e.connection;
    assert tag in row.credentials.Keys * {tag};
  }

  // ---- undoing a committed update ----

  /** Every credential has its connection, and so has the connection that a record names. */
  predicate Intact(t: Tables) {
    && "" !in t.connections
    && forall n | n in t.clients ::
         && t.clients[n].credentials.Keys <= t.connections.Keys
         && (t.clients[n].connection != "" && t.clients[n].credentials == map[] ==> t.clients[n].connection in t.connections)
  }

  lemma CascadeReads(e: Entry, tags: set<string>)
    requires "" !in e.credentials && e.credentials.Keys !! tags && (e.credentials == map[] ==> e.connection == "" || e.connection !in tags)
    ensures Sync(Cascaded(e, tags)) == Sync(e)
  {
    assert e.credentials - tags == e.credentials;
  }

  /** When the update changed no client, the undo goes through exactly when nothing else was stored since, and then it
      leads back exactly. */
  lemma UndoIff(t: Tables, committed: Tables, previous: Tables)
    requires committed.clients == previous.clients && Intact(previous)
    ensures var d := Introduced(committed, previous);
            && (SaveOk(t, previous, Some(committed), Some(d)) <==> Loaded(t) == committed)
            && (Loaded(t) == committed ==> Loaded(Saved(t, previous, Some(committed), Some(d))) == previous)
  {
    if Loaded(t) == committed {
      UndoRestores(t, committed, previous);
    }
  }

  /** A writer whose change shows comes between an update and its undo: the undo is refused. */
  lemma WriterBlocksUndo(t: Tables, other: Tables, previous: Tables)
    requires SaveOk(t, other, Some(Loaded(t)), None)
    requires || (exists k :: ChangedAt(other.connections, Some(Loaded(t).connections), k))
             || (exists k :: ChangedAt(other.routes, Some(Loaded(t).routes), k))
             || (exists n :: Shows(Loaded(t), other, n))
    ensures !SaveOk(Saved(t, other, Some(Loaded(t)), None), previous, Some(Loaded(t)), Some(Introduced(Loaded(t), previous)))
  {
    var committed := Loaded(t);
    var after := Saved(t, other, Some(committed), None);
    if k :| ChangedAt(other.connections, Some(committed.connections), k) {
      ShownInSection(t.connections, committed.connections, other.connections, k);
    } else if k :| ChangedAt(other.routes, Some(committed.routes), k) {
      ShownInSection(t.routes, committed.routes, other.routes, k);
    } else {
      var n :| Shows(committed, other, n);
      ShownAt(t, committed, other, n);
    }
    assert Loaded(after) != committed;
  }

  lemma UndoRestores(t: Tables, committed: Tables, previous: Tables)
    requires Loaded(t) == committed && committed.clients == previous.clients && Intact(previous)
    ensures var d := Introduced(committed, previous);
            SaveOk(t, previous, Some(committed), Some(d)) && Loaded(Saved(t, previous, Some(committed), Some(d))) == previous
  {
    var d := Introduced(committed, previous);
    NoLostUpdate(t, previous, committed);
    var written := AllWritten(t, previous, Some(committed));
    forall n ensures At(written.clients, n) == At(t.clients, n) {
      WrittenAt(t.clients, SavedEntry, previous.clients, Some(committed.clients), n);
      LoadedAt(t, n);
    }
    AtExtensional(written.clients, t.clients);
    UndoneClients(t, written, d, previous);
    forall k ensures At(written.connections - d.connections, k) == At(previous.connections, k) {
      WrittenAt(t.connections, SavedPlain, previous.connections, Some(committed.connections), k);
    }
    AtExtensional(written.connections - d.connections, previous.connections);
    forall k ensures At(written.routes - d.routes, k) == At(previous.routes, k) {
      WrittenAt(t.routes, SavedPlain, previous.routes, Some(committed.routes), k);
    }
    AtExtensional(written.routes - d.routes, previous.routes);
  }

  lemma UndoneClients(t: Tables, written: Tables, d: Deletions, previous: Tables)
    requires written.clients == t.clients && Loaded(t).clients == previous.clients && Intact(previous)
    requires d.clients == {} && d.credentials == {} && d.connections !! previous.connections.Keys
    ensures Deletable(written, d) && Loaded(AfterDeletions(written, d)).clients == previous.clients
  {
    forall n | n in t.clients
      ensures TagsFor(d.credentials, n) == {} && LeavesSome(t.clients[n], TagsFor(d.credentials, n))
      ensures Sync(Cascaded(Stripped(t.clients[n], TagsFor(d.credentials, n)), d.connections * written.connections.Keys))
              == previous.clients[n]
    {
      assert TagsFor(d.credentials, n) == {};
      LoadedAt(t, n);
      assert previous.clients[n] == Sync(t.clients[n]);
      UndoneRow(t.clients[n], previous.connections.Keys, d.connections * written.connections.Keys);
    }
  }

  /** A row all of whose connections stay is read as before. */
  lemma UndoneRow(raw: Entry, stay: set<string>, go: set<string>)
    requires raw.credentials.Keys <= stay && "" !in stay && go !! stay
    requires Sync(raw).credentials == map[] && Sync(raw).connection != "" ==> Sync(raw).connection in stay
    ensures LeavesSome(raw, {}) && Sync(Cascaded(Stripped(raw, {}), go)) == Sync(raw)
  {
    assert raw.credentials - {} == raw.credentials;
    CascadeReads(raw, go);
  }
}
