/** The two commands that remove credentials, from loading to committing. */
module Commands {
  import opened Wrappers
  import opened ClientState
  import opened Switching
  import opened Connections
  import opened Removal
  import Lifecycle
  import opened Store
  import opened Snapshots
  import opened Persistence
  import opened Commit
  import opened Runs
  import opened Durability

  /** What is on disk, as the next command loads it. */
  function OnDisk(server: Server): State
    reads server, server.database
  {
    Loads(Disk(server.file, server.database.tables))
  }

  function Unaffected(s: Schedule): bool {
    s.routes.Works? && s.write.Works? && s.test.Works? && s.restart.Works? && s.save.Works?
  }

  /** Commits the loaded and then changed copies; with the right deletions the disk holds what memory held. */
  method CommitMemory(server: Server, config: Config, db: Db, snapshot: Snapshot, deletions: Option<Deletions>, s: Schedule)
      returns (outcome: Outcome)
    requires s.save != After(Error)
    requires snapshot.db == Loaded(server.database.tables) && snapshot.original == Some(snapshot.db)
    requires StoredAs(server.database.tables, OnDisk(server), View(config, db), deletions)
    modifies server`file, server`running, server`tested, server.database, snapshot
    ensures outcome.Done? ==> OnDisk(server) == View(config, db)
    ensures !Window(s, true) ==> OnDisk(server) == old(OnDisk(server)) || OnDisk(server) == View(config, db)
    ensures Unaffected(s) ==> outcome.Done?
    ensures outcome.Stopped? && outcome.undone ==> OnDisk(server) == old(OnDisk(server))
  {
    ghost var d := Disk(server.file, server.database.tables);
    snapshot.db := Tables(db.connections, snapshot.db.routes, db.clients);
    ghost var saved := Saved(d.tables, snapshot.db, snapshot.original, deletions);
    BothOrNeither(d, config.inbounds, saved, s, true);
    outcome := SaveConfigRestartXrayAndDb(server, config.inbounds, snapshot, deletions, s);
  }

  /** Any command of a run: once memory holds what the command made, committing it is a step of a run on disk. */
  method CommitStep(server: Server, config: Config, db: Db, snapshot: Snapshot, deletions: Option<Deletions>, s: Schedule,
                    ghost op: Op) returns (outcome: Outcome)
    requires s.save != After(Kind.Error) && Good(OnDisk(server)) && Step(OnDisk(server), View(config, db), op)
    requires snapshot.db == Loaded(server.database.tables) && snapshot.original == Some(snapshot.db)
    requires deletions == DeletionsFor(OnDisk(server), op)
    modifies server`file, server`running, server`tested, server.database, snapshot
    ensures DiskStep(old(Disk(server.file, server.database.tables)), Disk(server.file, server.database.tables), op, s)
    ensures !Window(s, true) ==> Good(OnDisk(server))
  {
    ghost var d, after := Disk(server.file, server.database.tables), View(config, db);
    CommandAccepted(d, after, op);
    snapshot.db := Tables(db.connections, snapshot.db.routes, db.clients);
    outcome := SaveConfigRestartXrayAndDb(server, config.inbounds, snapshot, deletions, s);
    ghost var d' := Disk(server.file, server.database.tables);
    assert CommittedUnder(d, d', after, op, s);
    if !Window(s, true) {
      DiskStepKeeps(d, d', op, s);
    }
  }

  /** The same when the configuration did not change and only the database is saved. */
  method SaveMemory(server: Server, config: Config, db: Db, snapshot: Snapshot, deletions: Deletions)
      returns (outcome: Outcome)
    requires snapshot.db == Loaded(server.database.tables) && snapshot.original == Some(snapshot.db)
    requires StoredAs(server.database.tables, OnDisk(server), View(config, db), Some(deletions))
    requires config.inbounds == server.file
    modifies server.database, snapshot
    ensures outcome.Done? && OnDisk(server) == View(config, db)
  {
    snapshot.db := Tables(db.connections, snapshot.db.routes, db.clients);
    var failure := SaveDb(server.database, snapshot, Some(deletions));
    outcome := if failure.None? then Done else Stopped(Error, true);
  }

  /** `cmd_connection_remove`: on disk the connection is removed in both copies, or nothing has changed. */
  method CmdConnectionRemove(server: Server, identifier: string, s: Schedule)
      returns (r: Result<Removal, ClientState.Error>, outcome: Outcome)
    requires s.save != After(Error) && Consistent(OnDisk(server))
    modifies server`file, server`running, server`tested, server.database
    ensures r.Err? ==> OnDisk(server) == old(OnDisk(server)) && server.database.tables == old(server.database.tables)
    ensures r.Ok? && outcome.Done? ==>
              Find(old(OnDisk(server)).inbounds, r.value.tag).Some?
              && OnDisk(server) == ConnectionRemoved(old(OnDisk(server)), r.value.tag)
    ensures r.Ok? && Unaffected(s) ==> outcome.Done?
    ensures outcome.Stopped? && outcome.undone ==> OnDisk(server) == old(OnDisk(server))
  {
    var snapshot := LoadDb(server.database);
    ghost var t := server.database.tables;
    ghost var before := OnDisk(server);
    var config := new Config(server.file);
    var db := new Db(snapshot.db.connections, snapshot.db.clients);
    r := RemoveConnection(config, db, identifier);
    if r.Err? {
      return r, Stopped(Error, true);
    }
    var tag := r.value.tag;
    var deletions := Deletions(r.value.removed, set n | n in r.value.detached :: (n, tag), {tag}, {});
    RemovalDeleted(t, before, tag, r.value, deletions);
    outcome := CommitMemory(server, config, db, snapshot, Some(deletions), s);
  }

  lemma RemovalDeleted(t: Tables, s: State, tag: string, r: Removal, d: Deletions)
    requires Consistent(s) && Holds(t, s) && Find(s.inbounds, tag).Some? && r.tag == tag
    requires forall n :: n in r.removed <==> n in UsersOf(s, tag) && !Survives(s, n, tag)
    requires forall n :: n in r.detached <==> n in UsersOf(s, tag) && Survives(s, n, tag)
    requires d == Deletions(r.removed, set n | n in r.detached :: (n, tag), {tag}, {})
    ensures StoredAs(t, s, ConnectionRemoved(s, tag), Some(d))
  {
    SameDeletions(s, tag, r, d);
    RemovalIsStored(t, s, tag);
  }

  lemma SameDeletions(s: State, tag: string, r: Removal, d: Deletions)
    requires Find(s.inbounds, tag).Some? && r.tag == tag
    requires forall n :: n in r.removed <==> n in UsersOf(s, tag) && !Survives(s, n, tag)
    requires forall n :: n in r.detached <==> n in UsersOf(s, tag) && Survives(s, n, tag)
    requires d == Deletions(r.removed, set n | n in r.detached :: (n, tag), {tag}, {})
    ensures d == RemovalDeletions(UsersOf(s, tag), s, tag)
  {
    var users := UsersOf(s, tag);
    assert r.removed == set n | n in users && !Survives(s, n, tag);
    assert (set n | n in r.detached :: (n, tag)) == (set n | n in users && Survives(s, n, tag) :: (n, tag));
  }

  /** `cmd_move_connection`: the client is moved in both copies, or nothing has changed. */
  method CmdMoveConnection(server: Server, name: string, target: string, s: Schedule)
      returns (error: Option<ClientState.Error>, outcome: Outcome)
    requires s.save != After(Error) && Consistent(OnDisk(server))
    modifies server`file, server`running, server`tested, server.database
    ensures error == Lifecycle.MoveError(old(OnDisk(server)), name, target)
    ensures error.Some? ==> OnDisk(server) == old(OnDisk(server)) && server.database.tables == old(server.database.tables)
    ensures error.None? && outcome.Done? ==> OnDisk(server) == Lifecycle.Moved(old(OnDisk(server)), name, target)
    ensures error.None? && Unaffected(s) ==> outcome.Done?
    ensures outcome.Stopped? && outcome.undone ==> OnDisk(server) == old(OnDisk(server))
  {
    var snapshot := LoadDb(server.database);
    ghost var t := server.database.tables;
    ghost var before := OnDisk(server);
    var config := new Config(server.file);
    var db := new Db(snapshot.db.connections, snapshot.db.clients);
    MayMove(before, name);
    var source, configChanged;
    error, source, configChanged := Lifecycle.MoveClient(config, db, name, target);
    if error.Some? {
      return error, Stopped(Error, true);
    }
    var deletions := Deletions({}, {(name, source)}, {}, {});
    MoveIsStored(t, before, name, target);
    if configChanged {
      outcome := CommitMemory(server, config, db, snapshot, Some(deletions), s);
    } else {
      outcome := SaveMemory(server, config, db, snapshot, deletions);
    }
  }

  /** In a consistent state the client is active under the tag of the inbound in which it is found. */
  lemma MayMove(s: State, name: string)
    requires Consistent(s)
    ensures Lifecycle.ActiveUnderOwnTag(s.inbounds, name)
  {
    if ActiveAny(s.inbounds, name).Some? {
      Lifecycle.ActiveHere(s, name);
    }
  }
}
