/** Committing `config.json` together with `manager.db`, with a fault possible at every call. */
module Commit {
  import opened Wrappers
  import opened ClientState
  import opened Store
  import opened Snapshots

  /** An ordinary exception, or one that is not an `Exception` (Ctrl+C). */
  datatype Kind = Error | Interrupt

  /** What a call does this time: it works, or it raises before or after it took effect. */
  datatype Fault = Works | Before(kind: Kind) | After(kind: Kind)

  /** One fault per call of a commit. */
  datatype Schedule = Schedule(routes: Fault, write: Fault, test: Fault, restart: Fault, save: Fault,
                               undoWrite: Fault, undoRestart: Fault)

  /** The command finished, or stopped with an exception; `undone` when the compensation ran to its end. */
  datatype Outcome = Done | Stopped(kind: Kind, undone: bool)

  /** The files and services that a commit touches. */
  class Server {
    var file: seq<Inbound>
    var running: seq<Inbound>
    var tested: Option<seq<Inbound>>
    var site: string
    const database: Database

    constructor (file: seq<Inbound>, site: string, database: Database)
      ensures this.file == file && running == file && tested == None && this.site == site && this.database == database
    {
      this.file, running, tested, this.site, this.database := file, file, None, site, database;
    }

    /** Replaces `config.json` by one rename. */
    method WriteConfig(config: seq<Inbound>, f: Fault) returns (raised: Option<Kind>)
      modifies this`file
      ensures file == if f.Before? then old(file) else config
      ensures raised == Raised(f)
    {
      if !f.Before? {
        file := config;
      }
      raised := Raised(f);
    }

    method TestConfig(f: Fault) returns (raised: Option<Kind>)
      modifies this`tested
      ensures raised == Raised(f) && (raised.None? ==> tested == Some(file))
    {
      if f.Works? {
        tested := Some(file);
      }
      raised := Raised(f);
    }

    method RestartXray(f: Fault) returns (raised: Option<Kind>)
      modifies this`running
      ensures running == if f.Before? then old(running) else file
      ensures raised == Raised(f)
    {
      if !f.Before? {
        running := file;
      }
      raised := Raised(f);
    }

    /** The database transaction; ordinary errors come before COMMIT, an interrupt may come after it. */
    method CommitDatabase(snapshot: Snapshot, deletions: Option<Deletions>, f: Fault) returns (raised: Option<Kind>)
      requires f != After(Error)
      modifies database, snapshot
      ensures var ok := SaveOk(old(database.tables), old(snapshot.db), old(snapshot.original), deletions);
              && raised == (if f.Before? then Some(f.kind) else if ok then Raised(f) else Some(Error))
              && database.tables == if f.Before? || !ok then old(database.tables)
                 else Saved(old(database.tables), old(snapshot.db), old(snapshot.original), deletions)
      ensures raised.None? && old(snapshot.original).Some? ==> snapshot.db == Loaded(database.tables)
    {
      if f.Before? {
        return Some(f.kind);
      }
      var failure := SaveDb(database, snapshot, deletions);
      if failure.Some? {
        return Some(Error);
      }
      raised := Raised(f);
    }

    /** `restore_config_backup`. */
    method RestoreConfigBackup(backup: seq<Inbound>, write: Fault, restart: Fault) returns (raised: Option<Kind>)
      modifies this`file, this`running
      ensures raised.None? <==> write.Works? && restart.Works?
      ensures file == if write.Before? then old(file) else backup
      ensures running == if write.Works? && !restart.Before? then backup else old(running)
    {
      raised := WriteConfig(backup, write);
      if raised.Some? {
        return;
      }
      raised := RestartXray(restart);
    }
  }

  function Raised(f: Fault): Option<Kind> {
    if f.Works? then None else Some(f.kind)
  }

  // ---- what a schedule of faults leads to ----

  /** What is on disk: `config.json` and the tables of `manager.db`. */
  datatype Disk = Disk(file: seq<Inbound>, tables: Tables)

  /** `config.json` is replaced and the guarded block is entered. */
  predicate Entered(s: Schedule) {
    s.routes.Works? && s.write.Works?
  }

  /** The new configuration has been tested and is running when the transaction begins. */
  predicate Saving(s: Schedule) {
    Entered(s) && s.test.Works? && s.restart.Works?
  }

  /** The transaction, which by itself would go through or not, is committed. */
  predicate Commits(s: Schedule, ok: bool) {
    Saving(s) && ok && !s.save.Before?
  }

  /** An interrupt inside the transaction, before or after COMMIT; it is not undone. */
  predicate InterruptedSave(s: Schedule, ok: bool) {
    Saving(s) && (s.save == Before(Interrupt) || (s.save == After(Interrupt) && ok))
  }

  predicate Succeeds(s: Schedule, ok: bool) {
    Saving(s) && ok && s.save.Works?
  }

  /** The compensation is tried. */
  predicate Compensates(s: Schedule, ok: bool) {
    Entered(s) && !Succeeds(s, ok) && !InterruptedSave(s, ok)
  }

  /** A failed command leaves no trace. */
  predicate Undone(s: Schedule, ok: bool) {
    || !s.routes.Works?
    || s.write.Before?
    || (Compensates(s, ok) && s.undoWrite.Works? && s.undoRestart.Works?)
  }

  /** The new file is left behind. */
  predicate FileStays(s: Schedule, ok: bool) {
    s.routes.Works? && !s.write.Before? && !(Compensates(s, ok) && !s.undoWrite.Before?)
  }

  /** Both halves afterwards; `saved` is what the transaction would store. */
  function DiskAfter(d: Disk, config: seq<Inbound>, saved: Tables, s: Schedule, ok: bool): Disk {
    Disk(if FileStays(s, ok) then config else d.file, if Commits(s, ok) then saved else d.tables)
  }

  /** A new database is never left under the old configuration. */
  lemma NeverNewUnderOld(d: Disk, config: seq<Inbound>, saved: Tables, s: Schedule, ok: bool)
    requires s.save != After(Error) && DiskAfter(d, config, saved, s, ok).tables != d.tables
    ensures DiskAfter(d, config, saved, s, ok) == Disk(config, saved)
  {
    assert s.save.After? ==> s.save.kind.Interrupt?;
  }

  /** The three windows in which the new configuration is left with the old database. */
  predicate Window(s: Schedule, ok: bool) {
    || (s.routes.Works? && s.write.After?)
    || (Saving(s) && s.save == Before(Interrupt))
    || (Compensates(s, ok) && s.undoWrite.Before?)
  }

  /** Outside these windows, and only outside them, the two halves end up both new or both old. */
  lemma BothOrNeither(d: Disk, config: seq<Inbound>, saved: Tables, s: Schedule, ok: bool)
    requires s.save != After(Error)
    ensures !Window(s, ok) ==> DiskAfter(d, config, saved, s, ok) == d || DiskAfter(d, config, saved, s, ok) == Disk(config, saved)
    ensures Window(s, ok) ==> DiskAfter(d, config, saved, s, ok) == Disk(config, d.tables)
  {
    assert s.save.After? ==> s.save.kind.Interrupt?;
    assert s.save.Before? ==> s.save.kind.Interrupt? || s.save.kind.Error?;
  }

  /** The kind of the exception that stops the command. */
  function StoppedBy(s: Schedule, ok: bool): Kind {
    if !s.routes.Works? then s.routes.kind
    else if !s.write.Works? then s.write.kind
    else if !s.test.Works? then s.test.kind
    else if !s.restart.Works? then s.restart.kind
    else if s.save.Before? then s.save.kind
    else if s.save.After? && ok then Interrupt
    else Error
  }

  /** `save_config_restart_xray_and_db`. */
  method SaveConfigRestartXrayAndDb(server: Server, config: seq<Inbound>, snapshot: Snapshot,
                                    deletions: Option<Deletions>, s: Schedule) returns (outcome: Outcome)
    requires s.save != After(Error)
    modifies server`file, server`running, server`tested, server.database, snapshot
    // Both halves, for every schedule.
    ensures var t, db, original := old(server.database.tables), old(snapshot.db), old(snapshot.original);
            var ok := SaveOk(t, db, original, deletions);
            && Disk(server.file, server.database.tables)
               == DiskAfter(Disk(old(server.file), t), config, Saved(t, db, original, deletions), s, ok)
            && (outcome.Done? <==> Succeeds(s, ok))
            && (outcome.Stopped? ==> (outcome.undone <==> Undone(s, ok)) && outcome.kind == StoppedBy(s, ok))
            && (Commits(s, ok) || Succeeds(s, ok) || InterruptedSave(s, ok) ==> server.running == config)
            && (Commits(s, ok) ==> server.tested == Some(config))
            && (Succeeds(s, ok) && original.Some? ==> snapshot.db == Loaded(server.database.tables))
    // A completed undo, or a failure before anything was written, leaves everything as it was.
    ensures outcome.Stopped? && outcome.undone ==>
              server.file == old(server.file) && server.database.tables == old(server.database.tables)
              && (old(server.running) == old(server.file) ==> server.running == old(server.file))
  {
    if !s.routes.Works? {
      return Stopped(s.routes.kind, true);
    }
    var backup := server.file;
    var raised := server.WriteConfig(config, s.write);
    if raised.Some? {
      return Stopped(raised.value, s.write.Before?);
    }
    var savingDb := false;
    raised := server.TestConfig(s.test);
    if raised.None? {
      raised := server.RestartXray(s.restart);
    }
    if raised.None? {
      savingDb := true;
      raised := server.CommitDatabase(snapshot, deletions, s.save);
    }
    if raised.None? {
      return Done;
    }
    if savingDb && raised.value.Interrupt? {
      return Stopped(Interrupt, false);
    }
    var failed := server.RestoreConfigBackup(backup, s.undoWrite, s.undoRestart);
    outcome := Stopped(raised.value, failed.None?);
  }

  // ---- the third step: the Caddy site ----

  /** What updating the Caddy site does: it works, raises one of the listed exceptions, raises another exception,
      or is interrupted before or after the site changed. It undoes itself on every exception. */
  datatype SiteFault = SiteWorks | Listed | Unlisted | SiteInterrupted(changed: bool)

  datatype UpdateSchedule = UpdateSchedule(commit: Schedule, site: SiteFault, undoWrite: Fault, undoRestart: Fault,
                                           undoSave: Fault)

  /** How an update ends: all done, not committed, undone, the undo failed, or the site is left as it is. */
  datatype UpdateOutcome = Updated | NotCommitted(why: Outcome) | RolledBack | RollbackFailed | SiteLeft

  /** The undo goes through. */
  predicate UndoWorks(s: UpdateSchedule) {
    s.undoWrite.Works? && s.undoRestart.Works? && s.undoSave.Works?
  }

  /** The client records are as they were loaded: the command changes connections only. */
  ghost predicate OnlyConnectionsChange(snapshot: Snapshot, t: Tables)
    reads snapshot
  {
    && snapshot.original == Some(Loaded(t))
    && snapshot.db.clients == Loaded(t).clients
  }

  lemma ClientsStay(t: Tables, db: Tables)
    requires db.clients == Loaded(t).clients
    ensures Loaded(Saved(t, db, Some(Loaded(t)), None)).clients == Loaded(t).clients
  {
    var after := Saved(t, db, Some(Loaded(t)), None);
    forall n ensures At(after.clients, n) == At(t.clients, n) {
      WrittenAt(t.clients, SavedEntry, db.clients, Some(Loaded(t).clients), n);
    }
    AtExtensional(after.clients, t.clients);
  }

  /** `cmd_trojan_connection_update` from the commit on. */
  method UpdateTrojanWithCaddy(server: Server, config: seq<Inbound>, snapshot: Snapshot, site: string, s: UpdateSchedule)
      returns (outcome: UpdateOutcome)
    requires s.commit.save != After(Error) && s.undoSave != After(Error)
    requires server.running == server.file
    requires OnlyConnectionsChange(snapshot, server.database.tables) && Intact(Loaded(server.database.tables))
    modifies server, server.database, snapshot
    ensures var t, db := old(server.database.tables), old(snapshot.db);
            var saved, ok := Saved(t, db, Some(Loaded(t)), None), SaveOk(t, db, Some(Loaded(t)), None);
            var d := Disk(server.file, server.database.tables);
            // Which outcome, for every schedule.
            && (outcome.NotCommitted? <==> !Succeeds(s.commit, ok))
            && (outcome.Updated? <==> Succeeds(s.commit, ok) && s.site.SiteWorks?)
            && (outcome.SiteLeft? <==> Succeeds(s.commit, ok) && (s.site.Unlisted? || s.site.SiteInterrupted?))
            && (outcome.RolledBack? <==> Succeeds(s.commit, ok) && s.site.Listed? && UndoWorks(s))
            && (outcome.RollbackFailed? <==> Succeeds(s.commit, ok) && s.site.Listed? && !UndoWorks(s))
            // All three new.
            && (outcome.Updated? ==> d == Disk(config, saved) && server.running == config && server.site == site)
            // All three old.
            && (outcome.RolledBack? ==>
                  && server.file == old(server.file) && server.running == old(server.file)
                  && server.site == old(server.site) && Loaded(server.database.tables) == Loaded(t))
            // Nothing is undone: configuration and database new, the site as the fault left it.
            && (outcome.SiteLeft? ==>
                  && d == Disk(config, saved) && server.running == config
                  && server.site == if s.site == SiteInterrupted(true) then site else old(server.site))
            // The undo stopped: the file is back unless it was not even copied; the database is back only when its own
            // undo raised after COMMIT.
            && (outcome.RollbackFailed? ==>
                  && server.file == (if s.undoWrite.Before? then config else old(server.file))
                  && server.running == (if s.undoWrite.Works? && !s.undoRestart.Before? then old(server.file) else config)
                  && (if s.undoWrite.Works? && s.undoRestart.Works? && s.undoSave.After?
                      then Loaded(server.database.tables) == Loaded(t) else server.database.tables == saved)
                  && server.site == old(server.site))
            // The commit did not succeed: the two halves as the commit leaves them, the site untouched.
            && (outcome.NotCommitted? ==>
                  d == DiskAfter(Disk(old(server.file), t), config, saved, s.commit, ok) && server.site == old(server.site))
  {
    ghost var t := server.database.tables;
    var previous := snapshot.original.value;
    var backup := server.file;
    var committed := SaveConfigRestartXrayAndDb(server, config, snapshot, None, s.commit);
    if !committed.Done? {
      return NotCommitted(committed);
    }
    match s.site {
      case SiteWorks =>
        server.site := site;
        return Updated;
      case Unlisted =>
        return SiteLeft;
      case SiteInterrupted(changed) =>
        if changed {
          server.site := site;
        }
        return SiteLeft;
      case Listed =>
    }
    var failed := server.RestoreConfigBackup(backup, s.undoWrite, s.undoRestart);
    if failed.Some? {
      return RollbackFailed;
    }
    if s.undoSave.Before? {
      return RollbackFailed;
    }
    ClientsStay(t, old(snapshot.db));
    UndoRestores(server.database.tables, snapshot.db, previous);
    var failure := RestoreAfterUpdate(server.database, snapshot.db, previous);
    assert failure.None?;
    outcome := if s.undoSave.Works? then RolledBack else RollbackFailed;
  }
}
