/** Restoring a backup with rollback, with a fault possible at every step. */
module Restore {
  import opened Wrappers
  import opened Text
  import opened ServerEnv

  /** A backup; the environment in it is the portable part. */
  datatype Archive = Archive(config: Option<string>, env: Option<Env>, db: Option<string>)

  /** Copying a file works, or fails and leaves anything behind. */
  datatype CopyFault = Copies | Tears(left: string)

  /** `server.env` is replaced by one rename. */
  datatype EnvFault = Replaces | FailsBefore | FailsAfter

  /** Faults of `apply_restore`; `others` is false when one of the optional files fails. */
  datatype ApplyFaults = ApplyFaults(config: CopyFault, env: EnvFault, db: CopyFault, others: bool)

  /** Which steps of a restore work, and what stopping Xray writes into the database. */
  datatype Faults = Faults(
    stopWriters: bool, stopXray: bool, flush: Option<string>, snapshot: bool,
    apply: ApplyFaults, caddy: bool, test: bool, finish: bool,
    rollbackExtract: bool, rollbackStop: bool, rollbackFlush: Option<string>,
    rollbackApply: ApplyFaults, rollbackCaddy: bool, rollbackTest: bool, rollbackFinish: bool,
    units: bool)

  datatype Event = WritersStopped | XrayStopped | CopyingStarted | RollbackStarted | XrayTested | UnitsRestarted

  /** What was reported, and how far the restore got. */
  datatype Report = Report(ok: bool, unitsOk: bool, copying: bool, rolledBack: bool)

  class Host {
    var config: string
    var db: string
    var env: Env
    var log: seq<Event>

    constructor (config: string, db: string, env: Env)
      ensures this.config == config && this.db == db && this.env == env && log == []
    {
      this.config, this.db, this.env, log := config, db, env, [];
    }

    /** ExecStop saves the counters of the running Xray into the current database. */
    method StopXray(works: bool, flush: Option<string>) returns (ok: bool)
      modifies this`db, this`log
      ensures ok == works && db == Flushed(old(db), flush) && log == old(log) + [XrayStopped]
    {
      log := log + [XrayStopped];
      if flush.Some? {
        db := flush.value;
      }
      ok := works;
    }

    method Note(event: Event)
      modifies this`log
      ensures log == old(log) + [event]
    {
      log := log + [event];
    }

    /** `apply_restore`: the archive is checked as a whole before the first copy. */
    method ApplyRestore(a: Archive, osAddr: string, f: ApplyFaults) returns (ok: bool)
      modifies this`config, this`db, this`env
      ensures ok <==> Complete(a) && ApplyWorks(f)
      ensures !Complete(a) ==> config == old(config) && db == old(db) && env == old(env)
      ensures ok ==> config == a.config.value && db == a.db.value && env == Merge(a.env.value, old(env), osAddr)
      // The files are replaced in this order; the first failure leaves the later ones alone.
      ensures Complete(a) ==>
                && config == (if f.config.Tears? then f.config.left else a.config.value)
                && env == (if f.config.Tears? || f.env.FailsBefore? then old(env) else Merge(a.env.value, old(env), osAddr))
                && db == (if f.config.Tears? || f.env.FailsBefore? || f.env.FailsAfter? then old(db)
                          else if f.db.Tears? then f.db.left else a.db.value)
    {
      if !Complete(a) {
        return false;
      }
      if f.config.Tears? {
        config := f.config.left;
        return false;
      }
      config := a.config.value;
      if f.env.FailsBefore? {
        return false;
      }
      env := MergedRestoredServerEnv(a.env.value, env, osAddr);
      if f.env.FailsAfter? {
        return false;
      }
      if f.db.Tears? {
        db := f.db.left;
        return false;
      }
      db := a.db.value;
      ok := f.others;
    }
  }

  function Flushed(db: string, flush: Option<string>): string {
    if flush.Some? then flush.value else db
  }

  /** `require_restore_members`. */
  predicate Complete(a: Archive) {
    a.config.Some? && a.env.Some? && a.db.Some?
  }

  predicate ApplyWorks(f: ApplyFaults) {
    f.config.Copies? && f.env.Replaces? && f.db.Copies? && f.others
  }

  /** The pre-restore backup. */
  function SnapshotOf(config: string, db: string, env: Env): Archive {
    Archive(Some(config), Some(Portable(env)), Some(db))
  }

  predicate RestoreWorks(a: Archive, f: Faults) {
    Complete(a) && ApplyWorks(f.apply) && f.caddy && f.test && f.finish
  }

  predicate RollbackWorks(f: Faults) {
    f.rollbackExtract && f.rollbackStop && ApplyWorks(f.rollbackApply) && f.rollbackCaddy && f.rollbackTest && f.rollbackFinish
  }

  /** `rollback_restore`; Xray is stopped first, because what it writes on exit must not survive the copy. */
  method RollbackRestore(host: Host, pre: Archive, osAddr: string, f: Faults) returns (ok: bool)
    requires Complete(pre) && UnitsRestarted !in host.log
    modifies host
    ensures ok == RollbackWorks(f)
    ensures ok ==> host.config == pre.config.value && host.db == pre.db.value
                   && host.env == Merge(pre.env.value, old(host.env), osAddr)
    ensures UnitsRestarted !in host.log
  {
    if !f.rollbackExtract {
      return false;
    }
    var stopped := host.StopXray(f.rollbackStop, f.rollbackFlush);
    if !stopped {
      return false;
    }
    var applied := host.ApplyRestore(pre, osAddr, f.rollbackApply);
    if !applied || !f.rollbackCaddy {
      return false;
    }
    host.Note(XrayTested);
    ok := f.rollbackTest && f.rollbackFinish;
  }

  /** What a rollback makes of `server.env`: the archive had either not been merged yet, or it had. */
  predicate EnvRolledBack(env: Env, original: Env, a: Archive, osAddr: string) {
    || env == Merge(Portable(original), original, osAddr)
    || (Complete(a) && env == Merge(Portable(original), Merge(a.env.value, original, osAddr), osAddr))
  }

  lemma CleanEnvRolledBack(env: Env, original: Env, a: Archive)
    requires EnvRolledBack(env, original, a, "") && CleanHostKeys(original)
    ensures env == original
  {
    RollbackRestoresEnv(original, if Complete(a) then a.env.value else map[]);
  }

  /** The copying with its rollback. */
  method ApplyOrRollBack(host: Host, a: Archive, osAddr: string, f: Faults) returns (ok: bool, rolledBack: bool)
    requires UnitsRestarted !in host.log
    modifies host
    ensures ok <==> RestoreWorks(a, f)
    ensures ok ==> host.config == a.config.value && host.db == a.db.value && host.env == Merge(a.env.value, old(host.env), osAddr)
    ensures if ok then !rolledBack else rolledBack == RollbackWorks(f)
    ensures !ok && rolledBack ==> host.config == old(host.config) && host.db == old(host.db)
                                  && EnvRolledBack(host.env, old(host.env), a, osAddr)
    ensures UnitsRestarted !in host.log
  {
    rolledBack := false;
    var pre := SnapshotOf(host.config, host.db, host.env);
    host.Note(CopyingStarted);
    ok := host.ApplyRestore(a, osAddr, f.apply);
    ok := ok && f.caddy;
    if ok {
      host.Note(XrayTested);
      ok := f.test && f.finish;
    }
    if !ok {
      host.Note(RollbackStarted);
      rolledBack := RollbackRestore(host, pre, osAddr, f);
    }
  }

  /** `restore_with_writers_stopped`. */
  method RestoreWithWritersStopped(host: Host, a: Archive, osAddr: string, xrayWasActive: bool, f: Faults)
      returns (r: Report)
    requires host.log == []
    modifies host
    // Success is reported only when every step worked, and then the host has what the archive holds.
    ensures r.ok <==> f.stopWriters && f.stopXray && f.snapshot && RestoreWorks(a, f)
    ensures r.ok ==> host.config == a.config.value && host.db == a.db.value && host.env == Merge(a.env.value, old(host.env), osAddr)
    // Before the first copy nothing changes but what Xray itself wrote when it was stopped.
    ensures !r.copying ==> host.config == old(host.config) && host.env == old(host.env)
                           && host.db == if f.stopWriters then Flushed(old(host.db), f.flush) else old(host.db)
    // A later failure with a successful rollback leads back to the snapshot taken after Xray was stopped.
    ensures !r.ok && r.copying ==> r.rolledBack == RollbackWorks(f)
    ensures (r.rolledBack ==> r.copying && !r.ok) && r.unitsOk == f.units
    ensures !r.ok && r.copying && r.rolledBack ==>
              host.config == old(host.config) && host.db == Flushed(old(host.db), f.flush)
              && EnvRolledBack(host.env, old(host.env), a, osAddr)
    // The formerly active units are restarted once, as the last thing, after any rollback.
    ensures |host.log| > 0 && host.log[|host.log| - 1] == UnitsRestarted && UnitsRestarted !in host.log[..|host.log| - 1]
    ensures !f.stopWriters ==> host.log == old(host.log) + [WritersStopped, UnitsRestarted]
    // A stop that happened before any copy is undone by a restart.
    ensures f.stopWriters && !r.copying && xrayWasActive ==> |host.log| >= 2 && host.log[|host.log| - 2] == XrayTested
  {
    var stopAttempted, started, ok, rolledBack := false, false, false, false;
    host.Note(WritersStopped);
    if f.stopWriters {
      stopAttempted := true;
      var stopped := host.StopXray(f.stopXray, f.flush);
      if stopped && f.snapshot {
        started := true;
        ok, rolledBack := ApplyOrRollBack(host, a, osAddr, f);
      }
    }
    if stopAttempted && !started && xrayWasActive {
      host.Note(XrayTested);
    }
    assert UnitsRestarted !in host.log;
    host.Note(UnitsRestarted);
    r := Report(ok, f.units, started, rolledBack);
  }
}
