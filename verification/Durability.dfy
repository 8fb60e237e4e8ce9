/** From memory to disk: every successful command stores exactly the state it made, so runs on disk do not drift. */
module Durability {
  import opened Wrappers
  import opened Text
  import opened Calendar
  import opened Limits
  import opened ClientState
  import opened Switching
  import opened Crud
  import Lifecycle
  import opened Policy
  import opened Enforcement
  import opened Access
  import opened Allocation
  import opened Connections
  import opened Removal
  import opened Store
  import opened Snapshots
  import opened Persistence
  import opened Commit
  import opened Runs

  /** Every record is synchronised. */
  ghost predicate Synced(s: State) {
    forall n | n in s.clients :: Sync(s.clients[n]) == s.clients[n]
  }

  /** A client, if it was there, is still there with at least its credentials. */
  predicate KeepsClient(s: State, s': State, n: string) {
    n in s.clients ==> n in s'.clients && s.clients[n].credentials.Keys <= s'.clients[n].credentials.Keys
  }

  /** No record and no credential is missing from memory. */
  ghost predicate Grows(s: State, s': State) {
    (forall n :: KeepsClient(s, s', n)) && s.connections.Keys <= s'.connections.Keys
  }

  /** Such a state needs no deletions: upserting its changed records stores all of it. */
  lemma GrowthIsStored(t: Tables, s: State, s': State)
    requires Holds(t, s) && Grows(s, s') && Synced(s')
    ensures StoredAs(t, s, s', None)
  {
    var db, original := TablesOf(s', t.routes), TablesOf(s, t.routes);
    NoLostUpdate(t, db, original);
    var after := Saved(t, db, Some(original), None);
    forall n ensures At(Loaded(after).clients, n) == At(s'.clients, n) {
      assert KeepsClient(s, s', n);
      SavedClientReads(t, db, original, n);
      HeldRow(t, s, n);
      assert At(Loaded(t).clients, n) == At(s.clients, n);
    }
    AtExtensional(Loaded(after).clients, s'.clients);
    forall k ensures At(after.connections, k) == At(s'.connections, k) {
      WrittenAt(t.connections, SavedPlain, s'.connections, Some(s.connections), k);
    }
    AtExtensional(after.connections, s'.connections);
    forall k ensures At(after.routes, k) == At(t.routes, k) {
      WrittenAt(t.routes, SavedPlain, t.routes, Some(t.routes), k);
    }
    AtExtensional(after.routes, t.routes);
  }

  /** `remove`: the client is deleted by name. */
  function ClientDeletions(name: string): Deletions {
    Deletions({name}, {}, {}, {})
  }

  lemma RemovedClientRow(t: Tables, s: State, s': State, name: string, n: string)
    requires Holds(t, s) && s'.clients == s.clients - {name}
    ensures RowAgrees(t, s, s', ClientDeletions(name), n)
  {
    HeldRow(t, s, n);
    assert TagsFor(ClientDeletions(name).credentials, n) == {};
    if n in t.clients {
      UntouchedRow(t.clients[n]);
      assert forall some: set<string> | some <= ClientDeletions(name).connections :: some == {};
    }
  }

  lemma RemovedClientIsStored(t: Tables, s: State, name: string)
    requires Holds(t, s)
    ensures StoredAs(t, s, Lifecycle.Removed(s, name), Some(ClientDeletions(name)))
  {
    var s', d := Lifecycle.Removed(s, name), ClientDeletions(name);
    forall n ensures RowAgrees(t, s, s', d, n) {
      RemovedClientRow(t, s, s', name, n);
    }
    RowsAgree(t, s, s', d);
  }

  // ---- the credentials that each command keeps ----

  lemma SyncedFrom(s: State)
    requires WellFormed(s)
    ensures Synced(s)
  {
    forall n | n in s.clients ensures Sync(s.clients[n]) == s.clients[n] {
      assert EntryOk(s.inbounds, n, s.clients[n]);
    }
  }

  lemma OneGrows(s: State, s': State, name: string)
    requires s'.connections == s.connections && KeepsClient(s, s', name)
    requires forall n | n != name :: Record(s', n) == Record(s, n)
    ensures Grows(s, s')
  {
    forall n ensures KeepsClient(s, s', n) {
      assert n != name ==> Record(s', n) == Record(s, n);
    }
  }

  lemma RecordGrows(s: State, inbounds: seq<Inbound>, name: string, e: Entry)
    requires name in s.clients ==> s.clients[name].credentials.Keys <= e.credentials.Keys
    ensures Grows(s, State(inbounds, s.connections, s.clients[name := e]))
  {}

  lemma AddGrows(s: State, name: string, tag: string, input: Lifecycle.AddInput)
    requires Consistent(s) && ValidMoment(input.now) && Lifecycle.AddError(s, name, tag, input).None?
    ensures Grows(s, Lifecycle.Added(s, name, tag, input))
  {
    NobodyToAdopt(s, name);
    var s' := Lifecycle.Added(s, name, tag, input);
    RecordGrows(s, s'.inbounds, name, s'.clients[name]);
  }

  lemma RotateGrows(s: State, name: string, which: Option<string>, password: string)
    requires Consistent(s) && Lifecycle.RotateError(s, name, which, password).None?
    ensures Grows(s, Lifecycle.Rotated(s, name, which, password))
  {
    NobodyToAdopt(s, name);
    var s' := Lifecycle.Rotated(s, name, which, password);
    RecordGrows(s, s'.inbounds, name, s'.clients[name]);
  }

  lemma DisableGrows(s: State, s': State, name: string, which: Option<string>, stamp: string)
    requires Consistent(s) && ClientDisabled(s, s', name, which, stamp)
    ensures Grows(s, s')
  {
    NobodyToAdopt(s, name);
    RecordGrows(s, s'.inbounds, name, s'.clients[name]);
  }

  lemma EnableGrows(s: State, s': State, name: string, which: Option<string>, traffic: History, now: Moment)
    requires ValidMoment(now) && ClientEnabled(s, s', name, which, traffic, now)
    ensures Grows(s, s')
  {
    OneGrows(s, s', name);
  }

  lemma ReconcileGrows(s: State, s': State, name: string, traffic: Traffic, now: Moment, stamp: string)
    requires ValidMoment(now) && Reconciled(s, s', name, traffic, now, stamp)
    ensures Grows(s, s')
  {
    OneGrows(s, s', name);
  }

  lemma AccessGrows(s: State, s': State, name: string, e: Entry, traffic: Traffic, now: Moment, stamp: string)
    requires ValidMoment(now) && name in s.clients && e.credentials == s.clients[name].credentials
    requires Reconciled(s.(clients := s.clients[name := e]), s', name, traffic, now, stamp)
    ensures Grows(s, s')
  {
    var s1 := s.(clients := s.clients[name := e]);
    ReconcileGrows(s1, s', name, traffic, now, stamp);
    forall n ensures KeepsClient(s, s', n) {
      assert KeepsClient(s1, s', n);
    }
  }

  lemma EnforceGrows(s: State, s': State, traffic: Traffic, now: Moment, stamp: string,
                     reactivated: set<string>, due: set<string>)
    requires ValidMoment(now) && Enforced(s, s', traffic, now, stamp, reactivated, due)
    ensures Grows(s, s')
  {
    forall n ensures KeepsClient(s, s', n) {
      if n in reactivated {
        assert EnabledAgain(s, s', n);
      } else if n in due {
        assert DisabledFor(s, s', n, TrafficRule(traffic), now, stamp);
      } else {
        assert Record(s', n) == Record(s, n);
      }
    }
  }

  lemma ExpireGrows(s: State, s': State, now: Moment, stamp: string, due: set<string>)
    requires ValidMoment(now) && Expired(s, s', now, stamp, due)
    ensures Grows(s, s')
  {
    forall n ensures KeepsClient(s, s', n) {
      if n in due {
        assert DisabledFor(s, s', n, AccessRule, now, stamp);
      } else {
        assert Record(s', n) == Record(s, n);
      }
    }
  }

  predicate Deletes(op: Op) {
    op.Remove? || op.Move? || op.RemoveInbound?
  }

  lemma ClientStepGrows(s: State, s': State, op: Op)
    requires Consistent(s) && Step(s, s', op) && OnClient(op) && !Deletes(op)
    ensures Grows(s, s')
  {
    if op.Enable? || op.ChangeAccess? {
      ServingStepGrows(s, s', op);
    } else {
      ItemStepGrows(s, s', op);
    }
  }

  lemma ItemStepGrows(s: State, s': State, op: Op)
    requires Consistent(s) && Step(s, s', op) && (op.Add? || op.Disable? || op.Rotate?)
    ensures Grows(s, s')
  {
    match op {
      case Add(name, tag, input) => AddGrows(s, name, tag, input);
      case Disable(name, which, stamp) => DisableGrows(s, s', name, which, stamp);
      case Rotate(name, which, password) => RotateGrows(s, name, which, password);
    }
  }

  lemma ServingStepGrows(s: State, s': State, op: Op)
    requires Step(s, s', op) && (op.Enable? || op.ChangeAccess?)
    ensures Grows(s, s')
  {
    match op {
      case Enable(name, which, traffic, now) => EnableGrows(s, s', name, which, TrafficOf(traffic, name), now);
      case ChangeAccess(name, change, traffic, now, stamp) =>
        AccessGrows(s, s', name, WithDeadline(change, s.clients[name], now), traffic, now, stamp);
    }
  }

  lemma OtherStepGrows(s: State, s': State, op: Op)
    requires DistinctTags(s.inbounds) && Step(s, s', op) && !OnClient(op) && !Deletes(op)
    ensures Grows(s, s')
  {
    match op {
      case Enforce(traffic, now, stamp) =>
        var reactivated, due :| Enforced(s, s', traffic, now, stamp, reactivated, due);
        EnforceGrows(s, s', traffic, now, stamp, reactivated, due);
      case Expire(now, stamp) =>
        var due :| Expired(s, s', now, stamp, due);
        ExpireGrows(s, s', now, stamp, due);
      case _ =>
        EnsuredKeeps(s.inbounds, s.connections);
    }
  }

  /** Every command that names no deletions keeps all records and credentials. */
  lemma StepGrows(s: State, s': State, op: Op)
    requires Consistent(s) && Step(s, s', op) && !Deletes(op)
    ensures Grows(s, s')
  {
    if OnClient(op) {
      ClientStepGrows(s, s', op);
    } else {
      OtherStepGrows(s, s', op);
    }
  }

  // ---- on disk ----

  /** The deletions that each command names. */
  function DeletionsFor(s: State, op: Op): Option<Deletions> {
    match op
    case Remove(name) => Some(ClientDeletions(name))
    case Move(name, _) =>
      (match EntryFor(s, name)
       case Some(e) => Some(MoveDeletions(name, Lifecycle.MoveSource(s, name, e)))
       case None => None)
    case RemoveInbound(tag) =>
      if Find(s.inbounds, tag).Some? then Some(RemovalDeletions(UsersOf(s, tag), s, tag)) else None
    case _ => None
  }

  lemma StepSynced(s: State, s': State, op: Op)
    requires Good(s) && Step(s, s', op)
    ensures Synced(s')
  {
    StepKeeps(s, s', op);
    SyncedFrom(s');
  }

  lemma PlainStepIsStored(t: Tables, s: State, s': State, op: Op)
    requires Good(s) && Holds(t, s) && Step(s, s', op) && !Deletes(op)
    ensures StoredAs(t, s, s', None)
  {
    StepGrows(s, s', op);
    StepSynced(s, s', op);
    GrowthIsStored(t, s, s');
  }

  /** Saving after any successful command is never refused and stores exactly the state in memory. */
  lemma StepIsStored(t: Tables, s: State, s': State, op: Op)
    requires Good(s) && Holds(t, s) && Step(s, s', op)
    ensures StoredAs(t, s, s', DeletionsFor(s, op))
  {
    if Deletes(op) {
      DeletingStepIsStored(t, s, s', op);
    } else {
      PlainStepIsStored(t, s, s', op);
    }
  }

  lemma MoveStepIsStored(t: Tables, s: State, name: string, tag: string)
    requires Consistent(s) && Lifecycle.MoveError(s, name, tag).None? && Holds(t, s)
    ensures StoredAs(t, s, Lifecycle.Moved(s, name, tag), DeletionsFor(s, Move(name, tag)))
  {
    MoveIsStored(t, s, name, tag);
  }

  lemma DeletingStepIsStored(t: Tables, s: State, s': State, op: Op)
    requires Consistent(s) && Holds(t, s) && Step(s, s', op) && Deletes(op)
    ensures StoredAs(t, s, s', DeletionsFor(s, op))
  {
    match op {
      case Remove(name) => RemovedClientIsStored(t, s, name);
      case Move(name, tag) => MoveStepIsStored(t, s, name, tag);
      case RemoveInbound(tag) => RemovalIsStored(t, s, tag);
    }
  }

  /** The state that the next command loads. */
  function Loads(d: Disk): State {
    State(d.file, Loaded(d.tables).connections, Loaded(d.tables).clients)
  }

  /** What the transaction of a command stores, and whether the store accepts it. */
  function ToSave(d: Disk, s': State, op: Op): Tables {
    Saved(d.tables, TablesOf(s', d.tables.routes), Some(TablesOf(Loads(d), d.tables.routes)), DeletionsFor(Loads(d), op))
  }

  ghost predicate Accepted(d: Disk, s': State, op: Op) {
    SaveOk(d.tables, TablesOf(s', d.tables.routes), Some(TablesOf(Loads(d), d.tables.routes)), DeletionsFor(Loads(d), op))
  }

  /** A command that is committed under a schedule of faults. */
  ghost predicate CommittedUnder(d: Disk, d': Disk, s': State, op: Op, schedule: Schedule) {
    && schedule.save != After(Kind.Error)
    && d' == DiskAfter(d, s'.inbounds, ToSave(d, s', op), schedule, Accepted(d, s', op))
  }

  /** A command that fails before it commits anything, or that is committed under the given schedule. */
  ghost predicate DiskStep(d: Disk, d': Disk, op: Op, schedule: Schedule) {
    d' == d || exists s' :: Step(Loads(d), s', op) && CommittedUnder(d, d', s', op, schedule)
  }

  lemma HoldsLoads(d: Disk)
    ensures Holds(d.tables, Loads(d))
  {}

  /** The store accepts what any successful command wants to save, and then holds it. */
  lemma CommandAccepted(d: Disk, s': State, op: Op)
    requires Good(Loads(d)) && Step(Loads(d), s', op)
    ensures Accepted(d, s', op) && Loads(Disk(s'.inbounds, ToSave(d, s', op))) == s'
  {
    HoldsLoads(d);
    StepIsStored(d.tables, Loads(d), s', op);
  }

  /** Outside the three windows a command leaves on disk either what it found or what it made. */
  lemma CommittedLoads(d: Disk, d': Disk, s': State, op: Op, schedule: Schedule)
    requires Good(Loads(d)) && Step(Loads(d), s', op) && CommittedUnder(d, d', s', op, schedule)
    requires !Window(schedule, true)
    ensures d' == d || Loads(d') == s'
  {
    CommandAccepted(d, s', op);
    BothOrNeither(d, s'.inbounds, ToSave(d, s', op), schedule, true);
  }

  ghost predicate DiskRun(disks: seq<Disk>, ops: seq<Op>, schedules: seq<Schedule>) {
    && |disks| == |ops| + 1 && |schedules| == |ops|
    && forall i | 0 <= i < |ops| :: DiskStep(disks[i], disks[i + 1], ops[i], schedules[i])
  }

  /** What is loaded from each disk up to the `k`-th is good. */
  ghost predicate AllLoadGood(disks: seq<Disk>, k: nat)
    requires k < |disks|
    decreases k
  {
    Good(Loads(disks[k])) && (k > 0 ==> AllLoadGood(disks, k - 1))
  }

  lemma {:induction false} DiskRunIsGood(disks: seq<Disk>, ops: seq<Op>, schedules: seq<Schedule>, k: nat)
    requires DiskRun(disks, ops, schedules) && Good(Loads(disks[0])) && k <= |ops|
    requires forall i | 0 <= i < |ops| :: !Window(schedules[i], true)
    ensures AllLoadGood(disks, k)
  {
    if k > 0 {
      DiskRunIsGood(disks, ops, schedules, k - 1);
      assert DiskStep(disks[k - 1], disks[k - 1 + 1], ops[k - 1], schedules[k - 1]);
      DiskStepKeeps(disks[k - 1], disks[k], ops[k - 1], schedules[k - 1]);
    }
  }

  /** Over any run of commands, each under any schedule of faults outside the three windows, what every command loads
      from disk is free of drift. */
  lemma DiskRunKeepsGood(disks: seq<Disk>, ops: seq<Op>, schedules: seq<Schedule>, k: nat)
    requires DiskRun(disks, ops, schedules) && Good(Loads(disks[0])) && k <= |ops|
    requires forall i | 0 <= i < |ops| :: !Window(schedules[i], true)
    ensures Good(Loads(disks[k]))
  {
    DiskRunIsGood(disks, ops, schedules, k);
  }

  lemma DiskStepKeeps(d: Disk, d': Disk, op: Op, schedule: Schedule)
    requires DiskStep(d, d', op, schedule) && Good(Loads(d)) && !Window(schedule, true)
    ensures Good(Loads(d'))
  {
    if d' != d {
      var s' :| Step(Loads(d), s', op) && CommittedUnder(d, d', s', op, schedule);
      CommittedLoads(d, d', s', op, schedule);
      StepKeeps(Loads(d), s', op);
    }
  }
}
