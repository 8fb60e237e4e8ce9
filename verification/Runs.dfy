/** Runs of commands: the two copies never drift apart. */
module Runs {
  import opened Wrappers
  import opened Text
  import opened Calendar
  import opened Limits
  import opened ClientState
  import opened Crud
  import opened Switching
  import Lifecycle
  import opened Policy
  import opened Enforcement
  import opened Ticks
  import opened Access
  import opened Allocation
  import opened Connections
  import opened Removal

  datatype Op =
    | Add(name: string, tag: string, input: Lifecycle.AddInput)
    | Enable(name: string, which: Option<string>, traffic: Traffic, now: Moment)
    | Disable(name: string, which: Option<string>, stamp: string)
    | Move(name: string, tag: string)
    | Remove(name: string)
    | Rotate(name: string, which: Option<string>, password: string)
    | ChangeAccess(name: string, change: AccessChange, traffic: Traffic, now: Moment, stamp: string)
    | Enforce(traffic: Traffic, now: Moment, stamp: string)
    | Expire(now: Moment, stamp: string)
    | Ensure
    | AddInbound(name: string, kind: NewConnection)
    | RenameInbound(tag: string, name: string)
    | UpdateTrojan(index: nat, localPort: Option<int>, publicPort: Option<int>)
    | RemoveInbound(tag: string)

  function WithEnsured(s: State): State {
    s.(connections := Ensured(s.inbounds, s.connections))
  }

  /** What a successful command does to both copies. */
  ghost predicate Step(s: State, s': State, op: Op) {
    match op
    case Add(name, tag, input) =>
      ValidName(name) && ValidMoment(input.now) && Lifecycle.AddError(s, name, tag, input).None?
      && s' == Lifecycle.Added(s, name, tag, input)
    case Enable(name, which, traffic, now) => ValidMoment(now) && ClientEnabled(s, s', name, which, TrafficOf(traffic, name), now)
    case Disable(name, which, stamp) => ClientDisabled(s, s', name, which, stamp)
    case Move(name, tag) => Lifecycle.MoveError(s, name, tag).None? && s' == Lifecycle.Moved(s, name, tag)
    case Remove(name) => s' == Lifecycle.Removed(s, name)
    case Rotate(name, which, password) =>
      Lifecycle.RotateError(s, name, which, password).None? && s' == Lifecycle.Rotated(s, name, which, password)
    case ChangeAccess(name, change, traffic, now, stamp) =>
      ValidMoment(now) && name in s.clients
      && (s.clients[name].expiresAt.Some? ==> ValidMoment(s.clients[name].expiresAt.value))
      && Reconciled(s.(clients := s.clients[name := WithDeadline(change, s.clients[name], now)]), s', name, traffic, now, stamp)
    case Enforce(traffic, now, stamp) =>
      ValidMoment(now) && exists reactivated, due :: Enforced(s, s', traffic, now, stamp, reactivated, due)
    case Expire(now, stamp) => ValidMoment(now) && exists due :: Expired(s, s', now, stamp, due)
    case Ensure => s' == WithEnsured(s)
    case AddInbound(name, kind) => exists tag :: ConnectionAdded(s, s', name, kind, tag)
    case RenameInbound(tag, name) =>
      tag in WithEnsured(s).connections
      && s' == s.(connections := Ensured(s.inbounds, s.connections)[tag := WithEnsured(s).connections[tag].(name := name)])
    case UpdateTrojan(index, localPort, publicPort) => TrojanUpdated(s, s', index, localPort, publicPort)
    case RemoveInbound(tag) =>
      Find(s.inbounds, tag).Some? && RemoveRefusal(WithEnsured(s), tag).None? && s' == ConnectionRemoved(s, tag)
  }

  /** A command succeeds, or fails and nothing is saved. */
  ghost predicate Next(s: State, s': State, op: Op) {
    s' == s || Step(s, s', op)
  }

  /** The copies agree, records tell their inbounds' protocols, and a VLESS and a Reality connection exist. */
  ghost predicate Good(s: State) {
    && Consistent(s) && RecordsFit(s)
    && Unmixed(s.inbounds) && VlessCount(s.inbounds) >= 1 && RealityCount(s.inbounds) >= 1
  }

  // ---- commands on clients ----

  /** What the shape of the inbounds decides does not change when only client lists do. */
  lemma ShapeKeeps(s: State, s': State)
    requires SameShape(s.inbounds, s'.inbounds) && s'.connections == s.connections
    ensures RecordsFit(s) ==> RecordsFit(s')
    ensures Unmixed(s.inbounds) ==> Unmixed(s'.inbounds)
    ensures VlessCount(s'.inbounds) == VlessCount(s.inbounds) && RealityCount(s'.inbounds) == RealityCount(s.inbounds)
    ensures DistinctPorts(s.inbounds) ==> DistinctPorts(s'.inbounds)
  {
    assert forall k | 0 <= k < |s.inbounds| :: SameButClients(s.inbounds[k], s'.inbounds[k]);
    SameCounts(s.inbounds, s'.inbounds);
  }

  predicate OnClient(op: Op) {
    op.Add? || op.Enable? || op.Disable? || op.Move? || op.Remove? || op.Rotate? || op.ChangeAccess?
  }

  lemma ClientStepKeeps(s: State, s': State, op: Op)
    requires Consistent(s) && Step(s, s', op) && OnClient(op)
    ensures Consistent(s') && SameShape(s.inbounds, s'.inbounds) && s'.connections == s.connections
  {
    if op.Add? || op.Move? {
      PlacingStepKeeps(s, s', op);
    } else if op.Enable? || op.Disable? {
      ServingStepKeeps(s, s', op);
    } else if op.ChangeAccess? {
      AccessStepKeeps(s, s', op);
    } else {
      ItemStepKeeps(s, s', op);
    }
  }

  lemma PlacingStepKeeps(s: State, s': State, op: Op)
    requires Consistent(s) && Step(s, s', op) && (op.Add? || op.Move?)
    ensures Consistent(s') && SameShape(s.inbounds, s'.inbounds) && s'.connections == s.connections
  {
    match op {
      case Add(name, tag, input) => Lifecycle.AddKeeps(s, name, tag, input);
      case Move(name, tag) => Lifecycle.MoveKeeps(s, name, tag);
    }
  }

  lemma ItemStepKeeps(s: State, s': State, op: Op)
    requires Consistent(s) && Step(s, s', op) && (op.Remove? || op.Rotate?)
    ensures Consistent(s') && SameShape(s.inbounds, s'.inbounds) && s'.connections == s.connections
  {
    match op {
      case Remove(name) => Lifecycle.RemoveKeeps(s, name);
      case Rotate(name, which, password) => Lifecycle.RotateKeeps(s, name, which, password);
    }
  }

  lemma AccessStepKeeps(s: State, s': State, op: Op)
    requires Consistent(s) && Step(s, s', op) && op.ChangeAccess?
    ensures Consistent(s') && SameShape(s.inbounds, s'.inbounds) && s'.connections == s.connections
  {
    UpdateAccessKeeps(s, s', op.name, op.change, op.traffic, op.now, op.stamp);
    ShapeOf(s.inbounds, s'.inbounds, {op.name});
  }

  lemma ServingStepKeeps(s: State, s': State, op: Op)
    requires Consistent(s) && Step(s, s', op) && (op.Enable? || op.Disable?)
    ensures Consistent(s') && SameShape(s.inbounds, s'.inbounds) && s'.connections == s.connections
  {
    match op {
      case Enable(name, which, traffic, now) =>
        EnableKeeps(s, s', name, which, TrafficOf(traffic, name), now);
        ShapeOf(s.inbounds, s'.inbounds, {name});
      case Disable(name, which, stamp) =>
        DisableKeeps(s, s', name, which, stamp);
        ShapeOf(s.inbounds, s'.inbounds, {name});
    }
  }

  lemma PolicyStepKeeps(s: State, s': State, op: Op)
    requires Consistent(s) && Step(s, s', op) && (op.Enforce? || op.Expire?)
    ensures Consistent(s') && SameShape(s.inbounds, s'.inbounds) && s'.connections == s.connections
  {
    match op {
      case Enforce(traffic, now, stamp) =>
        var reactivated, due :| Enforced(s, s', traffic, now, stamp, reactivated, due);
        EnforceKeeps(s, s', traffic, now, stamp, reactivated, due);
        ShapeOf(s.inbounds, s'.inbounds, reactivated + due);
      case Expire(now, stamp) =>
        var due :| Expired(s, s', now, stamp, due);
        ExpireKeeps(s, s', now, stamp, due);
        ShapeOf(s.inbounds, s'.inbounds, due);
    }
  }

  // ---- commands on connections ----

  lemma EnsuredKeepsFit(s: State)
    requires DistinctTags(s.inbounds) && RecordsFit(s)
    ensures RecordsFit(WithEnsured(s))
  {
    forall k | 0 <= k < |s.inbounds| && Managed(s.inbounds[k])
      ensures At(WithEnsured(s).connections, Tag(s.inbounds[k])).Some?
              && WithEnsured(s).connections[Tag(s.inbounds[k])].protocol == s.inbounds[k].protocol
    {
      EnsuredFits(s, k);
    }
  }

  lemma OnlyRecordsChange(s: State, connections: map<string, Connection>)
    requires Consistent(s)
    ensures Consistent(s.(connections := connections))
  {
    var s' := s.(connections := connections);
    forall n ensures MirrorOf(s', n) {
      assert MirrorOf(s, n);
      forall t ensures MirrorAt(s', n, t) {
        assert MirrorAt(s, n, t);
      }
    }
  }

  lemma AddedInboundFits(s: State, s': State, name: string, kind: NewConnection, tag: string)
    requires DistinctTags(s.inbounds) && RecordsFit(s) && ConnectionAdded(s, s', name, kind, tag)
    ensures RecordsFit(s')
    ensures Unmixed(s.inbounds) ==> Unmixed(s'.inbounds)
  {
    NewInboundFits(s.inbounds, kind, tag);
    EnsuredKeepsFit(s);
    assert RecordsFit(WithEnsured(s));
    forall k | 0 <= k < |s'.inbounds| && Managed(s'.inbounds[k]) && Tag(s'.inbounds[k]) in s'.connections
      ensures s'.connections[Tag(s'.inbounds[k])].protocol == s'.inbounds[k].protocol
    {
      if k < |s.inbounds| {
        assert s'.inbounds[k] == s.inbounds[k] && Tag(s.inbounds[k]) in ManagedTags(s.inbounds);
      }
    }
  }

  lemma AddInboundKeeps(s: State, s': State, name: string, kind: NewConnection, tag: string)
    requires Good(s) && ConnectionAdded(s, s', name, kind, tag)
    ensures Good(s') && (DistinctPorts(s.inbounds) ==> DistinctPorts(s'.inbounds))
  {
    AddConnectionKeeps(s, s', name, kind, tag);
    AddedInboundFits(s, s', name, kind, tag);
    CountsAppend(s.inbounds, NewInbound(kind, tag));
  }

  lemma RenameInboundKeeps(s: State, s': State, tag: string, name: string)
    requires Good(s) && Step(s, s', RenameInbound(tag, name))
    ensures Good(s') && s'.inbounds == s.inbounds
  {
    EnsuredKeepsFit(s);
    assert RecordsFit(WithEnsured(s));
    OnlyRecordsChange(s, s'.connections);
  }

  lemma EnsureKeeps(s: State, s': State)
    requires Good(s) && Step(s, s', Ensure)
    ensures Good(s') && s'.inbounds == s.inbounds
  {
    EnsuredKeepsFit(s);
    OnlyRecordsChange(s, s'.connections);
  }

  lemma UpdatedTrojanFits(s: State, s': State, k: nat, localPort: Option<int>, publicPort: Option<int>)
    requires DistinctTags(s.inbounds) && RecordsFit(s) && TrojanUpdated(s, s', k, localPort, publicPort)
    ensures RecordsFit(s')
    ensures Unmixed(s.inbounds) ==> Unmixed(s'.inbounds)
    ensures VlessCount(s'.inbounds) == VlessCount(s.inbounds) && RealityCount(s'.inbounds) == RealityCount(s.inbounds)
  {
    EnsuredFits(s, k);
    EnsuredKeepsFit(s);
    assert RecordsFit(WithEnsured(s));
    assert forall j | 0 <= j < |s.inbounds| && j != k :: s'.inbounds[j] == s.inbounds[j];
    SameCounts(s.inbounds, s'.inbounds);
  }

  lemma UpdateTrojanGood(s: State, s': State, k: nat, localPort: Option<int>, publicPort: Option<int>)
    requires Good(s) && TrojanUpdated(s, s', k, localPort, publicPort)
    ensures Good(s')
  {
    TrojanUpdateKeeps(s, s', k, localPort, publicPort);
    UpdatedTrojanFits(s, s', k, localPort, publicPort);
  }

  lemma RemovedInboundFits(s: State, tag: string)
    requires DistinctTags(s.inbounds) && RecordsFit(s) && Find(s.inbounds, tag).Some?
    ensures RecordsFit(ConnectionRemoved(s, tag))
    ensures Unmixed(s.inbounds) ==> Unmixed(Keep(s.inbounds, tag))
  {
    EnsuredKeepsFit(s);
    assert RecordsFit(WithEnsured(s));
    var kept := Keep(s.inbounds, tag);
    KeepMembers(s.inbounds, tag);
    forall k | 0 <= k < |kept|
      ensures exists j :: 0 <= j < |s.inbounds| && s.inbounds[j] == kept[k] && !(Tag(kept[k]) == tag && !kept[k].protocol.Other?)
    {
      assert kept[k] in kept;
    }
  }

  lemma RemoveInboundKeeps(s: State, s': State, tag: string)
    requires Good(s) && Step(s, s', RemoveInbound(tag))
    ensures Good(s') && (DistinctPorts(s.inbounds) ==> DistinctPorts(s'.inbounds))
  {
    RemoveConnectionKeeps(s, tag);
    RemovedInboundFits(s, tag);
    VlessStays(WithEnsured(s), tag);
    RealityStays(s, tag);
    FindSpec(s.inbounds, tag);
    if DistinctPorts(s.inbounds) {
      KeepPorts(s.inbounds, tag);
    }
  }

  // ---- all commands ----

  lemma StepKeeps(s: State, s': State, op: Op)
    requires Good(s) && Step(s, s', op)
    ensures Good(s')
    ensures DistinctPorts(s.inbounds) && !op.UpdateTrojan? ==> DistinctPorts(s'.inbounds)
  {
    if OnClient(op) {
      ClientStepKeeps(s, s', op);
      ShapeKeeps(s, s');
    } else {
      OtherStepKeeps(s, s', op);
    }
  }

  lemma OtherStepKeeps(s: State, s': State, op: Op)
    requires Good(s) && Step(s, s', op) && !OnClient(op)
    ensures Good(s')
    ensures DistinctPorts(s.inbounds) && !op.UpdateTrojan? ==> DistinctPorts(s'.inbounds)
  {
    match op {
      case Enforce(_, _, _) => PolicyStepKeeps(s, s', op); ShapeKeeps(s, s');
      case Expire(_, _) => PolicyStepKeeps(s, s', op); ShapeKeeps(s, s');
      case Ensure => EnsureKeeps(s, s');
      case AddInbound(name, kind) =>
        var tag :| ConnectionAdded(s, s', name, kind, tag);
        AddInboundKeeps(s, s', name, kind, tag);
      case RenameInbound(tag, name) => RenameInboundKeeps(s, s', tag, name);
      case UpdateTrojan(index, localPort, publicPort) => UpdateTrojanGood(s, s', index, localPort, publicPort);
      case RemoveInbound(tag) => RemoveInboundKeeps(s, s', tag);
    }
  }

  ghost predicate Run(states: seq<State>, ops: seq<Op>) {
    |states| == |ops| + 1 && forall i | 0 <= i < |ops| :: Next(states[i], states[i + 1], ops[i])
  }

  /** Every state up to the `k`-th is good. */
  ghost predicate AllGood(states: seq<State>, k: nat)
    requires k < |states|
    decreases k
  {
    Good(states[k]) && (k > 0 ==> AllGood(states, k - 1))
  }

  /** From a good start, no sequence of commands makes the two copies drift. */
  lemma {:induction false} RunIsGood(states: seq<State>, ops: seq<Op>, k: nat)
    requires Run(states, ops) && Good(states[0]) && k <= |ops|
    ensures AllGood(states, k)
  {
    if k > 0 {
      RunIsGood(states, ops, k - 1);
      assert Next(states[k - 1], states[k - 1 + 1], ops[k - 1]);
      NextKeeps(states[k - 1], states[k], ops[k - 1]);
    }
  }

  lemma RunKeepsGood(states: seq<State>, ops: seq<Op>, k: nat)
    requires Run(states, ops) && Good(states[0]) && k <= |ops|
    ensures Good(states[k])
  {
    RunIsGood(states, ops, k);
  }

  lemma NextKeeps(s: State, s': State, op: Op)
    requires Good(s) && Next(s, s', op)
    ensures Good(s')
  {
    if s' != s {
      StepKeeps(s, s', op);
    }
  }

  /** The new port of a Trojan inbound is held by no unmanaged inbound under the same tag. */
  predicate NoNamesakePort(s: State, op: Op) {
    op.UpdateTrojan? && op.index < |s.inbounds| ==>
      !NamesakeHolds(s.inbounds, op.index, NewLocalPort(s.inbounds[op.index], op.localPort))
  }

  lemma StepKeepsPorts(s: State, s': State, op: Op)
    requires Good(s) && DistinctPorts(s.inbounds) && Step(s, s', op) && NoNamesakePort(s, op)
    ensures DistinctPorts(s'.inbounds)
  {
    if op.UpdateTrojan? {
      TrojanUpdatePorts(s, s', op.index, op.localPort, op.publicPort);
    } else {
      StepKeeps(s, s', op);
    }
  }

  /** Nor do inbounds ever share a port, as long as Trojan updates avoid the ports of unmanaged namesakes. */
  lemma {:induction false} RunKeepsPorts(states: seq<State>, ops: seq<Op>, k: nat)
    requires Run(states, ops) && Good(states[0]) && DistinctPorts(states[0].inbounds) && k <= |ops|
    requires forall i | 0 <= i < |ops| :: NoNamesakePort(states[i], ops[i])
    ensures DistinctPorts(states[k].inbounds)
  {
    if k > 0 {
      var i := k - 1;
      RunKeepsPorts(states, ops, i);
      RunKeepsGood(states, ops, i);
      NextKeepsPorts(states[i], states[i + 1], ops[i]);
    }
  }

  lemma NextKeepsPorts(s: State, s': State, op: Op)
    requires Good(s) && DistinctPorts(s.inbounds) && Next(s, s', op) && NoNamesakePort(s, op)
    ensures DistinctPorts(s'.inbounds)
  {
    if s' != s {
      StepKeepsPorts(s, s', op);
    }
  }

  /** The whole claim in terms of items: at every moment of a run, every inbound item belongs to an enabled
      credential, every enabled credential has exactly one item, Trojan passwords agree, and the repeated fields of
      the record are those of one of its credentials. */
  lemma NoDrift(states: seq<State>, ops: seq<Op>, k: nat, name: string, tag: string)
    requires Run(states, ops) && Good(states[0]) && k <= |ops|
    ensures var s := states[k];
            var items := Items(s.inbounds, tag, name);
            && (items != [] <==> Enabled(s, name, tag))
            && |items| <= 1
            && (items != [] && s.clients[name].credentials[tag].protocol.Trojan? ==>
                  items[0].password == s.clients[name].credentials[tag].client.password)
            && (name in s.clients ==> Repeats(s.clients[name]))
  {
    RunKeepsGood(states, ops, k);
    if name in states[k].clients {
      assert EntryOk(states[k].inbounds, name, states[k].clients[name]);
      SyncedIff(states[k].clients[name]);
    }
    assert MirrorOf(states[k], name) && MirrorAt(states[k], name, tag);
  }

  /** What the commands ask of their callers holds at every moment of a run. */
  lemma AlwaysCallable(s: State, name: string)
    requires Consistent(s)
    ensures EmailsOk(s.clients) && Lifecycle.ActiveUnderOwnTag(s.inbounds, name)
  {
    forall n | n in s.clients ensures OwnEmails(n, s.clients[n]) {
      assert EntryOk(s.inbounds, n, s.clients[n]);
      assert forall t | t in s.clients[n].credentials :: CredentialOk(s.inbounds, n, t, s.clients[n].credentials[t]);
    }
    if ActiveAny(s.inbounds, name).Some? {
      Lifecycle.ActiveHere(s, name);
    }
  }
}
