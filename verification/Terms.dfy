/** What no command changes behind the administrator's back: a client's secrets, its deadline, its limit; and that a
    server on which every stored secret is usable stays one. */
module Terms {
  import opened Wrappers
  import opened Text
  import opened Calendar
  import opened Limits
  import opened ClientState
  import opened Credentials
  import opened Switching
  import opened Crud
  import opened Lifecycle
  import opened Policy
  import opened Effects
  import opened Enforcement
  import opened Ticks
  import opened Access
  import opened Connections
  import opened Removal
  import opened Runs

  // ---- one client, one step ----

  /** The credential is still the same one; a secret that is there does not change. */
  predicate CarriesOver(before: Credential, after: Credential) {
    && after.protocol == before.protocol && after.created == before.created
    && (Secret(before) != "" ==> Secret(after) == Secret(before))
    && (before.id != "" ==> after.id != "")
  }

  ghost predicate Carried(s: State, s': State, name: string) {
    forall t | CredentialAt(s, name, t).Some? && CredentialAt(s', name, t).Some? ::
      CarriesOver(CredentialAt(s, name, t).value, CredentialAt(s', name, t).value)
  }

  /** The agreement with a client: since when, until when, how much. */
  predicate SameAgreement(before: Entry, after: Entry) {
    && after.created == before.created && after.expiresAt == before.expiresAt && after.limit == before.limit
    && (before.id != "" ==> after.id != "")
  }

  /** Enabling needs a usable secret, and then leaves one. */
  ghost predicate AllUsable(s: State, name: string) {
    name in s.clients ==>
      forall t | t in s.clients[name].credentials :: HasSecret(s.clients[name], s.clients[name].credentials[t])
  }

  lemma CarriedSecret(before: Entry, after: Entry, c: Credential, c': Credential)
    requires CarriesOver(c, c') && (before.id != "" ==> after.id != "") && HasSecret(before, c)
    ensures HasSecret(after, c')
  {}

  /** A record whose credentials are all carried over stays usable. */
  lemma CarriedUsable(s: State, s': State, name: string)
    requires name in s.clients && name in s'.clients && Carried(s, s', name) && AllUsable(s, name)
    requires s'.clients[name].credentials.Keys <= s.clients[name].credentials.Keys
    requires s.clients[name].id != "" ==> s'.clients[name].id != ""
    ensures AllUsable(s', name)
  {
    forall t | t in s'.clients[name].credentials
      ensures HasSecret(s'.clients[name], s'.clients[name].credentials[t]) {
      assert CarriesOver(CredentialAt(s, name, t).value, CredentialAt(s', name, t).value);
      CarriedSecret(s.clients[name], s'.clients[name], s.clients[name].credentials[t], s'.clients[name].credentials[t]);
    }
  }

  // ---- what the policy does to one client ----

  lemma PolicyOffKeeps(s: State, s': State, name: string, e: Entry, d: DisabledState)
    requires MirrorOf(s, name) && Record(s, name) == Some(e) && e.credentials != map[] && PolicyDisabled(s, s', name, e, d)
    ensures Carried(s, s', name) && SameTerms(e.(disabled := d), s'.clients[name])
    ensures s'.clients[name].credentials.Keys == e.credentials.Keys && Repeats(s'.clients[name])
  {
    var credentials := DisabledCredentials(s.inbounds, name, e, e.credentials.Keys);
    DisabledSecrets(s, name, e, e.credentials.Keys);
    var off := e.(credentials := credentials, enabled := false);
    assert credentials.Keys == e.credentials.Keys;
    assert off.credentials != map[] by {
      var k :| k in e.credentials;
      assert k in credentials;
    }
    SyncRepeats(off);
    forall t | CredentialAt(s, name, t).Some? && CredentialAt(s', name, t).Some?
      ensures CarriesOver(CredentialAt(s, name, t).value, CredentialAt(s', name, t).value) {
      assert SwitchedOff(e.credentials[t], credentials[t]);
    }
  }

  lemma PolicyOnKeeps(s: State, s': State, name: string, e: Entry)
    requires MirrorOf(s, name) && Record(s, name) == Some(e) && EntryOk(s.inbounds, name, e) && PolicyEnabled(s, s', name, e)
    ensures Carried(s, s', name) && SameTerms(e.(disabled := NOT_DISABLED), s'.clients[name])
    ensures s'.clients[name].credentials.Keys == e.credentials.Keys && Repeats(s'.clients[name])
  {
    ReopenedTerms(s, s', name, e);
    forall t | CredentialAt(s, name, t).Some? && CredentialAt(s', name, t).Some?
      ensures CarriesOver(CredentialAt(s, name, t).value, CredentialAt(s', name, t).value) {
      PolicyOnCarries(s, s', name, e, t);
    }
  }

  lemma ReopenedTerms(s: State, s': State, name: string, e: Entry)
    requires e.credentials != map[] && PolicyEnabled(s, s', name, e)
    ensures SameTerms(e.(disabled := NOT_DISABLED), s'.clients[name])
    ensures s'.clients[name].credentials.Keys == e.credentials.Keys && Repeats(s'.clients[name])
  {
    EnabledRecord(s.inbounds, name, Reopened(e), e.credentials.Keys);
  }

  lemma PolicyOnCarries(s: State, s': State, name: string, e: Entry, t: string)
    requires MirrorOf(s, name) && Record(s, name) == Some(e) && EntryOk(s.inbounds, name, e) && PolicyEnabled(s, s', name, e)
    requires t in e.credentials
    ensures t in s'.clients[name].credentials && CarriesOver(e.credentials[t], s'.clients[name].credentials[t])
  {
    assert MirrorAt(s, name, t);
    if !e.credentials[t].enabled {
      EnabledSecret(s, s', name, Reopened(e), e.credentials.Keys, t);
    }
  }

  /** A client that is found past its deadline is marked with that. */
  lemma ExpiredIsMarked(s: State, s': State, now: Moment, stamp: string, name: string)
    requires Consistent(s) && ValidMoment(now) && DisabledFor(s, s', name, AccessRule, now, stamp)
    ensures var d := s'.clients[name].disabled;
            d == s.clients[name].disabled.(at := stamp, reason := AccessEnded, expiredAt := stamp)
  {}

  /** A client that is found over its limit is marked with this period, what it used in it, and its reset. */
  lemma OverLimitMark(s: State, s': State, traffic: Traffic, now: Moment, stamp: string, name: string)
    requires Consistent(s) && ValidMoment(now) && DisabledFor(s, s', name, TrafficRule(traffic), now, stamp)
    ensures s.clients[name].limit.Some?
    ensures var d, period := s'.clients[name].disabled, s.clients[name].limit.value.period;
            && d.at == stamp && d.exceededAt == stamp && d.reason.TrafficLimitReached?
            && d.exceededPeriod == Some(Key(period, now)) && d.resetAt == Some(ResetTime(period, now))
            && d.exceededBytes == Usage(TrafficOf(traffic, name), period, now) >= s.clients[name].limit.value.bytes
  {}

  // ---- steps ----

  /** The commands that are there to change what is at stake. */
  predicate MayChangeSecret(op: Op, name: string) {
    op.Rotate? && op.name == name
  }

  predicate MayChangeAgreement(op: Op, name: string) {
    op.ChangeAccess? && op.name == name
  }

  ghost predicate KeepsClient(s: State, s': State, op: Op, name: string)
    requires name in s.clients && name in s'.clients
  {
    && (!MayChangeSecret(op, name) ==> Carried(s, s', name))
    && (!MayChangeAgreement(op, name) ==> SameAgreement(s.clients[name], s'.clients[name]))
    && (AllUsable(s, name) && FreshIds(op) ==> AllUsable(s', name))
  }

  /** The ids that `add` is given are not empty. */
  predicate FreshIds(op: Op) {
    op.Add? ==> op.input.uuid != "" && op.input.credentialUuid != ""
  }

  /** Whoever a step does not touch keeps everything. */
  lemma UntouchedKeeps(s: State, s': State, op: Op, name: string)
    requires name in s.clients && Record(s', name) == Record(s, name)
    ensures KeepsClient(s, s', op, name)
  {}

  lemma DisableStep(s: State, s': State, op: Op, name: string)
    requires Consistent(s) && Step(s, s', op) && op.Disable? && name == op.name && name in s.clients && name in s'.clients
    ensures KeepsClient(s, s', op, name)
  {
    DisableEffect(s, s', name, op.which, op.stamp);
    var sel := Selected(s.clients[name], op.which).value;
    forall t | CredentialAt(s, name, t).Some? && CredentialAt(s', name, t).Some?
      ensures CarriesOver(CredentialAt(s, name, t).value, CredentialAt(s', name, t).value) {
      if t in sel {
        assert SwitchedOff(s.clients[name].credentials[t], s'.clients[name].credentials[t]);
      } else {
        assert SameUnder(s, s', name, t);
      }
    }
    assert s'.clients[name].credentials.Keys <= s.clients[name].credentials.Keys by {
      forall t | t in s'.clients[name].credentials ensures t in s.clients[name].credentials {
        if t !in sel { assert SameUnder(s, s', name, t); }
      }
    }
    UsableAfter(s, s', name);
  }

  lemma UsableAfter(s: State, s': State, name: string)
    requires name in s.clients && name in s'.clients && Carried(s, s', name)
    requires s'.clients[name].credentials.Keys <= s.clients[name].credentials.Keys
    requires s.clients[name].id != "" ==> s'.clients[name].id != ""
    ensures AllUsable(s, name) ==> AllUsable(s', name)
  {
    if AllUsable(s, name) {
      CarriedUsable(s, s', name);
    }
  }

  lemma EnableStepKeeps(s: State, s': State, op: Op, name: string)
    requires Consistent(s) && Step(s, s', op) && op.Enable? && name == op.name && name in s.clients && name in s'.clients
    ensures KeepsClient(s, s', op, name)
  {
    EnableEffect(s, s', name, op.which, TrafficOf(op.traffic, name), op.now);
    forall t | CredentialAt(s, name, t).Some? && CredentialAt(s', name, t).Some?
      ensures CarriesOver(CredentialAt(s, name, t).value, CredentialAt(s', name, t).value) {
      assert SwitchedOn(s, s', name, t) || SameUnder(s, s', name, t);
    }
    UsableAfter(s, s', name);
  }

  lemma AddStep(s: State, name: string, tag: string, input: AddInput)
    requires Consistent(s) && ValidName(name) && ValidMoment(input.now) && AddError(s, name, tag, input).None?
    requires name in s.clients
    ensures var s' := Added(s, name, tag, input);
            && Carried(s, s', name) && SameAgreement(s.clients[name], s'.clients[name])
            && (AllUsable(s, name) && input.credentialUuid != "" ==> AllUsable(s', name))
  {
    AddEffect(s, name, tag, input);
    var s' := Added(s, name, tag, input);
    OneMore(s, s', name, tag);
    if AllUsable(s, name) && input.credentialUuid != "" {
      IssuedIsUsable(s'.clients[name], CredentialAt(s', name, tag).value, s.inbounds[Find(s.inbounds, tag).value], name,
                     input.credentialUuid, input);
      AddedUsable(s, s', name, tag);
    }
  }

  lemma OneMore(s: State, s': State, name: string, tag: string)
    requires CredentialAt(s, name, tag).None? && forall t | t != tag :: SameUnder(s, s', name, t)
    ensures Carried(s, s', name)
    ensures forall t | t != tag :: CredentialAt(s', name, t) == CredentialAt(s, name, t)
  {
    forall t | t != tag ensures CredentialAt(s', name, t) == CredentialAt(s, name, t) {
      assert SameUnder(s, s', name, t);
    }
  }

  lemma IssuedIsUsable(e: Entry, c: Credential, i: Inbound, name: string, id: string, input: AddInput)
    requires Issued(c, i, name, id, input) && id != ""
    ensures HasSecret(e, c)
  {
    if c.protocol.Trojan? {
      ValidIsTrimmed(c.client.password);
    }
  }

  /** One usable credential more. */
  lemma AddedUsable(s: State, s': State, name: string, tag: string)
    requires name in s.clients && name in s'.clients && AllUsable(s, name)
    requires forall t | t != tag :: CredentialAt(s', name, t) == CredentialAt(s, name, t)
    requires s.clients[name].id != "" ==> s'.clients[name].id != ""
    requires tag in s'.clients[name].credentials ==> HasSecret(s'.clients[name], s'.clients[name].credentials[tag])
    ensures AllUsable(s', name)
  {
    var e, e' := s.clients[name], s'.clients[name];
    forall t | t in e'.credentials && t != tag ensures HasSecret(e', e'.credentials[t]) {
      assert CredentialAt(s', name, t) == CredentialAt(s, name, t);
      assert HasSecret(e, e.credentials[t]);
    }
  }

  lemma {:induction false} NoBlanks(p: string)
    requires forall c | c in p :: !Blank(c)
    ensures Trim(p) == p
  {}

  /** A password that meets the policy has no blanks to trim. */
  lemma ValidIsTrimmed(p: string)
    requires ValidPassword(p)
    ensures Trim(p) == p
  {
    assert forall c | c in p :: UrlSafe(c) && !Blank(c);
    NoBlanks(p);
  }

  lemma RotateStep(s: State, name: string, which: Option<string>, password: string)
    requires Consistent(s) && RotateError(s, name, which, password).None? && name in s.clients
    ensures var s' := Rotated(s, name, which, password);
            && SameAgreement(s.clients[name], s'.clients[name]) && (AllUsable(s, name) ==> AllUsable(s', name))
  {
    RotateEffect(s, name, which, password);
    Rotatable(s, name, which, password);
    NobodyToAdopt(s, name);
    RotatedOne(s, Rotated(s, name, which, password), name, RotatedTag(s, name, which, password), password);
  }

  /** One Trojan credential gets a valid password. */
  lemma RotatedOne(s: State, s': State, name: string, t: string, password: string)
    requires name in s.clients && name in s'.clients && PasswordSet(s, s', name, t, password)
    requires s.clients[name].credentials[t].protocol.Trojan? && ValidPassword(password)
    ensures SameAgreement(s.clients[name], s'.clients[name]) && (AllUsable(s, name) ==> AllUsable(s', name))
  {
    forall u | u != t ensures CredentialAt(s', name, u) == CredentialAt(s, name, u) {
      assert SameUnder(s, s', name, u);
    }
    if AllUsable(s, name) {
      RotatedIsUsable(s.clients[name], s.clients[name].credentials[t], s'.clients[name].credentials[t], s'.clients[name], password);
      AddedUsable(s, s', name, t);
    }
  }

  lemma RotatedIsUsable(known: Entry, before: Credential, after: Credential, e: Entry, password: string)
    requires OnlyPassword(known, before, after, password) && before.protocol.Trojan? && ValidPassword(password)
    ensures HasSecret(e, after)
  {
    ValidIsTrimmed(password);
  }

  lemma MoveStep(s: State, name: string, target: string)
    requires Consistent(s) && MoveError(s, name, target).None? && name in s.clients
    ensures var s' := Moved(s, name, target);
            && Carried(s, s', name) && SameAgreement(s.clients[name], s'.clients[name])
            && (AllUsable(s, name) ==> AllUsable(s', name))
  {
    MoveEffect(s, name, target);
    TargetIsNew(s, name, target);
    MovedOne(s, Moved(s, name, target), name, MoveSource(s, name, s.clients[name]), target,
             s.inbounds[Find(s.inbounds, target).value]);
  }

  /** The one credential of a client is replaced by its re-addressed copy. */
  lemma MovedOne(s: State, s': State, name: string, source: string, target: string, i: Inbound)
    requires name in s.clients && name in s'.clients && source in s.clients[name].credentials
    requires s'.clients[name].credentials.Keys == {target} && target !in s.clients[name].credentials
    requires Readdressed(s.clients[name], s.clients[name].credentials[source], s'.clients[name].credentials[target], i, name)
    requires MovedRecord(s.clients[name], s'.clients[name], target)
    ensures Carried(s, s', name) && SameAgreement(s.clients[name], s'.clients[name])
    ensures AllUsable(s, name) ==> AllUsable(s', name)
  {
    var e, e' := s.clients[name], s'.clients[name];
    forall t ensures CredentialAt(s, name, t).None? || CredentialAt(s', name, t).None? {
      assert t in e'.credentials.Keys ==> t == target;
    }
    if AllUsable(s, name) {
      MovedIsUsable(e, e.credentials[source], e', e'.credentials[target], i, name);
      assert forall t | t in e'.credentials :: t in e'.credentials.Keys;
    }
  }

  lemma TargetIsNew(s: State, name: string, target: string)
    requires Consistent(s) && MoveError(s, name, target).None? && name in s.clients
    ensures target !in s.clients[name].credentials
  {
    NobodyToAdopt(s, name);
  }

  lemma MovedIsUsable(e: Entry, c: Credential, e': Entry, c': Credential, i: Inbound, name: string)
    requires Readdressed(e, c, c', i, name) && (e.id != "" ==> e'.id != "") && HasSecret(e, c)
    ensures HasSecret(e', c')
  {
    TrimIdempotent(c.client.password);
  }

  lemma AccessStep(s: State, s': State, name: string, change: AccessChange, traffic: Traffic, now: Moment, stamp: string)
    requires Consistent(s) && ValidMoment(now) && name in s.clients
    requires s.clients[name].expiresAt.Some? ==> ValidMoment(s.clients[name].expiresAt.value)
    requires Reconciled(s.(clients := s.clients[name := WithDeadline(change, s.clients[name], now)]), s',
                        name, traffic, now, stamp)
    ensures name in s'.clients && Carried(s, s', name) && (AllUsable(s, name) ==> AllUsable(s', name))
  {
    var s1 := s.(clients := s.clients[name := WithDeadline(change, s.clients[name], now)]);
    DeadlineKeeps(s, name, change, now);
    ReconciledKeeps(s1, s', name, traffic, now, stamp);
    SameCredentialsCarry(s, s1, s', name);
  }

  /** Only other fields of the record changed before. */
  lemma SameCredentialsCarry(s: State, s1: State, s': State, name: string)
    requires name in s.clients && name in s1.clients && name in s'.clients && Carried(s1, s', name)
    requires s1.clients[name].credentials == s.clients[name].credentials && s1.clients[name].id == s.clients[name].id
    requires s'.clients[name].credentials.Keys == s.clients[name].credentials.Keys
    requires s1.clients[name].id != "" ==> s'.clients[name].id != ""
    ensures Carried(s, s', name) && (AllUsable(s, name) ==> AllUsable(s', name))
  {
    forall t ensures CredentialAt(s1, name, t) == CredentialAt(s, name, t) {}
    UsableAfter(s, s', name);
  }

  lemma ReconciledKeeps(s: State, s': State, name: string, traffic: Traffic, now: Moment, stamp: string)
    requires Consistent(s) && ValidMoment(now) && Reconciled(s, s', name, traffic, now, stamp)
    ensures name in s'.clients && Carried(s, s', name) && SameAgreement(s.clients[name], s'.clients[name])
    ensures s'.clients[name].credentials.Keys == s.clients[name].credentials.Keys
  {
    var e := s.clients[name];
    assert MirrorOf(s, name) && EntryOk(s.inbounds, name, e);
    if Verdict(e, traffic, name, now).NowEnabled? {
      PolicyOnKeeps(s, s', name, e);
    } else {
      PolicyOffKeeps(s, s', name, e, ReconcileMark(e, traffic, name, now, stamp));
    }
  }

  lemma EnforceStep(s: State, s': State, op: Op, name: string)
    requires Consistent(s) && Step(s, s', op) && op.Enforce? && name in s.clients && name in s'.clients
    ensures KeepsClient(s, s', op, name)
  {
    var reactivated, due :| Enforced(s, s', op.traffic, op.now, op.stamp, reactivated, due);
    assert MirrorOf(s, name) && EntryOk(s.inbounds, name, s.clients[name]);
    if name in reactivated {
      assert EnabledAgain(s, s', name);
      PolicyOnKeeps(s, s', name, s.clients[name]);
      UsableAfter(s, s', name);
    } else if name in due {
      DueKeeps(s, s', TrafficRule(op.traffic), op.now, op.stamp, name);
    } else {
      UntouchedKeeps(s, s', op, name);
    }
  }

  lemma DueKeeps(s: State, s': State, rule: Rule, now: Moment, stamp: string, name: string)
    requires Consistent(s) && ValidMoment(now) && DisabledFor(s, s', name, rule, now, stamp)
    ensures name in s'.clients && Carried(s, s', name) && SameAgreement(s.clients[name], s'.clients[name])
    ensures AllUsable(s, name) ==> AllUsable(s', name)
  {
    assert MirrorOf(s, name) && EntryOk(s.inbounds, name, s.clients[name]);
    PolicyOffKeeps(s, s', name, s.clients[name], Mark(rule, s.clients[name], name, now, stamp));
    UsableAfter(s, s', name);
  }

  lemma ExpireStep(s: State, s': State, op: Op, name: string)
    requires Consistent(s) && Step(s, s', op) && op.Expire? && name in s.clients && name in s'.clients
    ensures KeepsClient(s, s', op, name)
  {
    var due :| Expired(s, s', op.now, op.stamp, due);
    if name in due {
      DueKeeps(s, s', AccessRule, op.now, op.stamp, name);
    } else {
      UntouchedKeeps(s, s', op, name);
    }
  }

  lemma RemoveInboundStep(s: State, tag: string, name: string)
    requires Consistent(s) && Find(s.inbounds, tag).Some? && name in s.clients && name in ConnectionRemoved(s, tag).clients
    ensures var s' := ConnectionRemoved(s, tag);
            && Carried(s, s', name) && SameAgreement(s.clients[name], s'.clients[name])
            && (AllUsable(s, name) ==> AllUsable(s', name))
  {
    UserHasCredential(s, tag, name);
    forall t ensures CredentialAt(ConnectionRemoved(s, tag), name, t) == if t == tag then None else CredentialAt(s, name, t) {
      RemovedCredential(s, tag, name, t);
    }
    OneLess(s, ConnectionRemoved(s, tag), name, tag);
    RemovedTerms(s, tag, name);
    UsableAfter(s, ConnectionRemoved(s, tag), name);
  }

  lemma OneLess(s: State, s': State, name: string, tag: string)
    requires name in s.clients && name in s'.clients
    requires forall t :: CredentialAt(s', name, t) == if t == tag then None else CredentialAt(s, name, t)
    ensures Carried(s, s', name) && s'.clients[name].credentials.Keys <= s.clients[name].credentials.Keys
  {
    forall t | t in s'.clients[name].credentials ensures t in s.clients[name].credentials {
      assert CredentialAt(s', name, t).Some?;
    }
  }

  lemma RemovedTerms(s: State, tag: string, name: string)
    requires Find(s.inbounds, tag).Some? && name in s.clients && name in ConnectionRemoved(s, tag).clients
    ensures SameTerms(s.clients[name], ConnectionRemoved(s, tag).clients[name])
  {}

  /** A command on another client leaves this one alone. */
  lemma OthersUntouched(s: State, s': State, op: Op, name: string)
    requires Consistent(s) && Step(s, s', op) && OnClient(op) && op.name != name
    ensures Record(s', name) == Record(s, name)
  {
    if op.ChangeAccess? || op.Enable? {
      OthersServed(s, s', op, name);
    } else {
      assert OnlyClient(s, s', op.name) by {
        match op {
          case Add(other, tag, input) => AddEffect(s, other, tag, input);
          case Move(other, tag) => MoveEffect(s, other, tag);
          case Rotate(other, which, password) => RotateEffect(s, other, which, password);
          case Remove(other) => RemoveEffect(s, other);
          case Disable(other, which, stamp) => DisableEffect(s, s', other, which, stamp);
        }
      }
      assert SameFor(s, s', name);
    }
  }

  lemma OthersServed(s: State, s': State, op: Op, name: string)
    requires Step(s, s', op) && (op.ChangeAccess? || op.Enable?) && op.name != name
    ensures Record(s', name) == Record(s, name)
  {
    if op.ChangeAccess? {
      var s1 := s.(clients := s.clients[op.name := WithDeadline(op.change, s.clients[op.name], op.now)]);
      assert Record(s1, name) == Record(s, name);
    }
  }

  lemma ServingStep(s: State, s': State, op: Op, name: string)
    requires Consistent(s) && Step(s, s', op) && OnClient(op) && op.name == name && name in s.clients && name in s'.clients
    ensures KeepsClient(s, s', op, name)
  {
    if op.Add? || op.Move? {
      PlacingStep(s, s', op, name);
    } else if op.Rotate? {
      RotateStepKeepsClient(s, s', op, name);
    } else if op.ChangeAccess? {
      AccessStepKeepsClient(s, s', op, name);
    } else {
      SwitchingStep(s, s', op, name);
    }
  }

  lemma PlacingStep(s: State, s': State, op: Op, name: string)
    requires Consistent(s) && Step(s, s', op) && (op.Add? || op.Move?) && op.name == name
    requires name in s.clients && name in s'.clients
    ensures KeepsClient(s, s', op, name)
  {
    if op.Add? {
      AddStep(s, name, op.tag, op.input);
    } else {
      MoveStep(s, name, op.tag);
    }
  }

  lemma RotateStepKeepsClient(s: State, s': State, op: Op, name: string)
    requires Consistent(s) && Step(s, s', op) && op.Rotate? && op.name == name && name in s.clients
    ensures name in s'.clients && KeepsClient(s, s', op, name)
  {
    RotateStep(s, name, op.which, op.password);
  }

  lemma SwitchingStep(s: State, s': State, op: Op, name: string)
    requires Consistent(s) && Step(s, s', op) && (op.Enable? || op.Disable? || op.Remove?) && op.name == name
    requires name in s.clients && name in s'.clients
    ensures KeepsClient(s, s', op, name)
  {
    match op {
      case Enable(_, _, _, _) => EnableStepKeeps(s, s', op, name);
      case Disable(_, _, _) => DisableStep(s, s', op, name);
      case Remove(_) =>
    }
  }

  lemma AccessStepKeepsClient(s: State, s': State, op: Op, name: string)
    requires Consistent(s) && Step(s, s', op) && op.ChangeAccess? && op.name == name && name in s.clients
    ensures name in s'.clients && KeepsClient(s, s', op, name)
  {
    AccessStep(s, s', name, op.change, op.traffic, op.now, op.stamp);
  }

  lemma OtherStep(s: State, s': State, op: Op, name: string)
    requires Consistent(s) && Step(s, s', op) && !OnClient(op) && name in s.clients && name in s'.clients
    ensures KeepsClient(s, s', op, name)
  {
    if op.Enforce? {
      EnforceStep(s, s', op, name);
    } else if op.Expire? {
      ExpireStep(s, s', op, name);
    } else if op.RemoveInbound? {
      RemoveInboundStep(s, op.tag, name);
    } else {
      UntouchedKeeps(s, s', op, name);
    }
  }

  /** No command touches a secret but `rotate`, or an agreement but `set-days` and `extend-days`. */
  lemma StepKeepsClient(s: State, s': State, op: Op, name: string)
    requires Consistent(s) && Next(s, s', op) && name in s.clients && name in s'.clients
    ensures KeepsClient(s, s', op, name)
  {
    if Record(s', name) == Record(s, name) {
      UntouchedKeeps(s, s', op, name);
    } else if !OnClient(op) {
      OtherStep(s, s', op, name);
    } else if op.name == name {
      ServingStep(s, s', op, name);
    } else {
      OthersUntouched(s, s', op, name);
    }
  }

  // ---- runs ----

  function SecretAt(s: State, name: string, tag: string): Option<string> {
    var c := CredentialAt(s, name, tag);
    if c.Some? then Some(Secret(c.value)) else None
  }

  /** Over any run in which it is not rotated, a credential that stays keeps its secret. */
  lemma SecretNeverChanges(states: seq<State>, ops: seq<Op>, k: nat, name: string, tag: string)
    requires Run(states, ops) && Good(states[0]) && k <= |ops|
    requires forall i | 0 <= i <= k :: SecretAt(states[i], name, tag).Some?
    requires forall i | 0 <= i < k :: !MayChangeSecret(ops[i], name)
    requires SecretAt(states[0], name, tag) != Some("")
    ensures SecretAt(states[k], name, tag) == SecretAt(states[0], name, tag)
  {
    var secret := SecretAt(states[0], name, tag);
    forall i | 0 <= i < k && SecretAt(states[i], name, tag) == secret ensures SecretAt(states[i + 1], name, tag) == secret {
      SecretStep(states, ops, name, tag, i);
    }
    SecretPersists(states, k, name, tag);
  }

  lemma {:induction false} SecretPersists(states: seq<State>, k: nat, name: string, tag: string)
    requires k < |states|
    requires forall i | 0 <= i < k && SecretAt(states[i], name, tag) == SecretAt(states[0], name, tag) ::
               SecretAt(states[i + 1], name, tag) == SecretAt(states[0], name, tag)
    ensures SecretAt(states[k], name, tag) == SecretAt(states[0], name, tag)
  {
    if k > 0 {
      var i := k - 1;
      SecretPersists(states, i, name, tag);
      assert SecretAt(states[i + 1], name, tag) == SecretAt(states[0], name, tag);
    }
  }

  lemma SecretStep(states: seq<State>, ops: seq<Op>, name: string, tag: string, i: nat)
    requires Run(states, ops) && Good(states[0]) && i < |ops| && !MayChangeSecret(ops[i], name)
    requires SecretAt(states[i], name, tag).Some? && SecretAt(states[i + 1], name, tag).Some?
    requires SecretAt(states[i], name, tag) != Some("")
    ensures SecretAt(states[i + 1], name, tag) == SecretAt(states[i], name, tag)
  {
    RunKeepsGood(states, ops, i);
    NextKeepsSecret(states[i], states[i + 1], ops[i], name, tag);
  }

  lemma NextKeepsSecret(s: State, s': State, op: Op, name: string, tag: string)
    requires Good(s) && Next(s, s', op) && !MayChangeSecret(op, name)
    ensures SecretAt(s, name, tag).Some? && SecretAt(s', name, tag).Some? && SecretAt(s, name, tag) != Some("") ==>
              SecretAt(s', name, tag) == SecretAt(s, name, tag)
  {
    if name in s.clients && name in s'.clients {
      StepKeepsClient(s, s', op, name);
      CarriedSecretAt(s, s', name, tag);
    }
  }

  lemma CarriedSecretAt(s: State, s': State, name: string, tag: string)
    requires Carried(s, s', name)
    ensures SecretAt(s, name, tag).Some? && SecretAt(s', name, tag).Some? && SecretAt(s, name, tag) != Some("") ==>
              SecretAt(s', name, tag) == SecretAt(s, name, tag)
  {
    if SecretAt(s, name, tag).Some? && SecretAt(s', name, tag).Some? {
      assert CarriesOver(CredentialAt(s, name, tag).value, CredentialAt(s', name, tag).value);
    }
  }

  /** Over any run without `set-days` and `extend-days` a client that stays keeps its deadline and its limit. */
  lemma {:induction false} AgreementNeverChanges(states: seq<State>, ops: seq<Op>, k: nat, name: string)
    requires Run(states, ops) && Good(states[0]) && k <= |ops|
    requires forall i | 0 <= i <= k :: name in states[i].clients
    requires forall i | 0 <= i < k :: !MayChangeAgreement(ops[i], name)
    ensures SameAgreement(states[0].clients[name], states[k].clients[name])
  {
    if k > 0 {
      var i := k - 1;
      AgreementNeverChanges(states, ops, i, name);
      RunKeepsGood(states, ops, i);
      NextKeepsAgreement(states[i], states[i + 1], ops[i], name);
    }
  }

  lemma NextKeepsAgreement(s: State, s': State, op: Op, name: string)
    requires Good(s) && Next(s, s', op) && !MayChangeAgreement(op, name) && name in s.clients && name in s'.clients
    ensures SameAgreement(s.clients[name], s'.clients[name])
  {
    StepKeepsClient(s, s', op, name);
  }

  // ---- usable secrets ----

  /** Every stored secret is one with which its credential can be enabled. */
  ghost predicate Usable(s: State) {
    forall n :: AllUsable(s, n)
  }

  /** Whoever is recorded after a command and was not before has been added. */
  lemma NewcomerIsUsable(s: State, s': State, op: Op, name: string)
    requires Good(s) && Next(s, s', op) && name !in s.clients && name in s'.clients && FreshIds(op)
    ensures AllUsable(s', name)
  {
    if !OnClient(op) {
      NobodyNew(s, s', op, name);
    } else if op.name != name {
      OthersUntouched(s, s', op, name);
    } else {
      NewClientIsUsable(s, s', op, name);
    }
  }

  lemma NewClientIsUsable(s: State, s': State, op: Op, name: string)
    requires Consistent(s) && Step(s, s', op) && OnClient(op) && op.name == name && FreshIds(op)
    requires name !in s.clients && name in s'.clients
    ensures AllUsable(s', name)
  {
    match op {
      case Add(_, tag, input) => FirstIsUsable(s, name, tag, input);
      case Move(_, target) => MoveEffect(s, name, target);
      case Rotate(_, which, password) => RotateEffect(s, name, which, password);
      case Disable(_, which, stamp) => DisableEffect(s, s', name, which, stamp);
      case _ =>
    }
  }

  lemma FirstIsUsable(s: State, name: string, tag: string, input: AddInput)
    requires Consistent(s) && ValidName(name) && ValidMoment(input.now) && AddError(s, name, tag, input).None?
    requires name !in s.clients && input.uuid != ""
    ensures AllUsable(Added(s, name, tag, input), name)
  {
    AddEffect(s, name, tag, input);
    var s' := Added(s, name, tag, input);
    IssuedIsUsable(s'.clients[name], CredentialAt(s', name, tag).value, s.inbounds[Find(s.inbounds, tag).value], name,
                   input.uuid, input);
    OneMore(s, s', name, tag);
    OnlyOneIsUsable(s, s', name, tag);
  }

  lemma OnlyOneIsUsable(s: State, s': State, name: string, tag: string)
    requires name !in s.clients && name in s'.clients
    requires forall t | t != tag :: CredentialAt(s', name, t) == CredentialAt(s, name, t)
    requires tag in s'.clients[name].credentials ==> HasSecret(s'.clients[name], s'.clients[name].credentials[tag])
    ensures AllUsable(s', name)
  {
    forall t | t in s'.clients[name].credentials ensures t == tag {
      assert CredentialAt(s', name, t).Some?;
    }
  }

  lemma NobodyNew(s: State, s': State, op: Op, name: string)
    requires Next(s, s', op) && !OnClient(op) && name !in s.clients
    ensures name !in s'.clients
  {
    if s' != s && op.Enforce? {
      var reactivated, due :| Enforced(s, s', op.traffic, op.now, op.stamp, reactivated, due);
      if name !in reactivated + due {
        assert Record(s', name) == Record(s, name);
      }
    } else if s' != s && op.Expire? {
      var due :| Expired(s, s', op.now, op.stamp, due);
      assert name !in due;
      assert Record(s', name) == Record(s, name);
    }
  }

  lemma NextStaysUsable(s: State, s': State, op: Op)
    requires Good(s) && Next(s, s', op) && FreshIds(op) && Usable(s)
    ensures Usable(s')
  {
    forall n ensures AllUsable(s', n) {
      assert AllUsable(s, n);
      if n in s.clients && n in s'.clients {
        StepKeepsClient(s, s', op, n);
      } else if n in s'.clients {
        NewcomerIsUsable(s, s', op, n);
      }
    }
  }

  /** As long as ids are generated, no run ever leaves a secret with which a credential cannot be enabled. */
  lemma {:induction false} RunStaysUsable(states: seq<State>, ops: seq<Op>, k: nat)
    requires Run(states, ops) && Good(states[0]) && Usable(states[0]) && k <= |ops|
    requires forall i | 0 <= i < k :: FreshIds(ops[i])
    ensures Usable(states[k])
  {
    if k > 0 {
      var i := k - 1;
      RunStaysUsable(states, ops, i);
      RunKeepsGood(states, ops, i);
      NextStaysUsable(states[i], states[i + 1], ops[i]);
    }
  }

  /** So at no moment does anything stand in the way of re-enabling: enforcement never raises, and `enable` does so for
      its own reasons only. */
  lemma NothingIsStuck(states: seq<State>, ops: seq<Op>, k: nat, name: string, tag: Option<string>, traffic: Traffic, now: Moment)
    requires Run(states, ops) && Good(states[0]) && Usable(states[0]) && k <= |ops| && ValidMoment(now)
    requires forall i | 0 <= i < k :: FreshIds(ops[i])
    ensures !CannotReturn(states[k], name, traffic, now)
    ensures name in states[k].clients ==>
              var e := states[k].clients[name];
              CannotEnable(states[k], name, tag, TrafficOf(traffic, name), now) <==>
                || AccessExpired(e.expiresAt, now) || OverLimit(e, traffic, name, now)
                || forall t | t in e.credentials && Asked(tag, t) :: e.credentials[t].enabled
  {
    RunStaysUsable(states, ops, k);
    RunKeepsGood(states, ops, k);
    assert AllUsable(states[k], name);
    if name in states[k].clients {
      UsableIsFree(states[k], name);
      EnablesIff(states[k], name, tag, TrafficOf(traffic, name), now);
    }
  }

  lemma UsableIsFree(s: State, name: string)
    requires Consistent(s) && name in s.clients && AllUsable(s, name)
    ensures !Stuck(s.inbounds, name, s.clients[name])
  {
    StuckIff(s, name);
  }
}
