/** The premises of the main results can be met: a server with one Reality connection and one client. */
module Examples {
  import opened Wrappers
  import opened Text
  import Email
  import opened Calendar
  import opened Limits
  import opened ClientState
  import opened Credentials
  import opened Switching
  import opened Connections
  import opened Policy
  import opened Enforcement
  import opened Ticks
  import opened Runs
  import opened Terms

  const NAME := "alice"
  const ITEM := Item(Email.EmailForClient(NAME, "t", INBOUND_TAG), "uuid", "", VISION_FLOW)
  const INBOUND := Inbound(INBOUND_TAG, Vless, "reality", "tcp", "0.0.0.0", 443, [ITEM])
  const CREDENTIAL := Credential("uuid", Vless, "reality", "tcp", true, "t", ITEM)
  const ENTRY := Entry("uuid", "t", true, INBOUND_TAG, Vless, ITEM, false, None, Some(Limit(Daily, 10)), NOT_DISABLED,
                       map[INBOUND_TAG := CREDENTIAL])
  const SERVER := State([INBOUND], map[], map[NAME := ENTRY])

  lemma NameIsValid()
    ensures ValidName(NAME) && Name(ITEM) == NAME && OwnEmail(NAME, ITEM)
  {
    Email.NameOfEmail(NAME, "t", INBOUND_TAG);
    TrimKeepsName(NAME, ITEM.email);
  }

  lemma TheOnlyInbound(tag: string)
    ensures Find(SERVER.inbounds, tag) == if tag == INBOUND_TAG then Some(0) else None
  {
    FindSpec(SERVER.inbounds, tag);
    if tag == INBOUND_TAG {
      FindUnique(SERVER.inbounds, 0);
    }
  }

  lemma EntryIsOk()
    ensures EntryOk(SERVER.inbounds, NAME, ENTRY)
  {
    NameIsValid();
    TheOnlyInbound(INBOUND_TAG);
    assert INBOUND_TAG in ENTRY.credentials;
    assert AnyEnabled(ENTRY.credentials);
  }

  lemma ServerMirrors(name: string)
    ensures MirrorOf(SERVER, name)
  {
    NameIsValid();
    forall tag ensures MirrorAt(SERVER, name, tag) {
      TheOnlyInbound(tag);
      OnlySingle(ITEM, name);
    }
  }

  lemma ServerIsConsistent()
    ensures Consistent(SERVER)
  {
    EntryIsOk();
    forall name ensures MirrorOf(SERVER, name) {
      ServerMirrors(name);
    }
  }

  lemma ServerIsGood()
    ensures Good(SERVER) && Enabled(SERVER, NAME, INBOUND_TAG)
  {
    ServerIsConsistent();
    assert SERVER.inbounds == [] + [INBOUND];
    CountsAppend([], INBOUND);
  }

  lemma ServerIsUsable()
    ensures Usable(SERVER)
  {
    forall n ensures AllUsable(SERVER, n) {}
  }

  const NOON := Moment(Date(2024, 12, 31), 43200)
  const MIDNIGHT := Moment(Date(2025, 1, 1), 0)
  const HEAVY: Traffic := map[NAME := map[Date(2024, 12, 31) := [Bucket(7, 5)]]]

  /** On the last day of a year the client is over its daily limit; at midnight the same record would return. */
  lemma LimitAtNewYear()
    ensures Due(SERVER, NAME, TrafficRule(HEAVY), NOON)
    ensures var marked := ENTRY.(enabled := false, disabled := Mark(TrafficRule(HEAVY), ENTRY, NAME, NOON, "t"));
            && DisabledAtTick(marked, Limit(Daily, 10), NOON)
            && !MayReturn(marked, NAME, Limit(Daily, 10), NOON, HEAVY, NOON)
            && MayReturn(marked, NAME, Limit(Daily, 10), NOON, HEAVY, MIDNIGHT)
  {
    ServerIsConsistent();
    ActiveIsEnabled(SERVER, NAME);
    BucketsAppend([], Bucket(7, 5));
    assert [] + [Bucket(7, 5)] == [Bucket(7, 5)];
  }

  // ---- one client that cannot return keeps another from being disabled ----

  const BOB := "bob"
  const TROJAN := Inbound(TROJAN_INBOUND_TAG, Trojan, "tls", "tcp", "0.0.0.0", 8443, [])
  const SHORT := Item("", "uuid-b", "short", "")
  const WEAK := Credential("uuid-b", Trojan, "tls", "tcp", false, "t", SHORT)
  const YESTERDAY := DisabledState("t", TrafficLimitReached, "", "t", Some(DayKey(Date(2024, 12, 30))), 12,
                                   Some(Moment(Date(2024, 12, 31), 0)))
  const BOBS_ENTRY := Entry("uuid-b", "t", false, TROJAN_INBOUND_TAG, Trojan, SHORT, false, None, Some(Limit(Daily, 10)),
                            YESTERDAY, map[TROJAN_INBOUND_TAG := WEAK])
  const TWO_INBOUNDS := State([INBOUND, TROJAN], map[], map[NAME := ENTRY])
  const WITH_BOB := State([INBOUND, TROJAN], map[], map[NAME := ENTRY, BOB := BOBS_ENTRY])

  lemma TwoInboundsConsistent()
    ensures Consistent(TWO_INBOUNDS)
  {
    ServerIsConsistent();
    assert SERVER.inbounds + [TROJAN] == TWO_INBOUNDS.inbounds;
    assert "trojan-tls"[..10] == "trojan-tls";
    forall t ensures Served(TWO_INBOUNDS.inbounds, t)
                  == if t == TROJAN_INBOUND_TAG then Some((Protocol.Trojan, [])) else Served(SERVER.inbounds, t) {
      ServedAppend(SERVER.inbounds, TROJAN, t);
    }
    TheOnlyInbound(TROJAN_INBOUND_TAG);
    ServedKeeps(SERVER, TWO_INBOUNDS);
  }

  lemma TrojanIsSecond()
    ensures Find(WITH_BOB.inbounds, TROJAN_INBOUND_TAG) == Some(1)
  {
    TwoInboundsConsistent();
    assert "trojan-tls"[..10] == "trojan-tls";
    FindUnique(TWO_INBOUNDS.inbounds, 1);
  }

  lemma BobIsOk()
    ensures EntryOk(TWO_INBOUNDS.inbounds, BOB, BOBS_ENTRY) && MirrorOf(WITH_BOB, BOB)
  {
    TrojanIsSecond();
    assert TROJAN_INBOUND_TAG in BOBS_ENTRY.credentials;
    assert !AnyEnabled(BOBS_ENTRY.credentials);
    NameIsValid();
    OnlySingle(ITEM, BOB);
    forall tag ensures MirrorAt(WITH_BOB, BOB, tag) {
      FindSpec(WITH_BOB.inbounds, tag);
    }
  }

  lemma WithBobConsistent()
    ensures Consistent(WITH_BOB)
  {
    TwoInboundsConsistent();
    BobIsOk();
    SameExceptRefl(TWO_INBOUNDS.inbounds, {BOB});
    assert WITH_BOB == State(TWO_INBOUNDS.inbounds, map[], TWO_INBOUNDS.clients[BOB := BOBS_ENTRY]);
    KeepsRecord(TWO_INBOUNDS, TWO_INBOUNDS.inbounds, BOB, BOBS_ENTRY);
  }

  /** The client that is due stays active, because enforcement raises on the other one. */
  lemma OneStuckClientBlocksEnforcement()
    ensures Consistent(WITH_BOB) && CannotReturn(WITH_BOB, BOB, HEAVY, NOON)
    ensures Due(WITH_BOB, NAME, TrafficRule(HEAVY), NOON)
  {
    WithBobConsistent();
    TrojanIsSecond();
    BobIsStuck();
    ActiveIsEnabled(WITH_BOB, NAME);
    LimitAtNewYear();
  }

  lemma BobIsStuck()
    ensures Stuck(WITH_BOB.inbounds, BOB, BOBS_ENTRY)
  {
    TrojanIsSecond();
    var e := Sync(BOBS_ENTRY);
    assert |Trim("short")| <= 5;
    assert NeedsEnable(WITH_BOB.inbounds, BOB, e, TROJAN_INBOUND_TAG);
    assert XrayClient(BOB, e, TROJAN_INBOUND_TAG, WEAK).Err?;
    assert Blocked(WITH_BOB.inbounds, BOB, e, TROJAN_INBOUND_TAG);
  }
}
