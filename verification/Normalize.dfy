/** Normalizing the credentials of a record: re-keying a dict while iterating over a copy of it. */
module Normalize {
  import opened Wrappers
  import opened Text
  import opened ClientState

  /** A stored value: a credential that may name its connection and its state, or something that is not a dict. */
  datatype Raw = Junk | Dict(connection: string, enabled: Option<bool>, credential: Credential)

  /** The dict as it is iterated: distinct keys in their order, each with its object. */
  datatype Items = Items(keys: seq<string>, objects: seq<Raw>)

  predicate Valid(d: Items) {
    |d.keys| == |d.objects| && forall i, j | 0 <= i < j < |d.keys| :: d.keys[i] != d.keys[j]
  }

  /** The key under which an object belongs. */
  function TagOf(d: Items, i: nat): string
    requires Valid(d) && i < |d.keys| && d.objects[i].Dict?
  {
    Trim(Or(d.objects[i].connection, d.keys[i]))
  }

  predicate Moves(d: Items, i: nat)
    requires Valid(d) && i < |d.keys|
  {
    d.objects[i].Dict? && TagOf(d, i) != d.keys[i]
  }

  function Initial(d: Items, n: nat): map<string, nat>
    requires Valid(d) && n <= |d.keys|
  {
    if n == 0 then map[] else Initial(d, n - 1)[d.keys[n - 1] := n - 1]
  }

  /** Which object the dict holds under each key after the first `k` turns of the loop. */
  function Held(d: Items, k: nat): map<string, nat>
    requires Valid(d) && k <= |d.keys|
  {
    if k == 0 then Initial(d, |d.keys|)
    else
      var before, i := Held(d, k - 1), k - 1;
      if d.objects[i].Junk? then before - {d.keys[i]}
      else if Moves(d, i) then (before - {d.keys[i]})[TagOf(d, i) := i]
      else before
  }

  predicate Holds(m: map<string, nat>, key: string, i: nat) {
    key in m && m[key] == i
  }

  lemma {:induction false} InitialHolds(d: Items, n: nat, key: string, i: nat)
    requires Valid(d) && n <= |d.keys|
    ensures Holds(Initial(d, n), key, i) <==> i < n && key == d.keys[i]
  {
    if n > 0 {
      InitialHolds(d, n - 1, key, i);
    }
  }

  /** An object whose turn has come sits under its own tag; one whose turn has not come, under its old key. */
  lemma {:induction false} HeldUnderTag(d: Items, k: nat, key: string, i: nat)
    requires Valid(d) && k <= |d.keys| && Holds(Held(d, k), key, i)
    ensures i < |d.keys|
    ensures if i < k then d.objects[i].Dict? && key == TagOf(d, i) else key == d.keys[i]
  {
    if k == 0 {
      InitialHolds(d, |d.keys|, key, i);
    } else if !(Moves(d, k - 1) && key == TagOf(d, k - 1)) {
      HeldUnderTag(d, k - 1, key, i);
    }
  }

  /** At the end every key is the connection of the credential under it. */
  lemma KeysAreConnections(d: Items, key: string)
    requires Valid(d) && key in Held(d, |d.keys|)
    ensures var i := Held(d, |d.keys|)[key];
            i < |d.keys| && d.objects[i].Dict? && key == TagOf(d, i)
  {
    HeldUnderTag(d, |d.keys|, key, Held(d, |d.keys|)[key]);
  }

  // ---- which credentials survive ----

  /** An object that stays put was not replaced by an earlier mover. */
  predicate NotReplaced(d: Items, i: nat, k: nat)
    requires Valid(d) && i < |d.keys| && k <= |d.keys|
  {
    forall j | 0 <= j < k && j < i && Moves(d, j) :: TagOf(d, j) != d.keys[i]
  }

  /** A later turn at `j` takes away what is held under the tag of `i`. */
  predicate Evicts(d: Items, j: nat, i: nat)
    requires Valid(d) && i < |d.keys| && j < |d.keys| && d.objects[i].Dict?
  {
    || (d.keys[j] == TagOf(d, i) && (d.objects[j].Junk? || Moves(d, j)))
    || (Moves(d, j) && TagOf(d, j) == TagOf(d, i))
  }

  predicate Survives(d: Items, i: nat, k: nat)
    requires Valid(d) && i < k <= |d.keys| && d.objects[i].Dict?
  {
    && (Moves(d, i) || NotReplaced(d, i, k))
    && forall j | i < j < k :: !Evicts(d, j, i)
  }

  /** One turn of the loop, for an object whose turn it is not. */
  lemma HeldStep(d: Items, k: nat, key: string, i: nat)
    requires Valid(d) && k < |d.keys| && i != k
    ensures Holds(Held(d, k + 1), key, i) <==>
              && Holds(Held(d, k), key, i)
              && !(key == d.keys[k] && (d.objects[k].Junk? || Moves(d, k)))
              && !(Moves(d, k) && key == TagOf(d, k))
  {}

  /** Before its turn an object is still under its key exactly when no mover has landed there. */
  lemma {:induction false} Waiting(d: Items, i: nat, k: nat)
    requires Valid(d) && k <= i < |d.keys|
    ensures Holds(Held(d, k), d.keys[i], i) <==> NotReplaced(d, i, k)
  {
    if k == 0 {
      InitialHolds(d, |d.keys|, d.keys[i], i);
    } else {
      Waiting(d, i, k - 1);
      HeldStep(d, k - 1, d.keys[i], i);
      assert NotReplaced(d, i, k) <==> NotReplaced(d, i, k - 1) && !(Moves(d, k - 1) && TagOf(d, k - 1) == d.keys[i]);
    }
  }

  lemma SurvivesStep(d: Items, i: nat, k: nat)
    requires Valid(d) && i < k < |d.keys| && d.objects[i].Dict?
    ensures Survives(d, i, k + 1) <==> Survives(d, i, k) && !Evicts(d, k, i)
  {
    assert NotReplaced(d, i, k + 1) <==> NotReplaced(d, i, k);
  }

  /** Exactly which credentials the loop keeps. */
  lemma {:induction false} KeptIff(d: Items, i: nat, k: nat)
    requires Valid(d) && i < k <= |d.keys| && d.objects[i].Dict?
    ensures Holds(Held(d, k), TagOf(d, i), i) <==> Survives(d, i, k)
    decreases k
  {
    if i == k - 1 {
      Waiting(d, i, i);
      assert NotReplaced(d, i, k) <==> NotReplaced(d, i, i);
    } else {
      KeptIff(d, i, k - 1);
      HeldStep(d, k - 1, TagOf(d, i), i);
      SurvivesStep(d, i, k - 1);
    }
  }

  predicate AllDicts(d: Items) {
    forall i | 0 <= i < |d.objects| :: d.objects[i].Dict?
  }

  /** No two credentials belong under one key, and no mover lands on the key of a later mover. */
  predicate NoClash(d: Items)
    requires Valid(d) && AllDicts(d)
  {
    && (forall i, j | 0 <= i < j < |d.keys| :: TagOf(d, i) != TagOf(d, j))
    && (forall i, j | 0 <= i < j < |d.keys| && Moves(d, i) && Moves(d, j) :: TagOf(d, i) != d.keys[j])
  }

  /** Re-keying loses nothing exactly when there is no clash; a swap of two keys always loses one. */
  lemma NothingLostIff(d: Items)
    requires Valid(d) && AllDicts(d)
    ensures (forall i | 0 <= i < |d.keys| :: Holds(Held(d, |d.keys|), TagOf(d, i), i)) <==> NoClash(d)
  {
    var n := |d.keys|;
    forall i | 0 <= i < n ensures Holds(Held(d, n), TagOf(d, i), i) <==> Survives(d, i, n) {
      KeptIff(d, i, n);
    }
    if NoClash(d) {
      forall i | 0 <= i < n ensures Survives(d, i, n) {
        NoClashSurvives(d, i);
      }
    } else {
      ClashLoses(d);
    }
  }

  lemma NoClashSurvives(d: Items, i: nat)
    requires Valid(d) && AllDicts(d) && NoClash(d) && i < |d.keys|
    ensures Survives(d, i, |d.keys|)
  {
    forall j | i < j < |d.keys| ensures !Evicts(d, j, i) {
      assert TagOf(d, i) != TagOf(d, j);
      assert d.keys[i] != d.keys[j];
    }
  }

  lemma ClashLoses(d: Items)
    requires Valid(d) && AllDicts(d) && !NoClash(d)
    ensures exists i | 0 <= i < |d.keys| :: !Survives(d, i, |d.keys|)
  {
    var n := |d.keys|;
    if i, j :| 0 <= i < j < n && TagOf(d, i) == TagOf(d, j) {
      if Moves(d, j) {
        assert Evicts(d, j, i) && !Survives(d, i, n);
      } else {
        assert d.keys[i] != d.keys[j];
        assert Moves(d, i) && !NotReplaced(d, j, n) && !Survives(d, j, n);
      }
    } else {
      var i, j :| 0 <= i < j < n && Moves(d, i) && Moves(d, j) && TagOf(d, i) == d.keys[j];
      assert Evicts(d, j, i) && !Survives(d, i, n);
    }
  }

  /** Two keys that name each other: the loop loses the first credential. */
  lemma SwapLosesOne(c: Credential)
    ensures var d := Items(["a", "b"], [Dict("b", None, c), Dict("a", None, c)]);
            Valid(d) && AllDicts(d) && !NoClash(d) && Held(d, 2) == map["a" := 1]
  {
    var d := Items(["a", "b"], [Dict("b", None, c), Dict("a", None, c)]);
    assert TagOf(d, 0) == "b" && TagOf(d, 1) == "a";
    TwoItems(d, "a", "b");
    assert TagOf(d, 0) != TagOf(d, 1) && Moves(d, 0) && Moves(d, 1) && TagOf(d, 0) == d.keys[1];
  }

  /** The loop over two values that belong under each other's keys. */
  lemma TwoItems(d: Items, a: string, b: string)
    requires Valid(d) && d.keys == [a, b] && AllDicts(d) && TagOf(d, 0) == b && TagOf(d, 1) == a
    ensures Held(d, 2) == map[a := 1]
  {
    assert Initial(d, 1) == map[a := 0] && Initial(d, 2) == map[a := 0, b := 1];
    assert Held(d, 1) == map[b := 0];
  }

  // ---- when nothing is left ----

  /** Every credential belongs under the key of a later value. */
  predicate Emptied(d: Items)
    requires Valid(d)
  {
    forall i | 0 <= i < |d.keys| && d.objects[i].Dict? :: TagOf(d, i) in d.keys[i + 1..]
  }

  /** A key that no later turn takes away stays occupied once its own credential has had its turn. */
  lemma {:induction false} Occupied(d: Items, i: nat, k: nat)
    requires Valid(d) && i < k <= |d.keys| && d.objects[i].Dict? && TagOf(d, i) !in d.keys[i + 1..]
    ensures TagOf(d, i) in Held(d, k)
    decreases k
  {
    if i == k - 1 {
      if !Moves(d, i) {
        StaysOccupied(d, i, i);
      }
    } else {
      Occupied(d, i, k - 1);
      assert d.keys[k - 1] == d.keys[i + 1..][k - 1 - (i + 1)];
    }
  }

  /** The key of an object whose turn has not come is never taken away. */
  lemma {:induction false} StaysOccupied(d: Items, i: nat, k: nat)
    requires Valid(d) && k <= i < |d.keys|
    ensures d.keys[i] in Held(d, k)
  {
    if k == 0 {
      InitialHolds(d, |d.keys|, d.keys[i], i);
    } else {
      StaysOccupied(d, i, k - 1);
    }
  }

  /** The dict ends up empty exactly when every credential belongs under the key of a later value; in particular when
      there is no credential at all, and never when every value is a credential. */
  lemma EmptyIff(d: Items)
    requires Valid(d)
    ensures Held(d, |d.keys|) == map[] <==> Emptied(d)
    ensures AllDicts(d) && d.keys != [] ==> !Emptied(d)
  {
    var n := |d.keys|;
    if i :| 0 <= i < n && d.objects[i].Dict? && TagOf(d, i) !in d.keys[i + 1..] {
      Occupied(d, i, n);
    } else if key :| key in Held(d, n) {
      KeysAreConnections(d, key);
      NotEmptied(d, Held(d, n)[key]);
    }
    if AllDicts(d) && n > 0 {
      assert d.keys[n - 1 + 1..] == [];
      assert d.objects[n - 1].Dict?;
    }
  }

  /** The holder of a key shows that the dict is not emptied: what follows it with that key would have to stay. */
  lemma NotEmptied(d: Items, i: nat)
    requires Valid(d) && i < |d.keys| && d.objects[i].Dict? && Holds(Held(d, |d.keys|), TagOf(d, i), i)
    ensures !Emptied(d)
  {
    KeptIff(d, i, |d.keys|);
    if TagOf(d, i) in d.keys[i + 1..] {
      var m :| 0 <= m < |d.keys[i + 1..]| && d.keys[i + 1..][m] == TagOf(d, i);
      var j := i + 1 + m;
      assert d.keys[j] == TagOf(d, i) && !Evicts(d, j, i);
      assert TagOf(d, j) == d.keys[j];
      assert TagOf(d, j) !in d.keys[j + 1..];
    }
  }

  // ---- the record ----

  /** A record before normalization: its fields and its dict. */
  datatype RawRecord = RawRecord(fields: Entry, dict: Items)

  /** `legacy_credential_from_entry`: the credential that the repeated fields amount to, if they name a connection and
      a client. */
  function LegacyOf(e: Entry): (r: Option<(string, Credential)>)
    ensures r.Some? ==> Trim(r.value.0) == r.value.0
  {
    var tag := Trim(e.connection);
    TrimIdempotent(e.connection);
    if tag == "" || e.client == NO_ITEM then None
    else Some((tag, Credential(Or(e.client.id, e.id), e.protocol, "", "", e.enabled, e.created, e.client)))
  }

  /** The legacy credential comes in only when there are no credentials. */
  function Source(r: RawRecord): Items {
    var legacy := LegacyOf(r.fields);
    if r.dict.keys == [] && legacy.Some?
    then Items([legacy.value.0], [Dict(legacy.value.0, Some(r.fields.enabled), legacy.value.1)])
    else r.dict
  }

  /** `setdefault("enabled", ...)`. */
  function Filled(o: Raw, entryEnabled: bool): Credential
    requires o.Dict?
  {
    o.credential.(enabled := if o.enabled.Some? then o.enabled.value else entryEnabled)
  }

  function Credentials(d: Items, entryEnabled: bool): map<string, Credential>
    requires Valid(d)
  {
    map key | key in Held(d, |d.keys|) && Held(d, |d.keys|)[key] < |d.keys| && d.objects[Held(d, |d.keys|)[key]].Dict? ::
      Filled(d.objects[Held(d, |d.keys|)[key]], entryEnabled)
  }

  lemma CredentialsAt(d: Items, entryEnabled: bool, key: string)
    requires Valid(d)
    ensures key in Credentials(d, entryEnabled) <==> key in Held(d, |d.keys|)
    ensures key in Held(d, |d.keys|) ==>
              var i := Held(d, |d.keys|)[key];
              i < |d.keys| && d.objects[i].Dict? && Credentials(d, entryEnabled)[key] == Filled(d.objects[i], entryEnabled)
  {
    if key in Held(d, |d.keys|) {
      KeysAreConnections(d, key);
    }
  }

  function Normalized(r: RawRecord): Entry
    requires Valid(r.dict)
  {
    Sync(r.fields.(credentials := Credentials(Source(r), r.fields.enabled)))
  }

  /** `normalize_entry_credentials`. */
  method NormalizeEntryCredentials(r: RawRecord) returns (e: Entry)
    requires Valid(r.dict)
    ensures e == Normalized(r)
  {
    var d := Source(r);
    var n := |d.keys|;
    var held: map<string, nat> := Initial(d, n);
    var filled: map<nat, Credential> := map[];
    for i := 0 to n
      invariant held == Held(d, i)
      invariant forall j: nat :: j in filled <==> j < i && d.objects[j].Dict?
      invariant forall j | j in filled :: filled[j] == Filled(d.objects[j], r.fields.enabled)
    {
      var key := d.keys[i];
      if d.objects[i].Junk? {
        held := held - {key};
      } else {
        var tag := Trim(Or(d.objects[i].connection, key));
        if tag != key {
          held := held - {key};
          held := held[tag := i];
        }
        filled := filled[i := Filled(d.objects[i], r.fields.enabled)];
      }
    }
    forall key | key in held ensures held[key] in filled {
      KeysAreConnections(d, key);
    }
    var credentials := map key | key in held :: filled[held[key]];
    assert credentials == Credentials(d, r.fields.enabled) by {
      forall key | key in held ensures held[key] < |d.keys| && d.objects[held[key]].Dict? {
        KeysAreConnections(d, key);
      }
    }
    e := Sync(r.fields.(credentials := credentials));
  }

  lemma CredentialsEmptyIff(r: RawRecord)
    requires Valid(r.dict)
    ensures Normalized(r).credentials == map[] <==> Emptied(Source(r))
  {
    var d := Source(r);
    EmptyIff(d);
    if key :| key in Held(d, |d.keys|) {
      CredentialsAt(d, r.fields.enabled, key);
    }
    if key :| key in Credentials(d, r.fields.enabled) {
      CredentialsAt(d, r.fields.enabled, key);
    }
  }

  /** A credential is the stored one; without a state of its own it is as enabled as the record. */
  predicate AsStored(r: RawRecord, i: nat, c: Credential)
    requires Valid(r.dict)
  {
    && i < |Source(r).objects| && Source(r).objects[i].Dict?
    && var o := Source(r).objects[i];
       && c == o.credential.(enabled := c.enabled)
       && (c.enabled <==> match o.enabled case Some(enabled) => enabled case None => r.fields.enabled)
  }

  /** The repeated fields afterwards name one of the credentials and sum up their state, unless none is left. */
  lemma NormalizedFields(r: RawRecord)
    requires Valid(r.dict) && !Emptied(Source(r))
    ensures var e := Normalized(r);
            && Sync(e) == e && Repeats(e)
            && forall key | key in e.credentials ::
                 key in Held(Source(r), |Source(r).keys|) && AsStored(r, Held(Source(r), |Source(r).keys|)[key], e.credentials[key])
  {
    CredentialsEmptyIff(r);
    SyncIdempotent(r.fields.(credentials := Credentials(Source(r), r.fields.enabled)));
    SyncedIff(Normalized(r));
    forall key | key in Normalized(r).credentials
      ensures key in Held(Source(r), |Source(r).keys|)
              && AsStored(r, Held(Source(r), |Source(r).keys|)[key], Normalized(r).credentials[key]) {
      CredentialsAt(Source(r), r.fields.enabled, key);
    }
  }

  /** A record without credentials gets exactly the one that its fields amount to, under the connection they name, and
      is left alone when they name no connection or no client. */
  lemma LegacyBecomesCredential(r: RawRecord)
    requires Valid(r.dict) && r.dict.keys == []
    ensures var e, tag := Normalized(r), Trim(r.fields.connection);
            if tag == "" || r.fields.client == NO_ITEM then e == r.fields.(credentials := map[])
            else
              && e.credentials.Keys == {tag} && Repeats(e)
              && var c := e.credentials[tag];
                 && c.client == r.fields.client && c.protocol == r.fields.protocol && c.created == r.fields.created
                 && c.enabled == r.fields.enabled && c.id == (if c.client.id != "" then c.client.id else r.fields.id)
  {
    var d, tag, credentials := Source(r), Trim(r.fields.connection), Credentials(Source(r), r.fields.enabled);
    if tag == "" || r.fields.client == NO_ITEM {
      assert Held(d, 0) == map[] && credentials == map[];
    } else {
      assert TagOf(d, 0) == tag;
      assert Held(d, 1) == Held(d, 0) == Initial(d, 1) == map[tag := 0];
      assert credentials.Keys == {tag};
      assert tag in credentials;
      SyncRepeats(r.fields.(credentials := credentials));
    }
  }

  // ---- normalizing again ----

  /** The record as the next call finds it, with its keys in any order. */
  function Again(e: Entry, keys: seq<string>): RawRecord
    requires forall k | k in keys :: k in e.credentials
  {
    RawRecord(e, Items(keys, seq(|keys|, i requires 0 <= i < |keys| => Stored(keys[i], e.credentials[keys[i]]))))
  }

  /** A normalized credential as it is found again: it names its connection and its state. */
  function Stored(key: string, c: Credential): Raw {
    Dict(key, Some(c.enabled), c)
  }

  /** The keys of a record's credentials, each once. */
  ghost predicate Enumerates(keys: seq<string>, e: Entry) {
    && (forall k :: k in keys <==> k in e.credentials)
    && forall i, j | 0 <= i < j < |keys| :: keys[i] != keys[j]
  }

  lemma {:induction false} NobodyMoves(d: Items, k: nat)
    requires Valid(d) && k <= |d.keys|
    requires forall i | 0 <= i < |d.keys| :: d.objects[i].Dict? && !Moves(d, i)
    ensures Held(d, k) == Initial(d, |d.keys|)
  {
    if k > 0 {
      NobodyMoves(d, k - 1);
    }
  }

  lemma TagsAreTrimmed(r: RawRecord, key: string)
    requires Valid(r.dict) && key in Normalized(r).credentials
    ensures Trim(key) == key
  {
    var d := Source(r);
    CredentialsAt(d, r.fields.enabled, key);
    KeysAreConnections(d, key);
    var i := Held(d, |d.keys|)[key];
    TrimIdempotent(Or(d.objects[i].connection, d.keys[i]));
  }

  /** The first call drops everything that the dict holds, although the repeated fields supply a credential. */
  predicate Refilled(r: RawRecord)
    requires Valid(r.dict)
  {
    r.dict.keys != [] && Emptied(r.dict) && LegacyOf(r.fields).Some?
  }

  /** Normalizing twice is normalizing once exactly when the first call does not leave it to the second to bring the
      legacy credential in. */
  lemma NormalizeTwice(r: RawRecord, keys: seq<string>)
    requires Valid(r.dict) && Enumerates(keys, Normalized(r))
    ensures Valid(Again(Normalized(r), keys).dict)
    ensures Normalized(Again(Normalized(r), keys)) == Normalized(r) <==> !Refilled(r)
  {
    var e := Normalized(r);
    var again := Again(e, keys);
    CredentialsEmptyIff(r);
    SyncIdempotent(r.fields.(credentials := Credentials(Source(r), r.fields.enabled)));
    if keys == [] {
      NothingLeft(r, keys);
    } else {
      assert keys[0] in e.credentials;
      SourceKept(r);
      forall i | 0 <= i < |keys| ensures !Moves(again.dict, i) {
        assert keys[i] in keys;
        TagsAreTrimmed(r, keys[i]);
      }
      SameCredentials(again, e, keys);
    }
  }

  /** When something is left, the record is not of the kind that the second call refills. */
  lemma SourceKept(r: RawRecord)
    requires Valid(r.dict) && Normalized(r).credentials != map[]
    ensures !Refilled(r)
  {
    CredentialsEmptyIff(r);
  }

  lemma NothingLeft(r: RawRecord, keys: seq<string>)
    requires Valid(r.dict) && Enumerates(keys, Normalized(r)) && keys == []
    ensures Normalized(Again(Normalized(r), keys)) == Normalized(r) <==> !Refilled(r)
  {
    var e := Normalized(r);
    assert e.credentials == map[] by {
      forall k ensures k !in e.credentials { assert k in keys <==> k in e.credentials; }
    }
    CredentialsEmptyIff(r);
    assert LegacyOf(e) == LegacyOf(r.fields);
    var again := Again(e, keys);
    if LegacyOf(e).Some? {
      EmptyIff(Source(r));
      CredentialsEmptyIff(again);
      EmptyIff(Source(again));
    } else {
      assert Credentials(again.dict, e.enabled) == map[];
      assert e.(credentials := map[]) == e;
    }
  }

  /** With credentials only, normalizing is idempotent. */
  lemma NormalizeDictsTwice(r: RawRecord, keys: seq<string>)
    requires Valid(r.dict) && AllDicts(r.dict) && Enumerates(keys, Normalized(r))
    ensures Valid(Again(Normalized(r), keys).dict) && Normalized(Again(Normalized(r), keys)) == Normalized(r)
  {
    EmptyIff(r.dict);
    NormalizeTwice(r, keys);
  }

  const NAMED := Item("", "uuid", "", "")
  const LEGACY := Entry("uuid", "t", true, "c", Vless, NAMED, false, None, None, NOT_DISABLED, map[])
  const NAMING := Credential("uuid", Vless, "", "", true, "t", NAMED)

  /** A credential that belongs under the key of a later value which is none: the first call drops both, and the
      second brings the legacy credential in. */
  lemma SecondCallRefills()
    ensures var r := RawRecord(LEGACY, Items(["a", "b"], [Dict("b", None, NAMING), Junk]));
            && Valid(r.dict) && Refilled(r)
            && Normalized(r).credentials == map[] && "c" in Normalized(Again(Normalized(r), [])).credentials
  {
    var r := RawRecord(LEGACY, Items(["a", "b"], [Dict("b", None, NAMING), Junk]));
    assert TagOf(r.dict, 0) == "b" && r.dict.keys[1..] == ["b"];
    assert LegacyOf(LEGACY).Some?;
    CredentialsEmptyIff(r);
    var again := Again(Normalized(r), []);
    var d := Source(again);
    assert d.keys == ["c"] && TagOf(d, 0) == "c";
    StaysOccupied(d, 0, 0);
    Occupied(d, 0, 1);
    CredentialsAt(d, again.fields.enabled, "c");
  }

  lemma SameCredentials(again: RawRecord, e: Entry, keys: seq<string>)
    requires forall k :: k in keys <==> k in e.credentials
    requires keys != [] && again == Again(e, keys) && Valid(again.dict)
    requires forall i | 0 <= i < |keys| :: !Moves(again.dict, i)
    ensures Credentials(Source(again), e.enabled) == e.credentials
  {
    var d := again.dict;
    forall key ensures At(Credentials(d, e.enabled), key) == At(e.credentials, key) {
      SameAt(d, e, keys, key);
    }
    AtExtensional(Credentials(d, e.enabled), e.credentials);
  }

  lemma SameAt(d: Items, e: Entry, keys: seq<string>, key: string)
    requires Valid(d) && d.keys == keys && forall k :: k in keys <==> k in e.credentials
    requires forall i | 0 <= i < |keys| ::
               d.objects[i] == Stored(keys[i], e.credentials[keys[i]]) && !Moves(d, i)
    ensures At(Credentials(d, e.enabled), key) == At(e.credentials, key)
  {
    NobodyMoves(d, |keys|);
    CredentialsAt(d, e.enabled, key);
    if key in e.credentials {
      var i :| 0 <= i < |keys| && keys[i] == key;
      InitialHolds(d, |keys|, key, i);
    } else if key in Held(d, |keys|) {
      InitialHolds(d, |keys|, key, Held(d, |keys|)[key]);
    }
  }
}
