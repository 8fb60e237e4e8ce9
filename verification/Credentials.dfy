/** Putting one credential into its inbound and taking it out again. */
module Credentials {
  import opened Wrappers
  import opened Text
  import Email
  import opened ClientState

  const PASSWORD_MIN_LENGTH := 32
  const PASSWORD_MAX_LENGTH := 128
  const VISION_FLOW := "xtls-rprx-vision"

  predicate UrlSafe(c: char) {
    'A' <= c <= 'Z' || 'a' <= c <= 'z' || '0' <= c <= '9' || c == '_' || c == '-'
  }

  /** `trojan_password_policy_issues` finds nothing. */
  predicate ValidPassword(p: string) {
    PASSWORD_MIN_LENGTH <= |p| <= PASSWORD_MAX_LENGTH && forall c | c in p :: UrlSafe(c)
  }

  function Transport(i: Inbound): string {
    Or(i.network, "tcp")
  }

  /** `apply_client_transport`. */
  function WithTransport(item: Item, transport: string): Item {
    if transport != "tcp" then item.(flow := "")
    else item.(flow := Or(item.flow, VISION_FLOW))
  }

  /** `credential_email`. */
  function CredentialEmail(name: string, e: Entry, tag: string, c: Credential): string {
    Or(Trim(c.client.email), Email.EmailForClient(name, Or(c.created, e.created), tag))
  }

  /** `xray_client_for_credential`. */
  function XrayClient(name: string, e: Entry, tag: string, c: Credential): Result<Item, Error> {
    var email := CredentialEmail(name, e, tag, c);
    if c.protocol.Trojan? then
      var password := Trim(c.client.password);
      if ValidPassword(password) then Ok(Item(email, "", password, "")) else Err(InvalidPassword)
    else
      var id := Or(c.client.id, Or(c.id, e.id));
      if id != "" then Ok(c.client.(id := id, email := email)) else Err(NoUuid)
  }

  /** What a client dials in with, as the record stores it: the trimmed password, or the id. */
  function Secret(c: Credential): string {
    if c.protocol.Trojan? then Trim(c.client.password) else c.client.id
  }

  /** The first id on record for a credential. */
  function FirstId(e: Entry, c: Credential): string {
    if c.client.id != "" then c.client.id else if c.id != "" then c.id else e.id
  }

  /** The ids of an enabled credential: the first ones on record. */
  predicate KeepsIds(e: Entry, before: Credential, after: Credential) {
    && after.client.id == (if !after.protocol.Trojan? then FirstId(e, before) else if before.id != "" then before.id else e.id)
    && after.id == (if before.id != "" then before.id else if after.client.id != "" then after.client.id else e.id)
  }

  /** The stored block repeats the item; only a Trojan credential adds an id of its own. */
  predicate Refilled(c: Credential, item: Item) {
    c.client == item.(id := c.client.id) && (!c.protocol.Trojan? ==> c.client == item)
  }

  /** A VLESS client has a flow exactly over plain TCP. */
  predicate FlowFits(i: Inbound, item: Item) {
    i.protocol.Vless? ==> (item.flow != "" <==> i.network == "" || i.network == "tcp")
  }

  /** A credential describes the inbound it belongs to. */
  predicate Describes(c: Credential, i: Inbound) {
    && c.protocol == i.protocol && c.security == i.security && c.transport == (if i.network == "" then "tcp" else i.network)
    && FlowFits(i, c.client)
  }

  /** The item written to the inbound and the credential written back to the record. */
  function Upserted(inbounds: seq<Inbound>, name: string, e: Entry, tag: string): Result<(Item, Credential), Error>
    requires tag in e.credentials
  {
    var c := e.credentials[tag];
    match Find(inbounds, tag)
    case None => Err(ConnectionNotFound)
    case Some(k) =>
      var i := inbounds[k];
      match XrayClient(name, e, tag, c)
      case Err(error) => Err(error)
      case Ok(client) =>
        var item := if i.protocol.Vless? then WithTransport(client, Transport(i)) else client;
        var stored := if i.protocol.Trojan? then item.(id := Or(c.id, e.id)) else item;
        Ok((item, c.(client := stored, id := Or(c.id, Or(stored.id, e.id)), protocol := i.protocol,
                     security := i.security, transport := Transport(i), enabled := true)))
  }

  lemma UpsertedFrame(a: seq<Inbound>, b: seq<Inbound>, name: string, e: Entry, e': Entry, tag: string)
    requires SameShape(a, b)
    requires tag in e.credentials && tag in e'.credentials && e.credentials[tag] == e'.credentials[tag]
    requires e.id == e'.id && e.created == e'.created
    ensures Upserted(a, name, e, tag) == Upserted(b, name, e', tag)
  {
    FindFrame(a, b, tag);
    if Find(a, tag).Some? {
      var k := Find(a, tag).value;
      assert SameButClients(a[k], b[k]);
    }
  }

  /** The item belongs to the client and carries the secret that the record now stores. */
  lemma UpsertedMirrors(inbounds: seq<Inbound>, name: string, e: Entry, tag: string)
    requires ValidName(name) && tag in e.credentials && OwnEmail(name, e.credentials[tag].client)
    requires Upserted(inbounds, name, e, tag).Ok?
    ensures var (item, c) := Upserted(inbounds, name, e, tag).value;
            && Name(item) == name && c.enabled
            && OwnEmail(name, c.client)
            && c.protocol == inbounds[Find(inbounds, tag).value].protocol
            && (!c.protocol.Other? ==> SameSecret(c.protocol, item, c.client))
  {
    var c := e.credentials[tag];
    var (item, c') := Upserted(inbounds, name, e, tag).value;
    Email.NameOfEmail(name, Or(c.created, e.created), tag);
    assert Name(item) == name;
    TrimKeepsName(name, item.email);
  }

  /** An enabled credential describes its inbound, repeats its item, and keeps its secret and what else it had. */
  lemma UpsertedKeeps(inbounds: seq<Inbound>, name: string, e: Entry, tag: string)
    requires tag in e.credentials && Upserted(inbounds, name, e, tag).Ok?
    requires e.credentials[tag].protocol == inbounds[Find(inbounds, tag).value].protocol
    ensures var before, (item, c) := e.credentials[tag], Upserted(inbounds, name, e, tag).value;
            && Describes(c, inbounds[Find(inbounds, tag).value]) && Refilled(c, item) && c.created == before.created
            && (Secret(before) != "" ==> Secret(c) == Secret(before))
            && KeepsIds(e, before, c) && (if c.protocol.Trojan? then c.client.password == Trim(before.client.password)
                                          else c.client.id != "")
            && (Trim(before.client.email) != "" ==> c.client.email == Trim(before.client.email))
            && (Trim(before.client.email) == "" && before.created != "" ==>
                  c.client.email == Email.EmailForClient(name, before.created, tag))
            && (before.client.flow != "" && c.protocol.Vless? && c.transport == "tcp" ==> c.client.flow == before.client.flow)
  {
    TrimIdempotent(e.credentials[tag].client.password);
  }

  /** Position of the first item of a client; the length when there is none. */
  function FirstAt(items: seq<Item>, name: string): (k: nat)
    ensures k <= |items|
    ensures k < |items| ==> Name(items[k]) == name
    ensures forall j | 0 <= j < k :: Name(items[j]) != name
  {
    if items == [] || Name(items[0]) == name then 0 else
      assert forall j | 1 <= j < |items| :: items[j] == items[1..][j - 1];
      1 + FirstAt(items[1..], name)
  }

  /** Replaces the first item of the client, or appends. */
  function Put(items: seq<Item>, name: string, item: Item): seq<Item> {
    var k := FirstAt(items, name);
    if k < |items| then items[k := item] else items + [item]
  }

  lemma {:induction false} OnlyNone(items: seq<Item>, name: string)
    requires forall j | 0 <= j < |items| :: Name(items[j]) != name
    ensures Only(items, name) == []
  {
    if items != [] {
      OnlyNone(items[..|items| - 1], name);
    }
  }

  lemma OnlySingle(x: Item, name: string)
    ensures Only([x], name) == if Name(x) == name then [x] else []
  {
    assert [x][..0] == [];
  }

  lemma OnlyAround(head: seq<Item>, x: Item, tail: seq<Item>, name: string)
    ensures Only(head + [x] + tail, name)
         == Only(head, name) + (if Name(x) == name then [x] else []) + Only(tail, name)
  {
    OnlyConcat(head + [x], tail, name);
    OnlyConcat(head, [x], name);
    OnlySingle(x, name);
  }

  /** A list around its first item of the client. */
  lemma SplitAtFirst(items: seq<Item>, name: string, item: Item)
    ensures var k := FirstAt(items, name);
            if k == |items| then Put(items, name, item) == items + [item]
            else && items == items[..k] + [items[k]] + items[k + 1..]
                 && Put(items, name, item) == items[..k] + [item] + items[k + 1..]
    ensures Only(items[..FirstAt(items, name)], name) == []
  {
    var k := FirstAt(items, name);
    OnlyNone(items[..k], name);
    if k < |items| {
      SplitAt(items, k, item);
    }
  }

  lemma SplitAt(items: seq<Item>, k: nat, item: Item)
    requires k < |items|
    ensures items == items[..k] + [items[k]] + items[k + 1..]
    ensures items[k := item] == items[..k] + [item] + items[k + 1..]
  {}

  lemma OnlyPutOther(items: seq<Item>, name: string, item: Item, other: string)
    requires Name(item) == name && other != name
    ensures Only(Put(items, name, item), other) == Only(items, other)
  {
    var k := FirstAt(items, name);
    SplitAtFirst(items, name, item);
    if k == |items| {
      OnlyAround(items, item, [], other);
      assert items + [item] + [] == items + [item];
    } else {
      OnlyAround(items[..k], items[k], items[k + 1..], other);
      OnlyAround(items[..k], item, items[k + 1..], other);
    }
  }

  lemma OnlyPutSame(items: seq<Item>, name: string, item: Item)
    requires Name(item) == name
    ensures Only(Put(items, name, item), name)
         == [item] + (if Only(items, name) == [] then [] else Only(items, name)[1..])
  {
    var k := FirstAt(items, name);
    SplitAtFirst(items, name, item);
    if k == |items| {
      OnlyAround(items, item, [], name);
      assert items + [item] + [] == items + [item];
      assert items[..k] == items;
    } else {
      OnlyAround(items[..k], items[k], items[k + 1..], name);
      OnlyAround(items[..k], item, items[k + 1..], name);
    }
  }

  /** `set_clients` on the inbound with a tag. */
  function SetClients(inbounds: seq<Inbound>, tag: string, items: seq<Item>): seq<Inbound>
    requires Find(inbounds, tag).Some?
  {
    var k := Find(inbounds, tag).value;
    inbounds[k := inbounds[k].(clients := items)]
  }

  lemma SetClientsItems(inbounds: seq<Inbound>, tag: string, items: seq<Item>, t: string, name: string)
    requires Find(inbounds, tag).Some?
    ensures Items(SetClients(inbounds, tag, items), t, name)
         == if t == tag then Only(items, name) else Items(inbounds, t, name)
  {
    FindFrame(inbounds, SetClients(inbounds, tag, items), t);
    FindSpec(inbounds, tag);
    FindSpec(inbounds, t);
  }

  lemma SetClientsFrame(inbounds: seq<Inbound>, tag: string, items: seq<Item>, name: string)
    requires Find(inbounds, tag).Some?
    requires forall n | n != name :: Only(items, n) == Only(inbounds[Find(inbounds, tag).value].clients, n)
    ensures SameExcept(inbounds, SetClients(inbounds, tag, items), {name})
  {
    FindSpec(inbounds, tag);
  }

  /** The client's item is placed under the tag; nothing else moves. */
  function PutItem(inbounds: seq<Inbound>, tag: string, name: string, item: Item): seq<Inbound>
    requires Find(inbounds, tag).Some?
  {
    SetClients(inbounds, tag, Put(inbounds[Find(inbounds, tag).value].clients, name, item))
  }

  lemma PutItemEffect(inbounds: seq<Inbound>, tag: string, name: string, item: Item)
    requires Find(inbounds, tag).Some? && Name(item) == name
    ensures var after := PutItem(inbounds, tag, name, item);
            var before := Items(inbounds, tag, name);
            && SameExcept(inbounds, after, {name})
            && Items(after, tag, name) == [item] + (if before == [] then [] else before[1..])
            && forall t | t != tag :: Items(after, t, name) == Items(inbounds, t, name)
  {
    var clients := inbounds[Find(inbounds, tag).value].clients;
    var items := Put(clients, name, item);
    OnlyPutSame(clients, name, item);
    forall n | n != name ensures Only(items, n) == Only(clients, n) { OnlyPutOther(clients, name, item, n); }
    SetClientsFrame(inbounds, tag, items, name);
    forall t ensures Items(SetClients(inbounds, tag, items), t, name)
                  == if t == tag then Only(items, name) else Items(inbounds, t, name) {
      SetClientsItems(inbounds, tag, items, t, name);
    }
  }

  /** Removes every item of the client from the inbound with the tag. */
  function DropItems(inbounds: seq<Inbound>, tag: string, name: string): seq<Inbound> {
    if Find(inbounds, tag).None? then inbounds
    else SetClients(inbounds, tag, Without(inbounds[Find(inbounds, tag).value].clients, name))
  }

  lemma DropItemsEffect(inbounds: seq<Inbound>, tag: string, name: string)
    ensures var after := DropItems(inbounds, tag, name);
            && SameExcept(inbounds, after, {name})
            && Items(after, tag, name) == []
            && forall t | t != tag :: Items(after, t, name) == Items(inbounds, t, name)
  {
    if Find(inbounds, tag).Some? {
      var clients := inbounds[Find(inbounds, tag).value].clients;
      var items := Without(clients, name);
      forall n ensures Only(items, n) == if n == name then [] else Only(clients, n) { OnlyWithout(clients, name, n); }
      SetClientsFrame(inbounds, tag, items, name);
      forall t ensures Items(SetClients(inbounds, tag, items), t, name)
                    == if t == tag then Only(items, name) else Items(inbounds, t, name) {
        SetClientsItems(inbounds, tag, items, t, name);
      }
    }
  }

  /** `upsert_active_credential`; nothing is changed when it raises. */
  method UpsertActive(config: Config, name: string, e: Entry, tag: string) returns (r: Result<Entry, Error>)
    requires tag in e.credentials
    modifies config
    ensures Upserted(old(config.inbounds), name, e, tag).Err? ==>
              r == Err(Upserted(old(config.inbounds), name, e, tag).error) && config.inbounds == old(config.inbounds)
    ensures Upserted(old(config.inbounds), name, e, tag).Ok? ==>
              var (item, c) := Upserted(old(config.inbounds), name, e, tag).value;
              && config.inbounds == PutItem(old(config.inbounds), tag, name, item)
              && r == Ok(Sync(e.(credentials := e.credentials[tag := c])))
  {
    var outcome := Upserted(config.inbounds, name, e, tag);
    if outcome.Err? {
      return Err(outcome.error);
    }
    var (item, c) := outcome.value;
    var k := Find(config.inbounds, tag).value;
    var current := config.inbounds[k].clients;
    var replaced := false;
    var index := 0;
    while index < |current| && !replaced
      invariant index <= |current|
      invariant !replaced ==> current == old(config.inbounds)[k].clients
      invariant !replaced ==> forall j | 0 <= j < index :: Name(current[j]) != name
      invariant replaced ==> index < |current| && current == Put(old(config.inbounds)[k].clients, name, item)
      decreases !replaced, |current| - index
    {
      if Name(current[index]) == name {
        current := current[index := item];
        replaced := true;
      } else {
        index := index + 1;
      }
    }
    if !replaced {
      current := current + [item];
    }
    config.inbounds := config.inbounds[k := config.inbounds[k].(clients := current)];
    r := Ok(Sync(e.(credentials := e.credentials[tag := c])));
  }

  /** `active_item_for_connection`. */
  function ActiveItem(inbounds: seq<Inbound>, tag: string, name: string): Option<Item> {
    var items := Items(inbounds, tag, name);
    if items == [] then None else Some(items[0])
  }

  /** `remove_active_credential`: whether an item was removed, and the first one. */
  method RemoveActive(config: Config, name: string, tag: string) returns (removed: bool, item: Option<Item>)
    modifies config
    ensures config.inbounds == DropItems(old(config.inbounds), tag, name)
    ensures item == ActiveItem(old(config.inbounds), tag, name) && (removed <==> item.Some?)
  {
    var found := Find(config.inbounds, tag);
    if found.None? {
      return false, None;
    }
    var k := found.value;
    var before := config.inbounds[k].clients;
    var after := Without(before, name);
    OnlyCount(before, name);
    if |after| == |before| {
      WithoutNone(before, name);
      config.inbounds := config.inbounds[k := config.inbounds[k].(clients := after)];
      return false, None;
    }
    config.inbounds := config.inbounds[k := config.inbounds[k].(clients := after)];
    return true, Some(Only(before, name)[0]);
  }

  lemma {:induction false} OnlyCount(items: seq<Item>, name: string)
    ensures |Only(items, name)| + |Without(items, name)| == |items|
  {
    if items != [] {
      OnlyCount(items[..|items| - 1], name);
    }
  }

  lemma {:induction false} WithoutNone(items: seq<Item>, name: string)
    requires |Without(items, name)| == |items|
    ensures Without(items, name) == items
  {
    if items != [] {
      WithoutNone(items[..|items| - 1], name);
    }
  }
}
