/** The `NAME|created=...|connection=...` label that ties an Xray client item to a database entry. */
module Email {
  import opened Text

  /** `s.split("|")`. */
  function Split(s: string): (parts: seq<string>)
    ensures parts != []
  {
    if s == "" then [""]
    else
      var rest := Split(s[1..]);
      if s[0] == '|' then [""] + rest else [[s[0]] + rest[0]] + rest[1..]
  }

  /** `"|".join(parts)`. */
  function Join(parts: seq<string>): string
    requires parts != []
  {
    if |parts| == 1 then parts[0] else parts[0] + "|" + Join(parts[1..])
  }

  /** Position of the first `=`, or the length when there is none. */
  function EqualsAt(part: string): (k: nat)
    ensures k <= |part|
    ensures forall i | 0 <= i < k :: part[i] != '='
    ensures k < |part| ==> part[k] == '='
  {
    if part == "" || part[0] == '=' then 0 else 1 + EqualsAt(part[1..])
  }

  /** One step of the metadata loop: `key, separator, value = part.partition("=")`. */
  function AddPart(metadata: map<string, string>, part: string): map<string, string> {
    var k := EqualsAt(part);
    if 0 < k < |part| then metadata[part[..k] := part[k + 1..]] else metadata
  }

  function Metadata(parts: seq<string>): map<string, string> {
    if parts == [] then map[]
    else AddPart(Metadata(parts[..|parts| - 1]), parts[|parts| - 1])
  }

  method EmailMetadata(email: string) returns (name: string, metadata: map<string, string>)
    ensures name == Split(email)[0] && metadata == Metadata(Split(email)[1..])
  {
    var parts := Split(email);
    name, metadata := parts[0], map[];
    var rest := parts[1..];
    for i := 0 to |rest|
      invariant metadata == Metadata(rest[..i])
    {
      metadata := AddPart(metadata, rest[i]);
      assert rest[..i + 1][..i] == rest[..i];
    }
    assert rest[..|rest|] == rest;
  }

  /** Name and creation stamp of an email. */
  function SplitEmail(email: string): (string, string) {
    var parts := Split(email);
    var metadata := Metadata(parts[1..]);
    (parts[0], if "created" in metadata then metadata["created"] else "")
  }

  function ClientName(email: string): string {
    Split(email)[0]
  }

  function Parts(name: string, created: string, tag: string): (parts: seq<string>)
    ensures parts != []
  {
    [name]
    + (if created != "" then ["created" + "=" + created] else [])
    + (if tag != "" then ["connection" + "=" + tag] else [])
  }

  function EmailForClient(name: string, created: string, tag: string): string {
    Join(Parts(name, created, tag))
  }

  predicate BarFree(s: string) {
    '|' !in s
  }

  lemma {:induction false} SplitBarFree(s: string)
    requires BarFree(s)
    ensures Split(s) == [s]
  {
    if s != "" {
      SplitBarFree(s[1..]);
      assert [s[0]] + s[1..] == s;
    }
  }

  lemma {:induction false} SplitAfterBar(a: string, b: string)
    requires BarFree(a)
    ensures Split(a + "|" + b) == [a] + Split(b)
  {
    var s := a + "|" + b;
    if a == "" {
      assert s[1..] == b;
    } else {
      SplitAfterBar(a[1..], b);
      assert s[1..] == a[1..] + "|" + b;
      assert [s[0]] + a[1..] == a;
    }
  }

  /** The first part is the text up to the first separator. */
  lemma {:induction false} SplitHead(s: string)
    ensures var name := ClientName(s);
            && BarFree(name) && |name| <= |s| && s[..|name|] == name
            && (|s| > |name| ==> s[|name|] == '|')
  {
    if s != "" && s[0] != '|' {
      SplitHead(s[1..]);
    }
  }

  lemma {:induction false} SplitJoin(parts: seq<string>)
    requires parts != []
    requires forall p | p in parts :: BarFree(p)
    ensures Split(Join(parts)) == parts
  {
    if |parts| == 1 {
      SplitBarFree(parts[0]);
    } else {
      SplitJoin(parts[1..]);
      SplitAfterBar(parts[0], Join(parts[1..]));
    }
  }

  lemma PartitionAt(key: string, value: string)
    requires '=' !in key
    ensures EqualsAt(key + "=" + value) == |key|
  {
    var part := key + "=" + value;
    var k := EqualsAt(part);
    assert part[|key|] == '=';
    assert forall i | 0 <= i < |key| :: part[i] == key[i] && part[i] in key;
  }

  lemma AddKeyed(metadata: map<string, string>, key: string, value: string)
    requires key != "" && '=' !in key
    ensures AddPart(metadata, key + "=" + value) == metadata[key := value]
  {
    var part := key + "=" + value;
    PartitionAt(key, value);
    assert part[..|key|] == key && part[|key| + 1..] == value;
  }

  lemma MetadataOfParts(name: string, created: string, tag: string)
    ensures var m := Metadata(Parts(name, created, tag)[1..]);
            (if "created" in m then m["created"] else "") == created
  {
    var rest := Parts(name, created, tag)[1..];
    AddKeyed(map[], "created", created);
    AddKeyed(map[], "connection", tag);
    if created != "" && tag != "" {
      var first := rest[..1];
      assert first == ["created" + "=" + created] && first[..0] == [];
      assert Metadata(first) == AddPart(map[], "created" + "=" + created);
      AddKeyed(Metadata(first), "connection", tag);
      assert rest == first + ["connection" + "=" + tag] && rest[..|rest| - 1] == first;
    } else if created != "" {
      assert rest == ["created" + "=" + created] && rest[..0] == [];
    } else if tag != "" {
      assert rest == ["connection" + "=" + tag] && rest[..0] == [];
    }
  }

  /** The codec round-trips: encoding then decoding gives back the name and the creation stamp. */
  lemma RoundTrip(name: string, created: string, tag: string)
    requires BarFree(name) && BarFree(created) && BarFree(tag)
    ensures SplitEmail(EmailForClient(name, created, tag)) == (name, created)
  {
    SplitJoin(Parts(name, created, tag));
    MetadataOfParts(name, created, tag);
  }

  /** Only the name has to be free of the separator for the name to be recovered. */
  lemma {:induction false} NameOfEmail(name: string, created: string, tag: string)
    requires BarFree(name)
    ensures ClientName(EmailForClient(name, created, tag)) == name
  {
    var parts := Parts(name, created, tag);
    if |parts| == 1 {
      SplitBarFree(name);
    } else {
      SplitAfterBar(name, Join(parts[1..]));
    }
  }

  /** Start of the first occurrence of `needle`, or the length of `s` when it does not occur. */
  function Find(s: string, needle: string): (k: nat)
    requires needle != ""
    ensures k <= |s|
    ensures k < |s| ==> StartsWith(s[k..], needle)
    ensures forall i | 0 <= i < k :: !StartsWith(s[i..], needle)
  {
    if s == "" || StartsWith(s, needle) then 0
    else
      var k := 1 + Find(s[1..], needle);
      assert forall i | 1 <= i < |s| :: s[i..] == s[1..][i - 1..];
      k
  }

  const CREATED_MARK := "|created="

  /** The independent decoder of the activity log parser. */
  function LogSplitEmail(email: string): string {
    email[..Find(email, CREATED_MARK)]
  }

  /** No mark inside a text that never contains the separator. */
  lemma NoMarkBefore(email: string, i: nat)
    requires i < |email| && email[i] != '|'
    ensures !StartsWith(email[i..], CREATED_MARK)
  {
    assert |email| - i >= 9 ==> email[i..][..9][0] == email[i];
  }

  lemma {:induction false} LogNameWithCreated(name: string, created: string, tag: string)
    requires BarFree(name) && created != ""
    ensures LogSplitEmail(EmailForClient(name, created, tag)) == name
  {
    var parts := Parts(name, created, tag);
    var email := EmailForClient(name, created, tag);
    var tail := Join(parts[1..]);
    assert email == name + "|" + tail;
    assert StartsWith(tail, "created=") by {
      assert parts[1] == "created" + "=" + created;
      assert StartsWith(parts[1], "created=");
    }
    assert email[|name|..] == "|" + tail;
    assert StartsWith(email[|name|..], CREATED_MARK) by {
      assert ("|" + tail)[..9] == "|" + tail[..8];
    }
    var k := Find(email, CREATED_MARK);
    if k < |name| {
      NoMarkBefore(email, k);
    }
    assert k == |name|;
  }

  lemma {:induction false} LogNameWithoutCreated(name: string, tag: string)
    requires BarFree(name) && BarFree(tag)
    ensures LogSplitEmail(EmailForClient(name, "", tag)) == EmailForClient(name, "", tag)
  {
    var email := EmailForClient(name, "", tag);
    var tail := "connection" + "=" + tag;
    if tag == "" {
      assert email == name;
    } else {
      assert Parts(name, "", tag) == [name, tail];
      assert Join([tail]) == tail;
      assert email == name + "|" + tail;
      assert email[|name|..] == "|" + tail;
      assert email[|name|..][2] == 'o';
      assert |email| - |name| >= 9 ==> email[|name|..][..9][2] != CREATED_MARK[2];
    }
    forall i | 0 <= i < |email| ensures !StartsWith(email[i..], CREATED_MARK) {
      if i != |name| {
        NoMarkBefore(email, i);
      }
    }
  }

  /** The two decoders agree on the name of every generated email except one written without a
      creation stamp but with a connection tag. */
  lemma DecodersAgree(name: string, created: string, tag: string)
    requires BarFree(name) && BarFree(created) && BarFree(tag)
    ensures LogSplitEmail(EmailForClient(name, created, tag)) == SplitEmail(EmailForClient(name, created, tag)).0
            <==> created != "" || tag == ""
  {
    RoundTrip(name, created, tag);
    if created != "" {
      LogNameWithCreated(name, created, tag);
    } else {
      LogNameWithoutCreated(name, tag);
      assert |EmailForClient(name, "", tag)| > |name| || tag == "";
    }
  }

  /** A concrete email on which they differ. */
  lemma DecodersDisagree()
    ensures LogSplitEmail(EmailForClient("bob", "", "t")) != SplitEmail(EmailForClient("bob", "", "t")).0
  {
    DecodersAgree("bob", "", "t");
  }
}
