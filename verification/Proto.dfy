/** Decoding Protocol Buffers: base 128 varints and fields of wire types 0, 1, 2 and 5. */
module Proto {
  import opened Wrappers

  type Byte = x: nat | x < 256

  datatype Error = TruncatedVarint | UnsupportedWireType

  /** The value of a field, by wire type: 0, 1, 2 or 5. */
  datatype Value = Varint(n: nat) | Fixed64(bytes: seq<Byte>) | Bytes(bytes: seq<Byte>) | Fixed32(bytes: seq<Byte>)

  datatype Field = Field(number: nat, value: Value)

  function Power(k: nat): (p: nat)
    ensures p > 0
  {
    if k == 0 then 1 else 128 * Power(k - 1)
  }

  /** Seven bits, or more, moved to a position: `group << 7 * shift`. */
  function Placed(group: nat, shift: nat): nat {
    group * Power(shift)
  }

  // ---- varints ----

  /** The canonical encoding: seven bits a byte, the lowest first, the high bit on all but the last. */
  function EncodeVarint(n: nat): (r: seq<Byte>)
    ensures r != []
  {
    if n < 128 then [n] else [n % 128 + 128] + EncodeVarint(n / 128)
  }

  /** The value at the front of the data and the number of bytes it takes. */
  function Varint0(data: seq<Byte>): (r: Option<(nat, nat)>)
    ensures r.Some? ==> 0 < r.value.1 <= |data|
  {
    if data == [] then None
    else if data[0] < 128 then Some((data[0], 1))
    else
      match Varint0(data[1..])
      case None => None
      case Some((rest, used)) => Some((data[0] - 128 + 128 * rest, used + 1))
  }

  /** `shift` groups with the given value, followed by what the rest of the data gives. */
  function Continued(value: nat, shift: nat, rest: Option<(nat, nat)>): Option<(nat, nat)> {
    match rest
    case None => None
    case Some((high, used)) => Some((value + Placed(high, shift), shift + used))
  }

  lemma ContinuedStep(value: nat, shift: nat, data: seq<Byte>)
    requires data != []
    ensures Continued(value, shift, Varint0(data))
         == if data[0] < 128 then Some((value + Placed(data[0], shift), shift + 1))
            else Continued(value + Placed(data[0] - 128, shift), shift + 1, Varint0(data[1..]))
  {
    if data[0] >= 128 && Varint0(data[1..]).Some? {
      var (high, used) := Varint0(data[1..]).value;
      ContinuedHigh(value, shift, data[0] - 128, high, used);
      assert Varint0(data) == Some((data[0] - 128 + 128 * high, used + 1));
    }
  }

  lemma ContinuedHigh(value: nat, shift: nat, low: nat, high: nat, used: nat)
    ensures Continued(value, shift, Some((low + 128 * high, used + 1)))
         == Continued(value + Placed(low, shift), shift + 1, Some((high, used)))
  {
    Distribute(Power(shift), low, high);
  }

  lemma Distribute(p: nat, low: nat, high: nat)
    ensures (low + 128 * high) * p == low * p + high * (128 * p)
  {}

  /** The bits of the next group lie above all bits so far, so or-ing them in is adding them. */
  lemma NextGroupFits(value: nat, shift: nat, low: nat)
    requires value < Power(shift) && low < 128
    ensures value + Placed(low, shift) < Power(shift + 1)
  {
    AtMost(low, 127, Power(shift));
  }

  lemma AtMost(a: nat, b: nat, p: nat)
    requires a <= b
    ensures a * p <= b * p
  {}

  /** `read_varint`. */
  method ReadVarint(data: seq<Byte>, start: nat) returns (r: Result<(nat, nat), Error>)
    requires start <= |data|
    ensures match Varint0(data[start..])
            case None => r == Err(TruncatedVarint)
            case Some((value, used)) => r == Ok((value, start + used))
  {
    var index, value: nat, shift: nat := start, 0, 0;
    while index < |data|
      invariant start <= index <= |data| && shift == index - start
      invariant value < Power(shift)
      invariant Varint0(data[start..]) == Continued(value, shift, Varint0(data[index..]))
    {
      var byte := data[index];
      ContinuedStep(value, shift, data[index..]);
      assert data[index..][1..] == data[index + 1..];
      NextGroupFits(value, shift, byte % 128);
      value := value + Placed(byte % 128, shift);
      index := index + 1;
      if byte < 128 {
        return Ok((value, index));
      }
      shift := shift + 1;
    }
    r := Err(TruncatedVarint);
  }

  /** Every natural number survives, whatever follows it. */
  lemma {:induction false} VarintRoundTrip(n: nat, rest: seq<Byte>)
    ensures Varint0(EncodeVarint(n) + rest) == Some((n, |EncodeVarint(n)|))
  {
    var data := EncodeVarint(n) + rest;
    if n >= 128 {
      VarintRoundTrip(n / 128, rest);
      assert data[1..] == EncodeVarint(n / 128) + rest;
    }
  }

  /** A varint that is cut off anywhere is refused. */
  lemma {:induction false} CutVarintIsRefused(n: nat, k: nat)
    requires k < |EncodeVarint(n)|
    ensures Varint0(EncodeVarint(n)[..k]) == None
  {
    if k > 0 {
      CutVarintIsRefused(n / 128, k - 1);
      assert EncodeVarint(n)[..k][1..] == EncodeVarint(n / 128)[..k - 1];
    }
  }

  // ---- fields ----

  function WireType(v: Value): nat {
    match v
    case Varint(_) => 0
    case Fixed64(_) => 1
    case Bytes(_) => 2
    case Fixed32(_) => 5
  }

  predicate WellFormed(f: Field) {
    (f.value.Fixed64? ==> |f.value.bytes| == 8) && (f.value.Fixed32? ==> |f.value.bytes| == 4)
  }

  function EncodePayload(v: Value): seq<Byte> {
    match v
    case Varint(n) => EncodeVarint(n)
    case Bytes(bytes) => EncodeVarint(|bytes|) + bytes
    case Fixed64(bytes) => bytes
    case Fixed32(bytes) => bytes
  }

  function EncodeField(f: Field): (r: seq<Byte>)
    ensures r != []
  {
    EncodeVarint(f.number * 8 + WireType(f.value)) + EncodePayload(f.value)
  }

  function Encode(fs: seq<Field>): seq<Byte> {
    if fs == [] then [] else EncodeField(fs[0]) + Encode(fs[1..])
  }

  /** A slice as Python takes it: it stops at the end of the data. */
  function Front(data: seq<Byte>, n: nat): seq<Byte> {
    if n <= |data| then data[..n] else data
  }

  function Tail(data: seq<Byte>, n: nat): (r: seq<Byte>)
    ensures |r| <= |data|
  {
    if n <= |data| then data[n..] else []
  }

  /** A field of the given number and wire type, and what is left after it. */
  function ParsePayload(number: nat, wire: nat, rest: seq<Byte>): (r: Result<(Field, seq<Byte>), Error>)
    ensures r.Ok? ==> |r.value.1| <= |rest|
  {
    if wire == 0 then
      match Varint0(rest)
      case None => Err(TruncatedVarint)
      case Some((n, size)) => Ok((Field(number, Varint(n)), rest[size..]))
    else if wire == 1 then Ok((Field(number, Fixed64(Front(rest, 8))), Tail(rest, 8)))
    else if wire == 2 then
      match Varint0(rest)
      case None => Err(TruncatedVarint)
      case Some((n, size)) => Ok((Field(number, Bytes(Front(rest[size..], n))), Tail(rest[size..], n)))
    else if wire == 5 then Ok((Field(number, Fixed32(Front(rest, 4))), Tail(rest, 4)))
    else Err(UnsupportedWireType)
  }

  /** The first field and what is left after it. */
  function ParseField(data: seq<Byte>): (r: Result<(Field, seq<Byte>), Error>)
    requires data != []
    ensures r.Ok? ==> |r.value.1| < |data|
  {
    match Varint0(data)
    case None => Err(TruncatedVarint)
    case Some((key, used)) => ParsePayload(key / 8, key % 8, data[used..])
  }

  /** `parse_proto_fields` as a function: every field makes the rest shorter. */
  function Parse(data: seq<Byte>): Result<seq<Field>, Error>
    decreases |data|
  {
    if data == [] then Ok([])
    else
      match ParseField(data)
      case Err(e) => Err(e)
      case Ok((f, rest)) => Prepend([f], Parse(rest))
  }

  function Prepend(fs: seq<Field>, r: Result<seq<Field>, Error>): Result<seq<Field>, Error> {
    match r
    case Err(e) => Err(e)
    case Ok(gs) => Ok(fs + gs)
  }

  /** `parse_proto_fields`: the index may run past the end, where slices are empty. */
  method ParseProtoFields(data: seq<Byte>) returns (r: Result<seq<Field>, Error>)
    ensures r == Parse(data)
  {
    var index, fields := 0, [];
    assert Tail(data, 0) == data;
    PrependNothing(Parse(data));
    while index < |data|
      invariant Parse(data) == Prepend(fields, Parse(Tail(data, index)))
      decreases |data| - index
    {
      ghost var before := index;
      assert Tail(data, before) == data[before..];
      var read := ReadVarint(data, index);
      if read.Err? {
        return Err(read.error);
      }
      var key;
      key, index := read.value.0, read.value.1;
      assert data[before..][index - before..] == data[index..];
      var field := ReadPayload(data, index, key / 8, key % 8);
      if field.Err? {
        return Err(field.error);
      }
      index := field.value.1;
      PrependTwice(fields, [field.value.0], Parse(Tail(data, index)));
      fields := fields + [field.value.0];
    }
    assert fields + [] == fields;
    r := Ok(fields);
  }

  /** One turn of the loop after the key. */
  method ReadPayload(data: seq<Byte>, start: nat, number: nat, wire: nat) returns (r: Result<(Field, nat), Error>)
    requires start <= |data|
    ensures match ParsePayload(number, wire, data[start..])
            case Err(e) => r == Err(e)
            case Ok((f, rest)) => r.Ok? && r.value.0 == f && rest == Tail(data, r.value.1) && r.value.1 >= start
  {
    if wire == 0 {
      var read := ReadVarint(data, start);
      if read.Err? {
        return Err(read.error);
      }
      assert data[start..][read.value.1 - start..] == data[read.value.1..];
      return Ok((Field(number, Varint(read.value.0)), read.value.1));
    } else if wire == 1 {
      SliceAt(data, start, 8);
      return Ok((Field(number, Fixed64(Slice(data, start, 8))), start + 8));
    } else if wire == 2 {
      var read := ReadVarint(data, start);
      if read.Err? {
        return Err(read.error);
      }
      var (length, index) := read.value;
      assert data[start..][index - start..] == data[index..];
      SliceAt(data, index, length);
      return Ok((Field(number, Bytes(Slice(data, index, length))), index + length));
    } else if wire == 5 {
      SliceAt(data, start, 4);
      return Ok((Field(number, Fixed32(Slice(data, start, 4))), start + 4));
    }
    r := Err(UnsupportedWireType);
  }

  /** `data[index:index + n]`. */
  function Slice(data: seq<Byte>, index: nat, n: nat): seq<Byte>
    requires index <= |data|
  {
    Front(data[index..], n)
  }

  lemma SliceAt(data: seq<Byte>, index: nat, n: nat)
    requires index <= |data|
    ensures Tail(data[index..], n) == Tail(data, index + n)
  {}

  lemma PrependNothing(r: Result<seq<Field>, Error>)
    ensures Prepend([], r) == r
  {
    if r.Ok? {
      assert [] + r.value == r.value;
    }
  }

  lemma PrependTwice(a: seq<Field>, b: seq<Field>, r: Result<seq<Field>, Error>)
    ensures Prepend(a, Prepend(b, r)) == Prepend(a + b, r)
  {
    if r.Ok? {
      assert a + (b + r.value) == a + b + r.value;
    }
  }

  lemma FrontTail(a: seq<Byte>, b: seq<Byte>)
    ensures Front(a + b, |a|) == a && Tail(a + b, |a|) == b && (a + b)[|a|..] == b
  {}

  lemma PayloadRoundTrip(number: nat, v: Value, rest: seq<Byte>)
    requires WellFormed(Field(number, v))
    ensures ParsePayload(number, WireType(v), EncodePayload(v) + rest) == Ok((Field(number, v), rest))
  {
    match v {
      case Varint(n) =>
        VarintRoundTrip(n, rest);
        FrontTail(EncodeVarint(n), rest);
      case Bytes(bytes) =>
        var size := EncodeVarint(|bytes|);
        assert size + bytes + rest == size + (bytes + rest);
        VarintRoundTrip(|bytes|, bytes + rest);
        FrontTail(size, bytes + rest);
        FrontTail(bytes, rest);
      case Fixed64(bytes) => FrontTail(bytes, rest);
      case Fixed32(bytes) => FrontTail(bytes, rest);
    }
  }

  lemma KeyParts(number: nat, wire: nat)
    requires wire < 8
    ensures (number * 8 + wire) / 8 == number && (number * 8 + wire) % 8 == wire
  {}

  lemma FieldRoundTrip(f: Field, rest: seq<Byte>)
    requires WellFormed(f)
    ensures ParseField(EncodeField(f) + rest) == Ok((f, rest))
  {
    var key, payload := f.number * 8 + WireType(f.value), EncodePayload(f.value);
    assert EncodeField(f) + rest == EncodeVarint(key) + (payload + rest);
    VarintRoundTrip(key, payload + rest);
    FrontTail(EncodeVarint(key), payload + rest);
    KeyParts(f.number, WireType(f.value));
    PayloadRoundTrip(f.number, f.value, rest);
  }

  /** Decoding undoes encoding, and what follows an encoded list, right or wrong, is decoded as if it stood alone. */
  lemma {:induction false} ParseConcat(fs: seq<Field>, rest: seq<Byte>)
    requires forall f | f in fs :: WellFormed(f)
    ensures Parse(Encode(fs) + rest) == Prepend(fs, Parse(rest))
  {
    if fs == [] {
      assert Encode(fs) + rest == rest;
      if Parse(rest).Ok? {
        assert fs + Parse(rest).value == Parse(rest).value;
      }
    } else {
      assert Encode(fs) + rest == EncodeField(fs[0]) + (Encode(fs[1..]) + rest);
      ParseConcat(fs[1..], rest);
      ParseFirst(fs[0], Encode(fs[1..]) + rest);
      PrependTwice([fs[0]], fs[1..], Parse(rest));
      assert [fs[0]] + fs[1..] == fs;
    }
  }

  lemma ParseFirst(f: Field, rest: seq<Byte>)
    requires WellFormed(f)
    ensures Parse(EncodeField(f) + rest) == Prepend([f], Parse(rest))
  {
    FieldRoundTrip(f, rest);
    assert EncodeField(f) + rest != [];
  }

  lemma RoundTrip(fs: seq<Field>)
    requires forall f | f in fs :: WellFormed(f)
    ensures Parse(Encode(fs)) == Ok(fs)
  {
    ParseConcat(fs, []);
    assert Encode(fs) + [] == Encode(fs) && fs + [] == fs;
  }

  /** Different field lists have different encodings. */
  lemma EncodeInjective(fs: seq<Field>, gs: seq<Field>)
    requires (forall f | f in fs :: WellFormed(f)) && (forall g | g in gs :: WellFormed(g))
    requires Encode(fs) == Encode(gs)
    ensures fs == gs
  {
    RoundTrip(fs);
    RoundTrip(gs);
  }

  // ---- data that is cut off ----

  /** The bytes before the payload proper: the key, and the length of a string. */
  function HeaderSize(f: Field): nat {
    |EncodeVarint(f.number * 8 + WireType(f.value))| + (if f.value.Bytes? then |EncodeVarint(|f.value.bytes|)| else 0)
  }

  /** A cut is noticed inside a varint only: the key, the length of a string, or a varint payload. */
  predicate CutNoticed(f: Field, k: nat) {
    f.value.Varint? || k < |EncodeVarint(f.number * 8 + WireType(f.value))| || (f.value.Bytes? && k < HeaderSize(f))
  }

  /** What an unnoticed cut leaves of a field. */
  function Shortened(f: Field, k: nat): (r: Field)
    requires !f.value.Varint? && HeaderSize(f) <= k < |EncodeField(f)|
    ensures r != f && r.number == f.number && WireType(r.value) == WireType(f.value)
  {
    var bytes := f.value.bytes[..k - HeaderSize(f)];
    match f.value
    case Bytes(_) => Field(f.number, Bytes(bytes))
    case Fixed64(_) => Field(f.number, Fixed64(bytes))
    case Fixed32(_) => Field(f.number, Fixed32(bytes))
  }

  /** A payload that is cut off after its first `m` bytes. */
  lemma CutPayload(number: nat, v: Value, m: nat)
    requires WellFormed(Field(number, v)) && m < |EncodePayload(v)|
    ensures var p := ParsePayload(number, WireType(v), EncodePayload(v)[..m]);
            match v
            case Varint(_) => p == Err(TruncatedVarint)
            case Bytes(bytes) =>
              var size := |EncodeVarint(|bytes|)|;
              p == if m < size then Err(TruncatedVarint) else Ok((Field(number, Bytes(bytes[..m - size])), []))
            case Fixed64(bytes) => p == Ok((Field(number, Fixed64(bytes[..m])), []))
            case Fixed32(bytes) => p == Ok((Field(number, Fixed32(bytes[..m])), []))
  {
    match v {
      case Varint(n) => CutVarintIsRefused(n, m);
      case Bytes(bytes) =>
        var size := EncodeVarint(|bytes|);
        if m < |size| {
          CutVarintIsRefused(|bytes|, m);
          assert EncodePayload(v)[..m] == size[..m];
        } else {
          var rest := bytes[..m - |size|];
          assert EncodePayload(v)[..m] == size + rest;
          VarintRoundTrip(|bytes|, rest);
          FrontTail(size, rest);
        }
      case _ =>
    }
  }

  /** A field that is cut off is refused exactly when the cut is noticed; otherwise it comes out short. */
  lemma CutFieldIff(f: Field, k: nat)
    requires WellFormed(f) && 0 < k < |EncodeField(f)|
    ensures CutNoticed(f, k) ==> Parse(EncodeField(f)[..k]) == Err(TruncatedVarint)
    ensures !CutNoticed(f, k) ==> Parse(EncodeField(f)[..k]) == Ok([Shortened(f, k)])
  {
    CutFieldDecodes(f, k);
    if CutNoticed(f, k) {
      FieldRefused(EncodeField(f)[..k], TruncatedVarint);
    } else {
      OneField(EncodeField(f)[..k], Shortened(f, k));
    }
  }

  lemma CutFieldDecodes(f: Field, k: nat)
    requires WellFormed(f) && 0 < k < |EncodeField(f)|
    ensures CutDecodes(f, k, EncodeField(f)[..k])
  {
    var n := f.number * 8 + WireType(f.value);
    CutOfSum(EncodeVarint(n), EncodePayload(f.value), k);
    if k < |EncodeVarint(n)| {
      CutVarintIsRefused(n, k);
    } else {
      CutAfterKey(f, k - |EncodeVarint(n)|);
    }
  }

  /** The key is whole, and the payload is cut off after `m` bytes. */
  lemma CutAfterKey(f: Field, m: nat)
    requires WellFormed(f) && m < |EncodePayload(f.value)|
    ensures var key := EncodeVarint(f.number * 8 + WireType(f.value));
            CutDecodes(f, |key| + m, key + EncodePayload(f.value)[..m])
  {
    KeyIsRead(f, EncodePayload(f.value)[..m]);
    CutPayloadIff(f, m);
  }

  /** What the front of a field comes to when it is cut off after `k` bytes. */
  predicate CutDecodes(f: Field, k: nat, data: seq<Byte>)
    requires HeaderSize(f) <= k < |EncodeField(f)| || CutNoticed(f, k)
  {
    data != [] && ParseField(data) == if CutNoticed(f, k) then Err(TruncatedVarint) else Ok((Shortened(f, k), []))
  }

  lemma KeyIsRead(f: Field, rest: seq<Byte>)
    requires WellFormed(f)
    ensures ParseField(EncodeVarint(f.number * 8 + WireType(f.value)) + rest) == ParsePayload(f.number, WireType(f.value), rest)
  {
    var n := f.number * 8 + WireType(f.value);
    VarintRoundTrip(n, rest);
    FrontTail(EncodeVarint(n), rest);
    KeyParts(f.number, WireType(f.value));
  }

  lemma CutPayloadIff(f: Field, m: nat)
    requires WellFormed(f) && m < |EncodePayload(f.value)|
    ensures var k := |EncodeVarint(f.number * 8 + WireType(f.value))| + m;
            ParsePayload(f.number, WireType(f.value), EncodePayload(f.value)[..m])
            == if CutNoticed(f, k) then Err(TruncatedVarint) else Ok((Shortened(f, k), []))
  {
    CutPayload(f.number, f.value, m);
  }

  lemma FieldRefused(data: seq<Byte>, error: Error)
    requires data != [] && ParseField(data) == Err(error)
    ensures Parse(data) == Err(error)
  {
  }

  lemma OneField(data: seq<Byte>, f: Field)
    requires data != [] && ParseField(data) == Ok((f, []))
    ensures Parse(data) == Ok([f])
  {
    assert [f] + [] == [f];
  }

  /** What is decoded from the first `k` bytes of an encoded list. */
  function ParseCut(fs: seq<Field>, k: nat): Result<seq<Field>, Error> {
    if fs == [] || k == 0 then Ok([])
    else
      var n := |EncodeField(fs[0])|;
      if k >= n then Prepend([fs[0]], ParseCut(fs[1..], k - n))
      else if CutNoticed(fs[0], k) then Err(TruncatedVarint)
      else Ok([Shortened(fs[0], k)])
  }

  /** Wherever an encoded list is cut off, the fields before the cut come out whole and the cut one as it does alone. */
  lemma {:induction false} CutListIff(fs: seq<Field>, k: nat)
    requires (forall f | f in fs :: WellFormed(f)) && k <= |Encode(fs)|
    ensures Parse(Encode(fs)[..k]) == ParseCut(fs, k)
  {
    if fs == [] || k == 0 {
      assert Encode(fs)[..k] == [];
    } else if k < |EncodeField(fs[0])| {
      CutInFirst(fs, k);
    } else {
      CutListIff(fs[1..], k - |EncodeField(fs[0])|);
      CutLater(fs, k);
    }
  }

  lemma CutInFirst(fs: seq<Field>, k: nat)
    requires fs != [] && WellFormed(fs[0]) && 0 < k < |EncodeField(fs[0])|
    ensures k <= |Encode(fs)| && Parse(Encode(fs)[..k]) == ParseCut(fs, k)
  {
    CutOfSum(EncodeField(fs[0]), Encode(fs[1..]), k);
    CutFieldIff(fs[0], k);
  }

  lemma CutLater(fs: seq<Field>, k: nat)
    requires fs != [] && WellFormed(fs[0]) && |EncodeField(fs[0])| <= k <= |Encode(fs)|
    requires var m := k - |EncodeField(fs[0])|; Parse(Encode(fs[1..])[..m]) == ParseCut(fs[1..], m)
    ensures Parse(Encode(fs)[..k]) == ParseCut(fs, k)
  {
    var first, rest := EncodeField(fs[0]), Encode(fs[1..]);
    CutOfSum(first, rest, k);
    ParseFirst(fs[0], rest[..k - |first|]);
  }

  lemma CutOfSum(a: seq<Byte>, b: seq<Byte>, k: nat)
    requires k <= |a + b|
    ensures (a + b)[..k] == if k >= |a| then a + b[..k - |a|] else a[..k]
  {
  }

  /** A string of two bytes that arrives with one. */
  lemma CutStringIsAccepted()
    ensures Parse(EncodeField(Field(1, Bytes([7, 8])))[..3]) == Ok([Field(1, Bytes([7]))])
  {
    var f := Field(1, Bytes([7, 8]));
    assert EncodeVarint(10) == [10] && EncodeVarint(2) == [2];
    CutFieldIff(f, 3);
    assert [7, 8][..1] == [7];
  }
}
