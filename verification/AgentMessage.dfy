/**
 * The SSM agent message frame of src/ssm/agent-message.ts:83-168: `serialize` writes a buffer in place and
 * `deserialize` reads it back at any offset of a larger one.
 */
module AgentMessage {
  import opened Basics
  import opened JsonText
  import GoJson
  import JsonReader

  type Byte = b: int | 0 <= b < 0x100

  type Bytes = seq<Byte>

  /**
   * Numbers as the caller gives them; `messageType` is the encoding of the type's text, which is ASCII in the
   * protocol.
   */
  datatype Message = Message(
    messageType: Bytes, schemaVersion: int, createdDate: int, sequenceNumber: int, flags: int, messageId: Text,
    payloadType: int, payload: Bytes)

  const O_MSGTYPE := 4
  const L_MSGTYPE := 32
  const O_SCHEMA := 36
  const O_CREATED := 40
  const O_SEQ := 48
  const O_FLAGS := 56
  const O_MSGID := 64
  const O_DIGEST := 80
  const O_PTYPE := 112
  const O_PLEN := 116
  const O_PAYLOAD := 120

  const TWO_32 := 0x1_0000_0000
  const TWO_64 := 0x1_0000_0000_0000_0000

  // ---- Big-endian integers ----

  /** What `setUint32` writes: the value modulo 2^32. */
  function Be32(v: int): (r: Bytes)
    ensures |r| == 4
  {
    var u := v % TWO_32;
    [u / 0x100_0000, u / 0x1_0000 % 0x100, u / 0x100 % 0x100, u % 0x100]
  }

  /** What `setU64` writes: the two halves. */
  function Be64(v: int): (r: Bytes)
    ensures |r| == 8
  {
    Be32(v / TWO_32) + Be32(v)
  }

  function Get32(s: Bytes, i: nat): (v: nat)
    requires i + 4 <= |s|
    ensures v < TWO_32
  {
    var a: nat, b: nat, c: nat, d: nat := s[i], s[i + 1], s[i + 2], s[i + 3];
    ((a * 0x100 + b) * 0x100 + c) * 0x100 + d
  }

  function Get64(s: Bytes, i: nat): nat
    requires i + 8 <= |s|
  {
    Get32(s, i) * TWO_32 + Get32(s, i + 4)
  }

  predicate At(s: Bytes, i: nat, t: Bytes) {
    i + |t| <= |s| && forall k :: 0 <= k < |t| ==> s[i + k] == t[k]
  }

  lemma AtParts(s: Bytes, i: nat, t: Bytes, u: Bytes)
    requires At(s, i, t + u)
    ensures At(s, i, t) && At(s, i + |t|, u)
  {
    forall k | 0 <= k < |t| ensures s[i + k] == t[k] { assert (t + u)[k] == t[k]; }
    forall k | 0 <= k < |u| ensures s[i + |t| + k] == u[k] { assert (t + u)[|t| + k] == u[k]; }
  }

  lemma Digits256(u: nat)
    requires u < TWO_32
    ensures ((u / 0x100_0000 * 0x100 + u / 0x1_0000 % 0x100) * 0x100 + u / 0x100 % 0x100) * 0x100 + u % 0x100 == u
  {
  }

  lemma Get32ReadsBack(s: Bytes, i: nat, v: int)
    requires At(s, i, Be32(v))
    ensures Get32(s, i) == v % TWO_32
  {
    var b := Be32(v);
    assert s[i + 0] == b[0] && s[i + 1] == b[1] && s[i + 2] == b[2] && s[i + 3] == b[3];
    Digits256(v % TWO_32);
  }

  lemma SplitModulus(v: int)
    ensures (v / TWO_32) % TWO_32 * TWO_32 + v % TWO_32 == v % TWO_64
  {
    var q, r := v / TWO_32, v % TWO_32;
    var a, b := q / TWO_32, q % TWO_32;
    assert v == a * TWO_64 + (b * TWO_32 + r);
    ModulusOf(v, a, b * TWO_32 + r);
  }

  lemma ModulusOf(v: int, a: int, rest: nat)
    requires v == a * TWO_64 + rest && rest < TWO_64
    ensures v % TWO_64 == rest
  {
  }

  lemma Get64ReadsBack(s: Bytes, i: nat, v: int)
    requires At(s, i, Be64(v))
    ensures Get64(s, i) == v % TWO_64
  {
    AtParts(s, i, Be32(v / TWO_32), Be32(v));
    Get32ReadsBack(s, i, v / TWO_32);
    Get32ReadsBack(s, i + 4, v);
    SplitModulus(v);
  }

  // ---- UUIDs ----

  const HYPHEN: Code := 0x2d

  /** The text without its hyphens. */
  function Strip(u: Text): Text {
    if |u| == 0 then [] else Strip(u[..|u| - 1]) + (if u[|u| - 1] == HYPHEN then [] else [u[|u| - 1]])
  }

  /** The code units `parseInt` skips at the start. */
  predicate IsSpace(c: Code) {
    || 0x09 <= c <= 0x0d || c == 0x20 || c == 0xa0 || c == 0x1680 || 0x2000 <= c <= 0x200a
    || c == 0x2028 || c == 0x2029 || c == 0x202f || c == 0x205f || c == 0x3000 || c == 0xfeff
  }

  predicate IsHex(c: Code) { JsonReader.HexValue(c) < 16 }

  /** `parseInt` of two code units in base 16, NaN stored as 0: it stops at the first unit that is no digit. */
  function ParsePair(a: Code, b: Code): Byte {
    var x, y := JsonReader.HexValue(a), JsonReader.HexValue(b);
    if IsHex(a) then if IsHex(b) then x * 16 + y else x
    else if (IsSpace(a) || a == 0x2b) && IsHex(b) then y
    else 0
  }

  function PairsToBytes(hex: Text): (r: Bytes)
    requires |hex| == 32
    ensures |r| == 16
  {
    seq(16, i requires 0 <= i < 16 => ParsePair(hex[2 * i], hex[2 * i + 1]))
  }

  /** `uuidToBytes`; None where it throws. */
  function UuidToBytes(uuid: Text): (r: Option<Bytes>)
    ensures r.Some? ==> |r.value| == 16
  {
    var hex := Strip(uuid);
    if |hex| != 32 then None else Some(PairsToBytes(hex))
  }

  function HexOf(b: Bytes): (h: Text)
    ensures |h| == 2 * |b|
  {
    seq(2 * |b|, k requires 0 <= k < 2 * |b| => GoJson.HexDigit(if k % 2 == 0 then b[k / 2] / 16 else b[k / 2] % 16))
  }

  /** 32 hexadecimal digits in groups of 8, 4, 4, 4 and 12. */
  function Hyphenate(h: Text): Text
    requires |h| == 32
  {
    h[..8] + [HYPHEN] + h[8..12] + [HYPHEN] + h[12..16] + [HYPHEN] + h[16..20] + [HYPHEN] + h[20..]
  }

  function BytesToUuid(b: Bytes): (u: Text)
    requires |b| == 16
    ensures |u| == 36
  {
    Hyphenate(HexOf(b))
  }

  /** A digit `toString(16)` writes. */
  predicate IsLowerHex(c: Code) { 0x30 <= c <= 0x39 || 0x61 <= c <= 0x66 }

  /** Lower-case digits in the standard grouping. */
  ghost predicate CanonicalUuid(u: Text) {
    exists h: Text :: |h| == 32 && (forall k :: 0 <= k < 32 ==> IsLowerHex(h[k])) && u == Hyphenate(h)
  }

  lemma {:induction false} StripConcat(a: Text, b: Text)
    ensures Strip(a + b) == Strip(a) + Strip(b)
  {
    if |b| == 0 {
      assert a + b == a;
    } else {
      assert (a + b)[..|a + b| - 1] == a + b[..|b| - 1];
      StripConcat(a, b[..|b| - 1]);
    }
  }

  lemma {:induction false} StripNone(a: Text)
    requires forall k :: 0 <= k < |a| ==> a[k] != HYPHEN
    ensures Strip(a) == a
  {
    if |a| > 0 { StripNone(a[..|a| - 1]); }
  }

  lemma StripAfter(a: Text, b: Text)
    requires forall k :: 0 <= k < |b| ==> b[k] != HYPHEN
    ensures Strip(a + [HYPHEN] + b) == Strip(a) + b
  {
    StripConcat(a + [HYPHEN], b);
    HyphenDropped(a);
    StripNone(b);
  }

  lemma HyphenDropped(a: Text)
    ensures Strip(a + [HYPHEN]) == Strip(a)
  {
    assert (a + [HYPHEN])[..|a|] == a;
  }

  lemma StripHyphenated(h: Text)
    requires |h| == 32 && forall k :: 0 <= k < 32 ==> h[k] != HYPHEN
    ensures Strip(Hyphenate(h)) == h
  {
    var a := h[..8];
    var b := a + [HYPHEN] + h[8..12];
    var c := b + [HYPHEN] + h[12..16];
    var d := c + [HYPHEN] + h[16..20];
    StripNone(a);
    StripAfter(a, h[8..12]);
    StripAfter(b, h[12..16]);
    StripAfter(c, h[16..20]);
    StripAfter(d, h[20..]);
    assert Hyphenate(h) == d + [HYPHEN] + h[20..];
    assert h[..8] + h[8..12] + h[12..16] + h[16..20] + h[20..] == h;
  }

  lemma PairReadsBack(a: Code, b: Code)
    requires IsLowerHex(a) && IsLowerHex(b)
    ensures GoJson.HexDigit(ParsePair(a, b) / 16) == a && GoJson.HexDigit(ParsePair(a, b) % 16) == b
  {
  }

  lemma HexReadsBack(h: Text)
    requires |h| == 32 && forall k :: 0 <= k < 32 ==> IsLowerHex(h[k])
    ensures HexOf(PairsToBytes(h)) == h
  {
    forall k | 0 <= k < 32 ensures HexOf(PairsToBytes(h))[k] == h[k] {
      var i := k / 2;
      PairReadsBack(h[2 * i], h[2 * i + 1]);
    }
  }

  lemma HexIsLower(b: Bytes)
    ensures forall k :: 0 <= k < |HexOf(b)| ==> IsLowerHex(HexOf(b)[k])
  {
  }

  lemma WrittenIsCanonical(b: Bytes)
    requires |b| == 16
    ensures CanonicalUuid(BytesToUuid(b))
  {
    HexIsLower(b);
  }

  /** A UUID survives the trip through its bytes exactly when it is canonical. */
  lemma UuidRoundTripIff(u: Text)
    ensures UuidToBytes(u).Some? && BytesToUuid(UuidToBytes(u).value) == u <==> CanonicalUuid(u)
  {
    if UuidToBytes(u).Some? && BytesToUuid(UuidToBytes(u).value) == u {
      WrittenIsCanonical(UuidToBytes(u).value);
    }
    if CanonicalUuid(u) {
      var h: Text :| |h| == 32 && (forall k :: 0 <= k < 32 ==> IsLowerHex(h[k])) && u == Hyphenate(h);
      StripHyphenated(h);
      HexReadsBack(h);
    }
  }

  /** The two 8-byte halves change places. */
  function Swap(b: Bytes): (r: Bytes)
    requires |b| == 16
    ensures |r| == 16
  {
    b[8..] + b[..8]
  }

  lemma SwapTwice(b: Bytes)
    requires |b| == 16
    ensures Swap(Swap(b)) == b
  {
  }

  // ---- The frame ----

  function Spaces(n: nat): (r: Bytes)
    ensures |r| == n && forall k :: 0 <= k < n ==> r[k] == 0x20
  {
    seq(n, _ => 0x20)
  }

  /** The 32 bytes of the type field: cut off or filled with spaces. */
  function TypeField(t: Bytes): (r: Bytes)
    ensures |r| == L_MSGTYPE
  {
    if |t| >= L_MSGTYPE then t[..L_MSGTYPE] else t + Spaces(L_MSGTYPE - |t|)
  }

  function Header(m: Message): (r: Bytes)
    ensures |r| == O_MSGID
  {
    Be32(O_PLEN) + TypeField(m.messageType) + Be32(m.schemaVersion) + Be64(m.createdDate) + Be64(m.sequenceNumber)
      + Be64(m.flags)
  }

  function Trailer(m: Message, id: Bytes, digest: Bytes): (r: Bytes)
    requires |id| == 16 && |digest| == 32
    ensures |r| == O_PAYLOAD - O_MSGID + |m.payload|
  {
    Swap(id) + digest + Be32(m.payloadType) + Be32(|m.payload|) + m.payload
  }

  /** The wire layout, field after field. */
  function Frame(m: Message, id: Bytes, digest: Bytes): (r: Bytes)
    requires |id| == 16 && |digest| == 32
    ensures |r| == O_PAYLOAD + |m.payload|
  {
    Header(m) + Trailer(m, id, digest)
  }

  datatype FrameError = RangeError | InvalidUuid

  // ---- serialize ----

  method SetUint32(a: array<Byte>, off: nat, v: int)
    requires off + 4 <= a.Length
    modifies a
    ensures a[..off + 4] == old(a[..off]) + Be32(v)
    ensures a[off + 4..] == old(a[off + 4..])
  {
    var u := v % TWO_32;
    a[off] := u / 0x100_0000;
    a[off + 1] := u / 0x1_0000 % 0x100;
    a[off + 2] := u / 0x100 % 0x100;
    a[off + 3] := u % 0x100;
  }

  method SetU64(a: array<Byte>, off: nat, value: int)
    requires off + 8 <= a.Length
    modifies a
    ensures a[..off + 8] == old(a[..off]) + Be64(value)
    ensures a[off + 8..] == old(a[off + 8..])
  {
    var high := value / TWO_32;
    SetUint32(a, off, high);
    SetUint32(a, off + 4, value);
    assert old(a[off + 8..]) == old(a[off + 4..])[4..];
  }

  /** `TypedArray.prototype.set`. */
  method SetBytes(a: array<Byte>, off: nat, b: Bytes)
    requires off + |b| <= a.Length
    modifies a
    ensures a[..off + |b|] == old(a[..off]) + b
    ensures a[off + |b|..] == old(a[off + |b|..])
  {
    forall k | 0 <= k < |b| { a[off + k] := b[k]; }
  }

  method Fill(a: array<Byte>, value: Byte, from: nat, to: nat)
    requires from <= to <= a.Length
    modifies a
    ensures a[..from] == old(a[..from]) && a[to..] == old(a[to..])
    ensures forall k :: from <= k < to ==> a[k] == value
  {
    forall k | from <= k < to { a[k] := value; }
  }

  /** The type, padded; a longer one runs over the fields behind, which are written later. */
  method WriteType(a: array<Byte>, t: Bytes)
    requires O_MSGTYPE + L_MSGTYPE <= a.Length && O_MSGTYPE + |t| <= a.Length
    modifies a
    ensures a[..O_SCHEMA] == old(a[..O_MSGTYPE]) + TypeField(t)
  {
    Fill(a, 0x20, O_MSGTYPE, O_MSGTYPE + L_MSGTYPE);
    ghost var filled := a[..];
    SetBytes(a, O_MSGTYPE, t);
    forall k | 0 <= k < O_SCHEMA ensures a[k] == (old(a[..O_MSGTYPE]) + TypeField(t))[k] {
      if k < O_MSGTYPE + |t| {
        assert a[k] == a[..O_MSGTYPE + |t|][k];
      } else {
        assert a[k] == a[O_MSGTYPE + |t|..][k - O_MSGTYPE - |t|] == filled[k];
      }
    }
  }

  /** The low half of the UUID first, then the high half. */
  method WriteUuidSwapped(a: array<Byte>, off: nat, b: Bytes)
    requires off + 16 <= a.Length && |b| == 16
    modifies a
    ensures a[..off + 16] == old(a[..off]) + Swap(b)
    ensures a[off + 16..] == old(a[off + 16..])
  {
    for i := 0 to 8
      invariant a[..off] == old(a[..off]) && a[off + 16..] == old(a[off + 16..])
      invariant a[off..off + i] == Swap(b)[..i]
    {
      a[off + i] := b[i + 8];
      assert a[off..off + i + 1] == a[off..off + i] + [a[off + i]];
    }
    for i := 0 to 8
      invariant a[..off] == old(a[..off]) && a[off + 16..] == old(a[off + 16..])
      invariant a[off..off + 8 + i] == Swap(b)[..8 + i]
    {
      a[off + 8 + i] := b[i];
      assert a[off..off + 8 + i + 1] == a[off..off + 8 + i] + [a[off + 8 + i]];
    }
    assert a[..off + 16] == a[..off] + a[off..off + 16];
  }

  /** The fields up to the message id. */
  method WriteHeader(a: array<Byte>, m: Message)
    requires a.Length >= O_PAYLOAD && O_MSGTYPE + |m.messageType| <= a.Length
    modifies a
    ensures a[..O_MSGID] == Header(m)
  {
    SetUint32(a, 0, O_PLEN);
    WriteType(a, m.messageType);
    SetUint32(a, O_SCHEMA, m.schemaVersion);
    SetU64(a, O_CREATED, m.createdDate);
    SetU64(a, O_SEQ, m.sequenceNumber);
    SetU64(a, O_FLAGS, m.flags);
  }

  /** `serialize`; the digest is the hash of the payload. */
  method Serialize(m: Message, digest: Bytes) returns (r: Result<array<Byte>, FrameError>)
    requires |digest| == 32
    ensures O_MSGTYPE + |m.messageType| > O_PAYLOAD + |m.payload| ==> r == Err(RangeError)
    ensures O_MSGTYPE + |m.messageType| <= O_PAYLOAD + |m.payload| && UuidToBytes(m.messageId).None? ==>
              r == Err(InvalidUuid)
    ensures O_MSGTYPE + |m.messageType| <= O_PAYLOAD + |m.payload| && UuidToBytes(m.messageId).Some? ==>
              r.Ok? && fresh(r.value) && r.value[..] == Frame(m, UuidToBytes(m.messageId).value, digest)
  {
    var bytes := new Byte[O_PAYLOAD + |m.payload|];
    if O_MSGTYPE + |m.messageType| > bytes.Length { return Err(RangeError); }
    WriteHeader(bytes, m);
    var id := UuidToBytes(m.messageId);
    if id.None? { return Err(InvalidUuid); }
    WriteTrailer(bytes, m, id.value, digest);
    return Ok(bytes);
  }

  method WriteTrailer(a: array<Byte>, m: Message, id: Bytes, digest: Bytes)
    requires a.Length == O_PAYLOAD + |m.payload| && |id| == 16 && |digest| == 32 && a[..O_MSGID] == Header(m)
    modifies a
    ensures a[..] == Frame(m, id, digest)
  {
    WriteUuidSwapped(a, O_MSGID, id);
    SetBytes(a, O_DIGEST, digest);
    SetUint32(a, O_PTYPE, m.payloadType);
    SetUint32(a, O_PLEN, |m.payload|);
    SetBytes(a, O_PAYLOAD, m.payload);
    assert a[..] == a[..O_PAYLOAD + |m.payload|];
    assert Frame(m, id, digest) == Header(m) + Swap(id) + digest + Be32(m.payloadType) + Be32(|m.payload|) + m.payload;
  }

  // ---- deserialize ----

  function WithoutNul(t: Bytes): (r: Bytes)
    ensures |r| <= |t| && forall k :: 0 <= k < |r| ==> r[k] != 0 && r[k] in t
  {
    if |t| == 0 then []
    else WithoutNul(t[..|t| - 1]) + (if t[|t| - 1] == 0 then [] else [t[|t| - 1]])
  }

  /** ASCII white space, as `trim` removes it. */
  predicate IsBlank(b: Byte) { 0x09 <= b <= 0x0d || b == 0x20 }

  predicate Trimmed(t: Bytes) {
    |t| > 0 ==> !IsBlank(t[0]) && !IsBlank(t[|t| - 1])
  }

  function Trim(t: Bytes): (r: Bytes)
    ensures Trimmed(r) && |r| <= |t| && forall k :: 0 <= k < |r| ==> r[k] in t
  {
    if |t| > 0 && IsBlank(t[0]) then Trim(t[1..])
    else if |t| > 0 && IsBlank(t[|t| - 1]) then Trim(t[..|t| - 1])
    else t
  }

  /** The type read from its field. */
  function ReadType(field: Bytes): Bytes {
    Trim(WithoutNul(field))
  }

  /** `deserialize` of the view of `len` bytes at `off`. */
  function Deserialize(buffer: Bytes, off: nat, len: nat): Result<Message, FrameError>
    requires off + len <= |buffer|
  {
    if len < O_PAYLOAD then Err(RangeError)
    else
      var end := Min(O_PAYLOAD + Get32(buffer, off + O_PLEN), len);
      Ok(Message(
        ReadType(buffer[off + O_MSGTYPE..off + O_SCHEMA]),
        Get32(buffer, off + O_SCHEMA),
        Get64(buffer, off + O_CREATED),
        Get64(buffer, off + O_SEQ),
        Get64(buffer, off + O_FLAGS),
        BytesToUuid(Swap(buffer[off + O_MSGID..off + O_DIGEST])),
        Get32(buffer, off + O_PTYPE),
        buffer[off + O_PAYLOAD..off + end]))
  }

  // ---- The round trip ----

  lemma AtSlice(s: Bytes, i: nat, t: Bytes)
    requires At(s, i, t)
    ensures s[i..i + |t|] == t
  {
  }

  lemma HeaderFields(s: Bytes, off: nat, m: Message)
    requires At(s, off, Header(m))
    ensures At(s, off + O_MSGTYPE, TypeField(m.messageType)) && At(s, off + O_SCHEMA, Be32(m.schemaVersion))
    ensures At(s, off + O_CREATED, Be64(m.createdDate)) && At(s, off + O_SEQ, Be64(m.sequenceNumber))
    ensures At(s, off + O_FLAGS, Be64(m.flags))
  {
    var a := Be32(O_PLEN);
    var b := a + TypeField(m.messageType);
    var c := b + Be32(m.schemaVersion);
    var d := c + Be64(m.createdDate);
    var e := d + Be64(m.sequenceNumber);
    AtParts(s, off, e, Be64(m.flags));
    AtParts(s, off, d, Be64(m.sequenceNumber));
    AtParts(s, off, c, Be64(m.createdDate));
    AtParts(s, off, b, Be32(m.schemaVersion));
    AtParts(s, off, a, TypeField(m.messageType));
  }

  lemma TrailerFields(s: Bytes, i: nat, m: Message, id: Bytes, digest: Bytes)
    requires |id| == 16 && |digest| == 32 && At(s, i, Trailer(m, id, digest))
    ensures At(s, i, Swap(id)) && At(s, i + 48, Be32(m.payloadType))
    ensures At(s, i + 52, Be32(|m.payload|)) && At(s, i + 56, m.payload)
  {
    var a := Swap(id) + digest;
    var b := a + Be32(m.payloadType);
    var c := b + Be32(|m.payload|);
    AtParts(s, i, c, m.payload);
    AtParts(s, i, b, Be32(|m.payload|));
    AtParts(s, i, a, Be32(m.payloadType));
    AtParts(s, i, Swap(id), digest);
  }

  /** What comes back from a frame: every field within its width. */
  function Received(m: Message, id: Bytes): Message
    requires |id| == 16
  {
    PayloadIff(m.payload);
    Message(
      ReadType(TypeField(m.messageType)), m.schemaVersion % TWO_32, m.createdDate % TWO_64, m.sequenceNumber % TWO_64,
      m.flags % TWO_64, BytesToUuid(id), m.payloadType % TWO_32, m.payload[..|m.payload| % TWO_32])
  }

  lemma HeaderReadsBack(s: Bytes, off: nat, m: Message)
    requires At(s, off, Header(m))
    ensures s[off + O_MSGTYPE..off + O_SCHEMA] == TypeField(m.messageType)
    ensures Get32(s, off + O_SCHEMA) == m.schemaVersion % TWO_32
    ensures Get64(s, off + O_CREATED) == m.createdDate % TWO_64
    ensures Get64(s, off + O_SEQ) == m.sequenceNumber % TWO_64
    ensures Get64(s, off + O_FLAGS) == m.flags % TWO_64
  {
    HeaderFields(s, off, m);
    AtSlice(s, off + O_MSGTYPE, TypeField(m.messageType));
    Get32ReadsBack(s, off + O_SCHEMA, m.schemaVersion);
    Get64ReadsBack(s, off + O_CREATED, m.createdDate);
    Get64ReadsBack(s, off + O_SEQ, m.sequenceNumber);
    Get64ReadsBack(s, off + O_FLAGS, m.flags);
  }

  lemma TrailerReadsBack(s: Bytes, i: nat, m: Message, id: Bytes, digest: Bytes)
    requires |id| == 16 && |digest| == 32 && At(s, i, Trailer(m, id, digest))
    ensures s[i..i + 16] == Swap(id)
    ensures Get32(s, i + 48) == m.payloadType % TWO_32
    ensures Get32(s, i + 52) == |m.payload| % TWO_32 <= |m.payload|
    ensures s[i + 56..i + 56 + |m.payload| % TWO_32] == m.payload[..|m.payload| % TWO_32]
  {
    TrailerFields(s, i, m, id, digest);
    AtSlice(s, i, Swap(id));
    Get32ReadsBack(s, i + 48, m.payloadType);
    Get32ReadsBack(s, i + 52, |m.payload|);
    PayloadIff(m.payload);
    AtPrefix(s, i + 56, m.payload, |m.payload| % TWO_32);
  }

  lemma AtPrefix(s: Bytes, i: nat, t: Bytes, n: nat)
    requires At(s, i, t) && n <= |t|
    ensures s[i..i + n] == t[..n]
  {
  }

  predicate IsAscii(t: Bytes) {
    forall k :: 0 <= k < |t| ==> t[k] < 0x80
  }

  lemma Assembled(s: Bytes, off: nat, m: Message, id: Bytes)
    requires |id| == 16 && off + O_PAYLOAD + |m.payload| <= |s| && |m.payload| % TWO_32 <= |m.payload|
    requires s[off + O_MSGTYPE..off + O_SCHEMA] == TypeField(m.messageType)
    requires Get32(s, off + O_SCHEMA) == m.schemaVersion % TWO_32
    requires Get64(s, off + O_CREATED) == m.createdDate % TWO_64
    requires Get64(s, off + O_SEQ) == m.sequenceNumber % TWO_64
    requires Get64(s, off + O_FLAGS) == m.flags % TWO_64
    requires s[off + O_MSGID..off + O_DIGEST] == Swap(id) && Swap(Swap(id)) == id
    requires Get32(s, off + O_PTYPE) == m.payloadType % TWO_32
    requires Get32(s, off + O_PLEN) == |m.payload| % TWO_32
    requires s[off + O_PAYLOAD..off + O_PAYLOAD + |m.payload| % TWO_32] == m.payload[..|m.payload| % TWO_32]
    ensures Deserialize(s, off, O_PAYLOAD + |m.payload|) == Ok(Received(m, id))
  {
  }

  /** A frame standing anywhere in a buffer is read as the message, each field within its width. */
  lemma FrameReadsBack(buffer: Bytes, off: nat, m: Message, id: Bytes, digest: Bytes)
    requires |id| == 16 && |digest| == 32 && IsAscii(m.messageType) && At(buffer, off, Frame(m, id, digest))
    ensures |m.payload| % TWO_32 <= |m.payload|
    ensures Deserialize(buffer, off, O_PAYLOAD + |m.payload|) == Ok(Received(m, id))
  {
    AtParts(buffer, off, Header(m), Trailer(m, id, digest));
    HeaderReadsBack(buffer, off, m);
    TrailerReadsBack(buffer, off + O_MSGID, m, id, digest);
    SwapTwice(id);
    PayloadIff(m.payload);
    Assembled(buffer, off, m, id);
  }

  // ---- When nothing is lost ----

  lemma WithoutNulConcat(t: Bytes, n: nat)
    requires forall k :: 0 <= k < |t| ==> t[k] != 0
    ensures WithoutNul(t + Spaces(n)) == t + Spaces(n)
  {
    NoNulKept(t + Spaces(n));
  }

  lemma {:induction false} NoNulKept(t: Bytes)
    requires forall k :: 0 <= k < |t| ==> t[k] != 0
    ensures WithoutNul(t) == t
  {
    if |t| > 0 {
      NoNulKept(t[..|t| - 1]);
      assert t[..|t| - 1] + [t[|t| - 1]] == t;
    }
  }

  lemma {:induction false} TrimSpaces(t: Bytes, n: nat)
    requires Trimmed(t)
    ensures Trim(t + Spaces(n)) == t
    decreases n
  {
    var s := t + Spaces(n);
    if n == 0 {
      assert s == t;
    } else if |t| == 0 {
      assert s[1..] == t + Spaces(n - 1);
      TrimSpaces(t, n - 1);
    } else {
      assert s[..|s| - 1] == t + Spaces(n - 1);
      TrimSpaces(t, n - 1);
    }
  }

  /** A type that survives its field. */
  predicate FitsType(t: Bytes) {
    |t| <= L_MSGTYPE && 0 !in t && Trimmed(t)
  }

  lemma TypeReadsBackIff(t: Bytes)
    ensures ReadType(TypeField(t)) == t <==> FitsType(t)
  {
    if FitsType(t) {
      var n := L_MSGTYPE - |t|;
      assert TypeField(t) == t + Spaces(n);
      WithoutNulConcat(t, n);
      TrimSpaces(t, n);
    }
  }

  /** The message fits the frame. */
  ghost predicate Faithful(m: Message) {
    && FitsType(m.messageType)
    && 0 <= m.schemaVersion < TWO_32 && 0 <= m.payloadType < TWO_32
    && 0 <= m.createdDate < TWO_64 && 0 <= m.sequenceNumber < TWO_64 && 0 <= m.flags < TWO_64
    && CanonicalUuid(m.messageId)
    && |m.payload| < TWO_32
  }

  lemma ReceivedIff(m: Message, id: Bytes)
    requires UuidToBytes(m.messageId) == Some(id)
    ensures Received(m, id) == m <==> Faithful(m)
  {
    TypeReadsBackIff(m.messageType);
    UuidRoundTripIff(m.messageId);
    NumbersIff(m);
    PayloadIff(m.payload);
  }

  lemma NumbersIff(m: Message)
    ensures m.schemaVersion % TWO_32 == m.schemaVersion <==> 0 <= m.schemaVersion < TWO_32
    ensures m.payloadType % TWO_32 == m.payloadType <==> 0 <= m.payloadType < TWO_32
    ensures m.createdDate % TWO_64 == m.createdDate <==> 0 <= m.createdDate < TWO_64
    ensures m.sequenceNumber % TWO_64 == m.sequenceNumber <==> 0 <= m.sequenceNumber < TWO_64
    ensures m.flags % TWO_64 == m.flags <==> 0 <= m.flags < TWO_64
  {
  }

  lemma PayloadIff(p: Bytes)
    ensures |p| % TWO_32 <= |p|
    ensures p[..|p| % TWO_32] == p <==> |p| < TWO_32
  {
    if |p| < TWO_32 { assert p[..|p| % TWO_32] == p; }
  }

  /** `deserialize` undoes `serialize`, wherever the frame stands, exactly for the messages that fit the frame. */
  lemma RoundTripIff(buffer: Bytes, off: nat, m: Message, digest: Bytes)
    requires |digest| == 32 && IsAscii(m.messageType) && UuidToBytes(m.messageId).Some?
    requires At(buffer, off, Frame(m, UuidToBytes(m.messageId).value, digest))
    ensures Deserialize(buffer, off, O_PAYLOAD + |m.payload|) == Ok(m) <==> Faithful(m)
  {
    var id := UuidToBytes(m.messageId).value;
    FrameReadsBack(buffer, off, m, id, digest);
    ReceivedIff(m, id);
  }
}
