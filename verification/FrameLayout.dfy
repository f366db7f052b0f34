/**
 * The bytes of a frame and the digits of a UUID (src/ssm/agent-message.ts:82-135), position by position: a reader that
 * makes the writer's mistake would not show it.
 */
module FrameLayout {
  import opened Basics
  import opened JsonText
  import opened AgentMessage
  import D = Duration

  // ---- Integers ----

  /** Four bytes, the most significant first. */
  function Word(s: Bytes, i: nat): int
    requires i + 4 <= |s|
  {
    s[i] as int * 0x100_0000 + s[i + 1] as int * 0x1_0000 + s[i + 2] as int * 0x100 + s[i + 3] as int
  }

  /** Eight bytes, the more significant word first. */
  function Long(s: Bytes, i: nat): int
    requires i + 8 <= |s|
  {
    Word(s, i) * 0x1_0000_0000 + Word(s, i + 4)
  }

  lemma WordAt(s: Bytes, i: nat, v: int)
    requires At(s, i, Be32(v))
    ensures Word(s, i) == v % 0x1_0000_0000
  {
    Get32ReadsBack(s, i, v);
  }

  lemma LongAt(s: Bytes, i: nat, v: int)
    requires At(s, i, Be64(v))
    ensures Long(s, i) == v % 0x1_0000_0000_0000_0000
  {
    Get64ReadsBack(s, i, v);
  }

  // ---- The frame ----

  /** The type's bytes, cut off after 32 or filled up with spaces. */
  predicate TypeBytes(s: Bytes, t: Bytes) {
    |s| >= 36 && forall k :: 0 <= k < 32 ==> s[4 + k] == if k < |t| then t[k] else 0x20
  }

  lemma TypeLaidOut(s: Bytes, t: Bytes)
    requires At(s, 4, TypeField(t))
    ensures TypeBytes(s, t)
  {
    var f := TypeField(t);
    forall k | 0 <= k < 32 ensures s[4 + k] == if k < |t| then t[k] else 0x20 {
      assert s[4 + k] == f[k];
    }
  }

  lemma HeaderLaidOut(s: Bytes, m: Message)
    requires |s| >= 64 && At(s, 0, Header(m))
    ensures s[0..4] == [0, 0, 0, 116] && TypeBytes(s, m.messageType)
    ensures Word(s, 36) == m.schemaVersion % 0x1_0000_0000
    ensures Long(s, 40) == m.createdDate % 0x1_0000_0000_0000_0000
    ensures Long(s, 48) == m.sequenceNumber % 0x1_0000_0000_0000_0000
    ensures Long(s, 56) == m.flags % 0x1_0000_0000_0000_0000
  {
    HeaderFields(s, 0, m);
    TypeLaidOut(s, m.messageType);
    WordAt(s, 36, m.schemaVersion);
    LongAt(s, 40, m.createdDate);
    LongAt(s, 48, m.sequenceNumber);
    LongAt(s, 56, m.flags);
    LengthWord(s, m);
  }

  lemma LengthWord(s: Bytes, m: Message)
    requires |s| >= 64 && At(s, 0, Header(m))
    ensures s[0..4] == [0, 0, 0, 116]
  {
    var word := Be32(O_PLEN);
    assert word == [0, 0, 0, 116];
    assert Header(m)[0..4] == word;
    assert forall k :: 0 <= k < 4 ==> s[0 + k] == Header(m)[k];
  }

  lemma HalvesSwapped(s: Bytes, id: Bytes)
    requires |id| == 16 && |s| >= 80 && At(s, 64, Swap(id))
    ensures s[64..72] == id[8..16] && s[72..80] == id[0..8]
  {
    var w := Swap(id);
    assert forall k :: 0 <= k < 16 ==> s[64 + k] == w[k];
    assert w[0..8] == id[8..16] && w[8..16] == id[0..8];
    AtSlice(s, 64, w);
    assert s[64..80] == w;
    assert s[64..72] == s[64..80][0..8] && s[72..80] == s[64..80][8..16];
  }

  /**
   * Every byte of a frame: the header length 116, the type in 32 bytes, version, date, number and flags, the UUID with
   * its second half first, the digest, the payload's type and length, and the payload.
   */
  lemma FrameBytes(m: Message, id: Bytes, digest: Bytes, f: Bytes)
    requires |id| == 16 && |digest| == 32 && f == Frame(m, id, digest)
    ensures |f| == 120 + |m.payload|
    ensures f[0..4] == [0, 0, 0, 116] && TypeBytes(f, m.messageType)
    ensures Word(f, 36) == m.schemaVersion % 0x1_0000_0000
    ensures Long(f, 40) == m.createdDate % 0x1_0000_0000_0000_0000
    ensures Long(f, 48) == m.sequenceNumber % 0x1_0000_0000_0000_0000
    ensures Long(f, 56) == m.flags % 0x1_0000_0000_0000_0000
    ensures f[64..72] == id[8..16] && f[72..80] == id[0..8] && f[80..112] == digest
    ensures Word(f, 112) == m.payloadType % 0x1_0000_0000 && Word(f, 116) == |m.payload| % 0x1_0000_0000
    ensures f[120..] == m.payload
  {
    AtParts(f, 0, Header(m), Trailer(m, id, digest));
    HeaderLaidOut(f, m);
    TrailerLaidOut(f, m, id, digest);
  }

  lemma TrailerLaidOut(s: Bytes, m: Message, id: Bytes, digest: Bytes)
    requires |id| == 16 && |digest| == 32 && |s| == 120 + |m.payload| && At(s, 64, Trailer(m, id, digest))
    ensures s[64..72] == id[8..16] && s[72..80] == id[0..8] && s[80..112] == digest
    ensures Word(s, 112) == m.payloadType % 0x1_0000_0000 && Word(s, 116) == |m.payload| % 0x1_0000_0000
    ensures s[120..] == m.payload
  {
    TrailerFields(s, 64, m, id, digest);
    HalvesSwapped(s, id);
    DigestAt(s, m, id, digest);
    WordAt(s, 112, m.payloadType);
    WordAt(s, 116, |m.payload|);
    AtSlice(s, 120, m.payload);
  }

  lemma DigestAt(s: Bytes, m: Message, id: Bytes, digest: Bytes)
    requires |id| == 16 && |digest| == 32 && |s| == 120 + |m.payload| && At(s, 64, Trailer(m, id, digest))
    ensures s[80..112] == digest
  {
    var rest := Be32(m.payloadType) + Be32(|m.payload|) + m.payload;
    assert Trailer(m, id, digest) == Swap(id) + (digest + rest);
    AtParts(s, 64, Swap(id), digest + rest);
    AtParts(s, 80, digest, rest);
    AtSlice(s, 80, digest);
  }

  // ---- UUIDs ----

  /** Where digit k stands: four hyphens come in between. */
  function DigitPosition(k: nat): nat {
    k + (if k < 8 then 0 else if k < 12 then 1 else if k < 16 then 2 else if k < 20 then 3 else 4)
  }

  predicate LowerHex(c: Code, d: int) {
    if d < 10 then c == 0x30 + d else d < 16 && c == 0x61 + d - 10
  }

  lemma Hyphenated(h: Text, k: nat)
    requires |h| == 32 && k < 32
    ensures var u := Hyphenate(h);
            u[DigitPosition(k)] == h[k] && u[8] == 0x2d && u[13] == 0x2d && u[18] == 0x2d && u[23] == 0x2d
  {
  }

  lemma DigitOf(b: Bytes, k: nat)
    requires |b| == 16 && k < 32
    ensures LowerHex(HexOf(b)[k], if k % 2 == 0 then b[k / 2] as int / 16 else b[k / 2] as int % 16)
  {
  }

  /**
   * Digit k of a UUID's text is the high or the low half of its byte, in lower-case hexadecimal, and hyphens stand
   * where they should.
   */
  lemma UuidDigits(b: Bytes, k: nat)
    requires |b| == 16 && k < 32
    ensures var u := BytesToUuid(b);
            && LowerHex(u[DigitPosition(k)], if k % 2 == 0 then b[k / 2] as int / 16 else b[k / 2] as int % 16)
            && u[8] == 0x2d && u[13] == 0x2d && u[18] == 0x2d && u[23] == 0x2d
  {
    Hyphenated(HexOf(b), k);
    DigitOf(b, k);
  }

  /** What a pair of units reads as: it stops at the first that is no digit, after a sign or white space. */
  lemma PairValue(a: Code, b: Code)
    ensures !IsHex(b) ==> ParsePair(a, b) == if IsHex(a) then ParsePair(0x30, a) else 0
    ensures IsHex(a) && IsHex(b) ==> ParsePair(a, b) == ParsePair(0x30, a) * 16 + ParsePair(0x30, b)
    ensures !IsHex(a) && IsHex(b) ==> ParsePair(a, b) == if a == 0x2b || IsSpace(a) then ParsePair(0x30, b) else 0
  {
  }

  /** What is skipped there is what a duration is trimmed of. */
  lemma SameSpaces(c: Code)
    requires c < 0xd800 || c >= 0xe000
    ensures IsSpace(c) <==> D.IsSpace(c as char)
  {
  }

  /** And of it, what is ASCII is what a type is trimmed of. */
  lemma SameBlanks(b: Byte)
    requires b < 0x80
    ensures IsBlank(b) <==> IsSpace(b)
  {
  }
}
