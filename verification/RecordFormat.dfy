/** The bytes of a recorded stream: an 8-byte header and 64-byte little-endian records. */
module RecordFormat {
  import opened WordArith
  import opened Message
  import opened Sequences

  const HEADER_SIZE: nat := 8
  const RECORD_SIZE: nat := 64
  const FORMAT_VERSION: U32 := 1
  const MAGIC: seq<Byte> := [0x54, 0x52, 0x45, 0x43]  // "TREC"

  function Zeros(n: nat): (z: seq<Byte>)
    ensures |z| == n
  {
    seq(n, _ => 0)
  }

  /** The header of every recording. */
  function Header(): (bytes: seq<Byte>)
    ensures |bytes| == HEADER_SIZE
  {
    MAGIC + LittleEndian(FORMAT_VERSION, 4)
  }

  /** The record of one message, padding written as zeros. */
  function Record(m: Message): (bytes: seq<Byte>)
    ensures |bytes| == RECORD_SIZE
  {
    LittleEndian(m.streamId, 4) + Zeros(4) + LittleEndian(ToUnsigned(m.tsNs), 8)
    + LittleEndian(m.value, 8) + LittleEndian(m.seqNo, 8) + Zeros(32)
  }

  function Value64(bytes: seq<Byte>): (v: U64)
    requires |bytes| == 8
  {
    ValueBound(bytes);
    Pow2Of64();
    FromLittleEndian(bytes)
  }

  function Value32(bytes: seq<Byte>): (v: U32)
    requires |bytes| == 4
  {
    ValueBound(bytes);
    Pow2Of32();
    FromLittleEndian(bytes)
  }

  lemma Pow2Of32()
    ensures Pow2(32) == 0x1_0000_0000
  {
    Pow2Of8();
    Pow2Sum(8, 8);
    assert Pow2(16) == 0x1_0000;
    Pow2Sum(16, 16);
  }

  /** What a record says, whatever its padding. */
  function Decoded(bytes: seq<Byte>): Message
    requires |bytes| == RECORD_SIZE
  {
    Message(Value32(bytes[0..4]), ToSigned(Value64(bytes[8..16])), Value64(bytes[16..24]), Value64(bytes[24..32]))
  }

  lemma RecordFields(m: Message)
    ensures Record(m)[0..4] == LittleEndian(m.streamId, 4)
    ensures Record(m)[8..16] == LittleEndian(ToUnsigned(m.tsNs), 8)
    ensures Record(m)[16..24] == LittleEndian(m.value, 8)
    ensures Record(m)[24..32] == LittleEndian(m.seqNo, 8)
  {
  }

  lemma Value64RoundTrip(v: U64)
    ensures Value64(LittleEndian(v, 8)) == v
  {
    BytesRoundTrip(v, 8);
    Pow2Of64();
  }

  lemma Value32RoundTrip(v: U32)
    ensures Value32(LittleEndian(v, 4)) == v
  {
    BytesRoundTrip(v, 4);
    Pow2Of32();
  }

  /** Every message survives its record bit for bit. */
  lemma DecodeRecordOf(m: Message)
    ensures Decoded(Record(m)) == m
  {
    RecordFields(m);
    Value32RoundTrip(m.streamId);
    Value64RoundTrip(ToUnsigned(m.tsNs));
    Value64RoundTrip(m.value);
    Value64RoundTrip(m.seqNo);
    SignedRoundTrip(m.tsNs);
  }

  // ----- The buffer routines -----

  method PutU32(p: array<Byte>, off: nat, v: U32)
    requires off + 4 <= p.Length
    modifies p
    ensures p[..] == old(p[..off]) + LittleEndian(v, 4) + old(p[off + 4..])
  {
    PowersOfBytes();
    p[off] := v % 0x100;
    p[off + 1] := v / 0x100 % 0x100;
    p[off + 2] := v / 0x1_0000 % 0x100;
    p[off + 3] := v / 0x100_0000 % 0x100;
  }

  method PutU64(p: array<Byte>, off: nat, v: U64)
    requires off + 8 <= p.Length
    modifies p
    ensures p[..] == old(p[..off]) + LittleEndian(v, 8) + old(p[off + 8..])
  {
    for i := 0 to 8
      invariant p[..off] == old(p[..off]) && p[off + 8..] == old(p[off + 8..])
      invariant p[off..off + i] == LittleEndian(v, 8)[..i]
    {
      p[off + i] := v / Pow2(8 * i) % 0x100;
    }
  }

  /** Or-ing in the next byte. */
  lemma OrNextByte(bytes: seq<Byte>, n: nat)
    requires n < |bytes|
    ensures BitOr(FromLittleEndian(bytes[..n]), bytes[n] * Pow2(8 * n)) == FromLittleEndian(bytes[..n + 1])
  {
    ValueBound(bytes[..n]);
    OrAboveAdds(FromLittleEndian(bytes[..n]), bytes[n], 8 * n);
    assert bytes[..n + 1] == bytes[..n] + [bytes[n]];
    LastByte(bytes[..n], bytes[n]);
  }

  method GetU64(p: array<Byte>, off: nat) returns (v: U64)
    requires off + 8 <= p.Length
    ensures v == Value64(p[off..off + 8])
  {
    ghost var bytes := p[off..off + 8];
    var acc: nat := 0;
    for i := 0 to 8
      invariant acc == FromLittleEndian(bytes[..i])
    {
      assert p[off + i] == bytes[i];
      OrNextByte(bytes, i);
      acc := BitOr(acc, p[off + i] as nat * Pow2(8 * i));
    }
    assert bytes[..8] == bytes;
    assert acc == Value64(bytes);
    return acc;
  }

  lemma OrFour(bytes: seq<Byte>)
    requires |bytes| == 4
    ensures BitOr(BitOr(BitOr(bytes[0], bytes[1] as nat * 0x100), bytes[2] as nat * 0x1_0000),
                  bytes[3] as nat * 0x100_0000)
         == FromLittleEndian(bytes)
  {
    assert bytes[..4] == bytes && bytes[..1] == [bytes[0]] && bytes[..1][1..] == [];
    PowersOfBytes();
    assert FromLittleEndian(bytes[..1]) == bytes[0];
    OrNextByte(bytes, 1);
    OrNextByte(bytes, 2);
    OrNextByte(bytes, 3);
  }

  lemma PowersOfBytes()
    ensures Pow2(0) == 1 && Pow2(8) == 0x100 && Pow2(16) == 0x1_0000 && Pow2(24) == 0x100_0000
  {
    Pow2Of8();
    Pow2Sum(8, 8);
    Pow2Sum(8, 16);
  }

  method GetU32(p: array<Byte>, off: nat) returns (v: U32)
    requires off + 4 <= p.Length
    ensures v == Value32(p[off..off + 4])
  {
    ghost var bytes := p[off..off + 4];
    OrFour(bytes);
    assert bytes[0] == p[off] && bytes[1] == p[off + 1] && bytes[2] == p[off + 2] && bytes[3] == p[off + 3];
    var acc: nat := BitOr(BitOr(BitOr(p[off], p[off + 1] as nat * 0x100), p[off + 2] as nat * 0x1_0000),
                          p[off + 3] as nat * 0x100_0000);
    assert acc == Value32(bytes);
    return acc;
  }

  method EncodeRecord(m: Message, buf: array<Byte>)
    requires buf.Length == RECORD_SIZE
    modifies buf
    ensures buf[..] == Record(m)
  {
    forall i | 0 <= i < RECORD_SIZE { buf[i] := 0; }
    PutU32(buf, 0, m.streamId);
    ghost var b0 := LittleEndian(m.streamId, 4) + Zeros(4);
    assert buf[..] == b0 + Zeros(56);
    PutU64(buf, 8, ToUnsigned(m.tsNs));
    ghost var b1 := b0 + LittleEndian(ToUnsigned(m.tsNs), 8);
    assert buf[..] == b1 + Zeros(48);
    PutU64(buf, 16, m.value);
    ghost var b2 := b1 + LittleEndian(m.value, 8);
    assert buf[..] == b2 + Zeros(40);
    PutU64(buf, 24, m.seqNo);
    assert buf[..] == b2 + LittleEndian(m.seqNo, 8) + Zeros(32);
  }

  method DecodeRecord(buf: array<Byte>) returns (m: Message)
    requires buf.Length == RECORD_SIZE
    ensures m == Decoded(buf[..])
  {
    var id := GetU32(buf, 0);
    var ts := GetU64(buf, 8);
    var value := GetU64(buf, 16);
    var seqNo := GetU64(buf, 24);
    assert buf[..][0..4] == buf[0..4] && buf[..][8..16] == buf[8..16];
    assert buf[..][16..24] == buf[16..24] && buf[..][24..32] == buf[24..32];
    return Message(id, ToSigned(ts), value, seqNo);
  }

  // ----- Whole files -----

  function Records(ms: seq<Message>): (bytes: seq<Byte>)
    ensures |bytes| == RECORD_SIZE * |ms|
  {
    if ms == [] then [] else Records(ms[..|ms| - 1]) + Record(ms[|ms| - 1])
  }

  /** The file of a recorded stream. */
  function Recording(ms: seq<Message>): (bytes: seq<Byte>)
    ensures |bytes| == HEADER_SIZE + RECORD_SIZE * |ms|
  {
    Header() + Records(ms)
  }

  lemma RecordingGrows(ms: seq<Message>, m: Message)
    ensures Recording(ms + [m]) == Recording(ms) + Record(m)
  {
    assert (ms + [m])[..|ms + [m]| - 1] == ms;
  }

  datatype Status = Ok | FileNotFound | BadMagic | UnsupportedVersion

  /** What a replayer makes of the first bytes of a file. */
  function HeaderStatus(file: seq<Byte>): Status {
    if |file| < HEADER_SIZE || file[..4] != MAGIC then BadMagic
    else if Value32(file[4..8]) != FORMAT_VERSION then UnsupportedVersion
    else Ok
  }

  /** The eight bytes every recording starts with: "TREC" and the version. */
  lemma HeaderIsEightBytes()
    ensures Header() == [0x54, 0x52, 0x45, 0x43, 1, 0, 0, 0]
  {
    PowersOfBytes();
    assert LittleEndian(FORMAT_VERSION, 4) == [1, 0, 0, 0];
  }

  /** A file is taken for a recording exactly when it starts with those eight bytes; the
      first four alone tell a newer version from another kind of file. */
  lemma StatusMeaning(file: seq<Byte>)
    ensures HeaderStatus(file) == Ok <==> Header() <= file
    ensures HeaderStatus(file) == BadMagic <==> |file| < 8 || file[..4] != [0x54, 0x52, 0x45, 0x43]
    ensures HeaderStatus(file) != FileNotFound
  {
    HeaderIsEightBytes();
    if Header() <= file {
      HeaderIsOk(file);
    } else if |file| >= 8 && file[..4] == MAGIC {
      VersionBytes(file[4..8]);
      assert file[..8] == file[..4] + file[4..8];
    }
  }

  /** Only one sequence of bytes stands for the version. */
  lemma VersionBytes(bytes: seq<Byte>)
    requires |bytes| == 4
    ensures Value32(bytes) == FORMAT_VERSION ==> bytes == LittleEndian(FORMAT_VERSION, 4)
  {
    BytesRoundTrip(FORMAT_VERSION, 4);
    Pow2Of32();
    if Value32(bytes) == FORMAT_VERSION {
      SameBytes(bytes, LittleEndian(FORMAT_VERSION, 4));
    }
  }

  /** The record byte by byte: stream number, four zeros, time, value, sequence number, and
      zeros; each field's lowest byte first. */
  lemma RecordLayout(m: Message, i: nat)
    requires i < RECORD_SIZE
    ensures Record(m)[i]
         == if i < 4 then m.streamId / Pow2(8 * i) % 0x100
            else if i < 8 then 0
            else if i < 16 then ToUnsigned(m.tsNs) / Pow2(8 * (i - 8)) % 0x100
            else if i < 24 then m.value / Pow2(8 * (i - 16)) % 0x100
            else if i < 32 then m.seqNo / Pow2(8 * (i - 24)) % 0x100
            else 0
  {
  }

  /** Where the record after the first `n` begins. */
  function RecordStart(n: nat): nat { HEADER_SIZE + RECORD_SIZE * n }

  /** The messages in the whole records after the first `n`. */
  function MessagesFrom(file: seq<Byte>, n: nat): seq<Message>
    decreases |file| - n
  {
    if RecordStart(n + 1) > |file| then []
    else [Decoded(file[RecordStart(n)..RecordStart(n + 1)])] + MessagesFrom(file, n + 1)
  }

  lemma {:induction false} RecordAt(ms: seq<Message>, i: nat)
    requires i < |ms|
    ensures |Records(ms)| == RECORD_SIZE * |ms|
    ensures Records(ms)[RECORD_SIZE * i..RECORD_SIZE * (i + 1)] == Record(ms[i])
  {
    var n := |ms| - 1;
    if i < n {
      RecordAt(ms[..n], i);
      assert Records(ms)[RECORD_SIZE * i..RECORD_SIZE * (i + 1)]
          == Records(ms[..n])[RECORD_SIZE * i..RECORD_SIZE * (i + 1)];
    }
  }

  lemma HeaderIsOk(file: seq<Byte>)
    requires Header() <= file
    ensures HeaderStatus(file) == Ok
  {
    assert file[..4] == Header()[..4] == MAGIC;
    assert file[4..8] == Header()[4..8] == LittleEndian(FORMAT_VERSION, 4);
    BytesRoundTrip(FORMAT_VERSION, 4);
    Pow2Of32();
  }

  lemma RecordInFile(ms: seq<Message>, tail: seq<Byte>, i: nat)
    requires i < |ms|
    ensures RecordStart(i + 1) <= |Recording(ms) + tail|
    ensures (Recording(ms) + tail)[RecordStart(i)..RecordStart(i + 1)] == Record(ms[i])
  {
    RecordAt(ms, i);
    MiddlePart(Header(), Records(ms), tail, RECORD_SIZE * i, RECORD_SIZE * (i + 1));
  }

  /** A recording followed by less than a record holds exactly its messages. */
  lemma {:induction false} TailedMessages(ms: seq<Message>, tail: seq<Byte>, i: nat)
    requires |tail| < RECORD_SIZE && i <= |ms|
    ensures MessagesFrom(Recording(ms) + tail, i) == ms[i..]
    decreases |ms| - i
  {
    if i < |ms| {
      TailedMessages(ms, tail, i + 1);
      RecordInFile(ms, tail, i);
      DecodeRecordOf(ms[i]);
      SplitFirst(ms[i..]);
    }
  }

  lemma {:induction false} RecordsPrefix(ms: seq<Message>, n: nat)
    requires n <= |ms|
    ensures Records(ms[..n]) == Records(ms)[..RECORD_SIZE * n]
  {
    if n == |ms| {
      assert ms[..n] == ms;
    } else {
      var k := |ms| - 1;
      RecordsPrefix(ms[..k], n);
      assert ms[..k][..n] == ms[..n];
    }
  }

  lemma RecordingPrefix(ms: seq<Message>, n: nat)
    requires n <= |ms|
    ensures Recording(ms[..n]) == Recording(ms)[..RecordStart(n)]
  {
    RecordsPrefix(ms, n);
  }

  lemma WholeRecords(body: nat, count: nat)
    requires body <= RECORD_SIZE * count
    ensures var n := body / RECORD_SIZE; n <= count && RECORD_SIZE * n <= body < RECORD_SIZE * (n + 1)
  {
  }

  /** A replay of a recording and a partial record after it. */
  lemma TailedReplay(ms: seq<Message>, tail: seq<Byte>)
    requires |tail| < RECORD_SIZE
    ensures HeaderStatus(Recording(ms) + tail) == Ok
    ensures MessagesFrom(Recording(ms) + tail, 0) == ms
  {
    HeaderIsOk(Recording(ms) + tail);
    TailedMessages(ms, tail, 0);
  }

  /** Cutting a recording anywhere after its header leaves exactly the messages of its
      whole records. */
  lemma CutReplaysWholeRecords(ms: seq<Message>, cut: nat)
    requires HEADER_SIZE <= cut <= |Recording(ms)|
    ensures HeaderStatus(Recording(ms)[..cut]) == Ok
    ensures (cut - HEADER_SIZE) / RECORD_SIZE <= |ms|
    ensures MessagesFrom(Recording(ms)[..cut], 0) == ms[..(cut - HEADER_SIZE) / RECORD_SIZE]
  {
    var n := (cut - HEADER_SIZE) / RECORD_SIZE;
    WholeRecords(cut - HEADER_SIZE, |ms|);
    RecordingPrefix(ms, n);
    TailedReplay(ms[..n], Recording(ms)[RecordStart(n)..cut]);
    SplitPrefix(Recording(ms), RecordStart(n), cut);
  }

  /** A file cut inside its header is not taken for a recording. */
  lemma CutHeaderIsBad(ms: seq<Message>, cut: nat)
    requires cut < HEADER_SIZE
    ensures HeaderStatus(Recording(ms)[..cut]) == BadMagic
  {
  }
}
