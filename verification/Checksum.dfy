/** The 64-bit FNV-1a checksum of a stream. */
module Checksum {
  import opened WordArith
  import opened Message
  import opened RecordFormat
  import opened Sequences

  const FNV_OFFSET_BASIS: U64 := 0xcbf29ce484222325
  const FNV_PRIME: nat := 0x100000001b3
  const CONTENT_SIZE: nat := 28

  /** The inverse of the prime modulo 2^64. */
  const FNV_INVERSE: nat := 0xce965057aff6957b

  /** One byte folded into the state. */
  function Fold(hash: U64, b: Byte): (r: U64) {
    Wrap(BitXor(hash, b) * FNV_PRIME)
  }

  /** The state before byte `b` was folded in. */
  function Unfold(hash: U64, b: Byte): (r: nat) {
    BitXor(Wrap(hash * FNV_INVERSE), b)
  }

  function FoldAll(hash: U64, bytes: seq<Byte>): (r: U64) {
    if bytes == [] then hash else Fold(FoldAll(hash, bytes[..|bytes| - 1]), bytes[|bytes| - 1])
  }

  /** The content bytes of a message: its four fields, no padding. */
  function Content(m: Message): (bytes: seq<Byte>)
    ensures |bytes| == CONTENT_SIZE
  {
    LittleEndian(m.streamId, 4) + LittleEndian(ToUnsigned(m.tsNs), 8)
    + LittleEndian(m.value, 8) + LittleEndian(m.seqNo, 8)
  }

  function Contents(ms: seq<Message>): (bytes: seq<Byte>)
    ensures |bytes| == CONTENT_SIZE * |ms|
  {
    if ms == [] then [] else Contents(ms[..|ms| - 1]) + Content(ms[|ms| - 1])
  }

  /** The digest of a stream. */
  function Digest(ms: seq<Message>): U64 { FoldAll(FNV_OFFSET_BASIS, Contents(ms)) }

  class StreamChecksum {
    var hash: U64
    ghost var Seen: seq<Message>

    ghost predicate Valid()
      reads this
    {
      hash == Digest(Seen)
    }

    constructor ()
      ensures Valid() && Seen == []
    {
      hash, Seen := FNV_OFFSET_BASIS, [];
    }

    /** Folds a buffer into the hash, byte by byte. */
    method FoldBytes(bytes: array<Byte>)
      modifies this`hash
      ensures hash == FoldAll(old(hash), bytes[..])
    {
      for i := 0 to bytes.Length
        invariant hash == FoldAll(old(hash), bytes[..i])
      {
        assert bytes[..i + 1][..i] == bytes[..i];
        var mixed: nat := BitXor(hash, bytes[i]);
        hash := Wrap(mixed * FNV_PRIME);
      }
      assert bytes[..bytes.Length] == bytes[..];
    }

    method Update(msg: Message)
      requires Valid()
      modifies this
      ensures Valid() && Seen == old(Seen) + [msg]
    {
      var bytes := new Byte[CONTENT_SIZE](_ => 0);
      PutU32(bytes, 0, msg.streamId);
      PutU64(bytes, 4, ToUnsigned(msg.tsNs));
      PutU64(bytes, 12, msg.value);
      PutU64(bytes, 20, msg.seqNo);
      assert bytes[..] == Content(msg);
      FoldBytes(bytes);
      FoldConcat(FNV_OFFSET_BASIS, Contents(Seen), Content(msg));
      assert (Seen + [msg])[..|Seen|] == Seen;
      Seen := Seen + [msg];
    }
  }

  lemma {:induction false} FoldConcat(hash: U64, a: seq<Byte>, b: seq<Byte>)
    ensures FoldAll(hash, a + b) == FoldAll(FoldAll(hash, a), b)
  {
    if b == [] {
      assert a + b == a;
    } else {
      var n := |b| - 1;
      FoldConcat(hash, a, b[..n]);
      assert (a + b)[..|a + b| - 1] == a + b[..n];
    }
  }

  // ----- Every step is a bijection -----

  /** Multiplying by the prime and then by its inverse does nothing modulo 2^64. */
  lemma PrimeInverse(x: U64)
    ensures Wrap(Wrap(x * FNV_PRIME) * FNV_INVERSE) == x
    ensures Wrap(Wrap(x * FNV_INVERSE) * FNV_PRIME) == x
  {
    InverseModulo(x, FNV_PRIME, FNV_INVERSE, WORD, 887285111055);
    InverseModulo(x, FNV_INVERSE, FNV_PRIME, WORD, 887285111055);
  }

  lemma XorStaysInWord(hash: U64, b: Byte)
    ensures BitXor(hash, b) < WORD
  {
    Pow2Of64();
    XorBound(hash, b, 64);
  }

  /** Folding a byte is a bijection on the states. */
  lemma FoldIsBijective(hash: U64, b: Byte)
    ensures Unfold(Fold(hash, b), b) == hash
    ensures Unfold(hash, b) < WORD && Fold(Unfold(hash, b), b) == hash
  {
    XorStaysInWord(hash, b);
    PrimeInverse(BitXor(hash, b));
    XorTwice(hash, b);
    var w := Wrap(hash * FNV_INVERSE);
    XorStaysInWord(w, b);
    XorTwice(w, b);
    PrimeInverse(hash);
  }

  /** From one state, different bytes lead to different states. */
  lemma FoldSeparatesBytes(hash: U64, b: Byte, c: Byte)
    requires Fold(hash, b) == Fold(hash, c)
    ensures b == c
  {
    XorStaysInWord(hash, b);
    XorStaysInWord(hash, c);
    PrimeInverse(BitXor(hash, b));
    PrimeInverse(BitXor(hash, c));
    XorCommutes(hash, b);
    XorCommutes(hash, c);
    XorTwice(b, hash);
    XorTwice(c, hash);
  }

  /** The state before all of `bytes` were folded in. */
  function UnfoldAll(hash: U64, bytes: seq<Byte>): (r: U64)
    decreases |bytes|
  {
    if bytes == [] then hash
    else
      XorStaysInWord(Wrap(hash * FNV_INVERSE), bytes[|bytes| - 1]);
      UnfoldAll(Unfold(hash, bytes[|bytes| - 1]), bytes[..|bytes| - 1])
  }

  /** For a fixed message (or any fixed bytes) the update is a bijection on the states. */
  lemma {:induction false} UpdateIsBijective(hash: U64, bytes: seq<Byte>)
    ensures UnfoldAll(FoldAll(hash, bytes), bytes) == hash
    ensures FoldAll(UnfoldAll(hash, bytes), bytes) == hash
    decreases |bytes|
  {
    if bytes != [] {
      var n := |bytes| - 1;
      FoldIsBijective(FoldAll(hash, bytes[..n]), bytes[n]);
      UpdateIsBijective(hash, bytes[..n]);
      FoldIsBijective(hash, bytes[n]);
      UpdateIsBijective(Unfold(hash, bytes[n]), bytes[..n]);
    }
  }

  /** The two byte strings differ at `at` and nowhere else. */
  ghost predicate DifferOnlyAt(a: seq<Byte>, b: seq<Byte>, at: nat) {
    |a| == |b| && at < |a| && a[at] != b[at] && forall i :: 0 <= i < |a| && i != at ==> a[i] == b[i]
  }

  /** A single changed byte always changes the digest, wherever it is and whatever follows. */
  lemma OneByteChangesDigest(ms: seq<Message>, ms': seq<Message>, at: nat)
    requires DifferOnlyAt(Contents(ms), Contents(ms'), at)
    ensures Digest(ms) != Digest(ms')
  {
    var a, b, h := Contents(ms), Contents(ms'), FNV_OFFSET_BASIS;
    var tail := a[at + 1..];
    assert a == a[..at] + ([a[at]] + tail) && b == a[..at] + ([b[at]] + tail) by {
      assert b[..at] == a[..at] && b[at + 1..] == tail;
    }
    var before := FoldAll(h, a[..at]);
    FoldConcat(h, a[..at], [a[at]] + tail);
    FoldConcat(h, a[..at], [b[at]] + tail);
    FoldConcat(before, [a[at]], tail);
    FoldConcat(before, [b[at]], tail);
    FoldOne(before, a[at]);
    FoldOne(before, b[at]);
    if Digest(ms) == Digest(ms') {
      UpdateIsBijective(Fold(before, a[at]), tail);
      UpdateIsBijective(Fold(before, b[at]), tail);
      FoldSeparatesBytes(before, a[at], b[at]);
    }
  }

  lemma FoldOne(hash: U64, b: Byte)
    ensures FoldAll(hash, [b]) == Fold(hash, b)
  {
    assert [b][..0] == [];
  }

  // ----- The content is the message -----

  /** The content bytes are those of the message's record without its padding. */
  lemma ContentIsRecord(m: Message)
    ensures Content(m) == Record(m)[0..4] + Record(m)[8..32]
  {
    RecordFields(m);
    assert Record(m)[8..32] == Record(m)[8..16] + Record(m)[16..24] + Record(m)[24..32];
  }

  /** So nothing of a message is left out. */
  lemma ContentIsInjective(m: Message, m': Message)
    requires Content(m) == Content(m')
    ensures m == m'
  {
    FieldsOfContent(m);
    FieldsOfContent(m');
    Value32RoundTrip(m.streamId);
    Value32RoundTrip(m'.streamId);
    Value64RoundTrip(ToUnsigned(m.tsNs));
    Value64RoundTrip(ToUnsigned(m'.tsNs));
    Value64RoundTrip(m.value);
    Value64RoundTrip(m'.value);
    Value64RoundTrip(m.seqNo);
    Value64RoundTrip(m'.seqNo);
    SignedRoundTrip(m.tsNs);
    SignedRoundTrip(m'.tsNs);
  }

  lemma FieldsOfContent(m: Message)
    ensures Content(m)[0..4] == LittleEndian(m.streamId, 4)
    ensures Content(m)[4..12] == LittleEndian(ToUnsigned(m.tsNs), 8)
    ensures Content(m)[12..20] == LittleEndian(m.value, 8)
    ensures Content(m)[20..28] == LittleEndian(m.seqNo, 8)
  {
  }

  /** Different streams have different content bytes. */
  lemma {:induction false} ContentsAreInjective(ms: seq<Message>, ms': seq<Message>)
    requires Contents(ms) == Contents(ms')
    ensures ms == ms'
  {
    assert |ms| == |ms'|;
    if ms != [] {
      var n := |ms| - 1;
      LastContent(ms);
      LastContent(ms');
      ContentsAreInjective(ms[..n], ms'[..n]);
      ContentIsInjective(ms[n], ms'[n]);
      SplitLast(ms);
      SplitLast(ms');
    }
  }

  lemma LastContent(ms: seq<Message>)
    requires ms != []
    ensures var n := |ms| - 1;
      Contents(ms)[..CONTENT_SIZE * n] == Contents(ms[..n]) && Contents(ms)[CONTENT_SIZE * n..] == Content(ms[n])
  {
  }

  /** Two numbers whose `n` little-endian bytes differ at `k` only. */
  ghost predicate OneByteApart(x: nat, y: nat, n: nat, k: nat) {
    k < n && ByteAt(x, k) != ByteAt(y, k) && forall i :: 0 <= i < n && i != k ==> ByteAt(x, i) == ByteAt(y, i)
  }

  /** Two messages that differ in byte `k` of one of their fields. */
  ghost predicate OneFieldByteApart(m: Message, m': Message, k: nat) {
    || (m' == m.(streamId := m'.streamId) && OneByteApart(m.streamId, m'.streamId, 4, k))
    || (m' == m.(tsNs := m'.tsNs) && OneByteApart(ToUnsigned(m.tsNs), ToUnsigned(m'.tsNs), 8, k))
    || (m' == m.(value := m'.value) && OneByteApart(m.value, m'.value, 8, k))
    || (m' == m.(seqNo := m'.seqNo) && OneByteApart(m.seqNo, m'.seqNo, 8, k))
  }

  lemma ContentDiffers(m: Message, m': Message, k: nat) returns (at: nat)
    requires OneFieldByteApart(m, m', k)
    ensures DifferOnlyAt(Content(m), Content(m'), at)
  {
    if m.streamId != m'.streamId {
      at := k;
    } else if m.tsNs != m'.tsNs {
      at := 4 + k;
    } else if m.value != m'.value {
      at := 12 + k;
    } else {
      at := 20 + k;
    }
  }

  lemma {:induction false} ContentsDiffer(ms: seq<Message>, i: nat, m: Message, at: nat)
    requires i < |ms| && DifferOnlyAt(Content(ms[i]), Content(m), at)
    ensures DifferOnlyAt(Contents(ms), Contents(ms[i := m]), CONTENT_SIZE * i + at)
  {
    var n, ms' := |ms| - 1, ms[i := m];
    if i < n {
      ContentsDiffer(ms[..n], i, m, at);
      assert ms'[..n] == ms[..n][i := m];
      DifferInPart([], Contents(ms[..n]), Contents(ms'[..n]), Content(ms[n]), CONTENT_SIZE * i + at);
    } else {
      assert ms'[..n] == ms[..n];
      DifferInPart(Contents(ms[..n]), Content(ms[n]), Content(m), [], at);
    }
  }

  lemma DifferInPart(before: seq<Byte>, a: seq<Byte>, b: seq<Byte>, after: seq<Byte>, at: nat)
    requires DifferOnlyAt(a, b, at)
    ensures DifferOnlyAt(before + a + after, before + b + after, |before| + at)
  {
  }

  /** Changing one byte of any field of any message of a stream changes its digest. */
  lemma OneFieldByteChangesDigest(ms: seq<Message>, i: nat, m: Message, k: nat)
    requires i < |ms| && OneFieldByteApart(ms[i], m, k)
    ensures Digest(ms) != Digest(ms[i := m])
  {
    var at := ContentDiffers(ms[i], m, k);
    ContentsDiffer(ms, i, m, at);
    OneByteChangesDigest(ms, ms[i := m], CONTENT_SIZE * i + at);
  }
}
