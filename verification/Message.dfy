/** The normalised message, and its fields as bytes. */
module Message {
  import opened WindowArith
  import opened WordArith

  type Byte = b: nat | b < 0x100
  type U32 = x: nat | x < 0x1_0000_0000
  type U64 = x: nat | x < WORD
  type I64 = x: int | -0x8000_0000_0000_0000 <= x < 0x8000_0000_0000_0000

  /** `value` is the bit pattern of the double. */
  datatype Message = Message(streamId: U32, tsNs: I64, value: U64, seqNo: U64)

  /** static_cast<uint64_t>(x): two's complement. */
  function ToUnsigned(x: I64): (w: U64) { Wrap(x) }

  /** static_cast<int64_t>(w). */
  function ToSigned(w: U64): (x: I64) {
    if w < 0x8000_0000_0000_0000 then w else w - WORD
  }

  lemma SignedRoundTrip(x: I64)
    ensures ToSigned(ToUnsigned(x)) == x
  {
  }

  /** `v >> 8 * i`, truncated to a byte. */
  function ByteAt(v: nat, i: nat): (b: Byte) {
    v / Pow2(8 * i) % 0x100
  }

  /** The first `n` bytes of `v`, least significant first. */
  function LittleEndian(v: nat, n: nat): (bytes: seq<Byte>)
    ensures |bytes| == n
    ensures forall i :: 0 <= i < n ==> bytes[i] == ByteAt(v, i)
  {
    seq(n, i requires 0 <= i < n => ByteAt(v, i))
  }

  /** The number some bytes stand for, least significant first. */
  function FromLittleEndian(bytes: seq<Byte>): nat {
    if bytes == [] then 0 else bytes[0] + 0x100 * FromLittleEndian(bytes[1..])
  }

  lemma OneMoreByte(b: Byte, p: nat)
    ensures 0x100 * (b * p) == b * (0x100 * p)
  {
  }

  /** The last byte is worth the most. */
  lemma {:induction false} LastByte(bytes: seq<Byte>, last: Byte)
    ensures FromLittleEndian(bytes + [last]) == FromLittleEndian(bytes) + last * Pow2(8 * |bytes|)
  {
    if bytes == [] {
      assert [last][1..] == [];
    } else {
      assert (bytes + [last])[1..] == bytes[1..] + [last];
      LastByte(bytes[1..], last);
      Pow2Byte(|bytes| - 1);
      OneMoreByte(last, Pow2(8 * (|bytes| - 1)));
    }
  }

  lemma Pow2Byte(n: nat)
    ensures Pow2(8 * (n + 1)) == 0x100 * Pow2(8 * n)
  {
    Pow2Sum(8, 8 * n);
    Pow2Of8();
  }

  lemma {:induction false} ValueBound(bytes: seq<Byte>)
    ensures FromLittleEndian(bytes) < Pow2(8 * |bytes|)
  {
    if bytes != [] {
      ValueBound(bytes[1..]);
      Pow2Byte(|bytes| - 1);
    }
  }

  /** As many bytes never stand for the same number twice. */
  lemma {:induction false} SameBytes(a: seq<Byte>, b: seq<Byte>)
    requires |a| == |b| && FromLittleEndian(a) == FromLittleEndian(b)
    ensures a == b
  {
    if a != [] {
      SameDigits(a[0], FromLittleEndian(a[1..]), b[0], FromLittleEndian(b[1..]));
      SameBytes(a[1..], b[1..]);
      assert a == [a[0]] + a[1..] && b == [b[0]] + b[1..];
    }
  }

  lemma SameDigits(x: Byte, high: nat, y: Byte, high': nat)
    requires x + 0x100 * high == y + 0x100 * high'
    ensures x == y && high == high'
  {
  }

  lemma DigitBound(low: nat, digit: Byte, p: nat)
    requires low < p
    ensures low + digit * p < 0x100 * p
  {
    assert digit * p <= 0xff * p;
  }

  /** The bytes of a number give back the number, modulo what does not fit. */
  lemma {:induction false} BytesRoundTrip(v: nat, n: nat)
    ensures FromLittleEndian(LittleEndian(v, n)) == v % Pow2(8 * n)
  {
    if n > 0 {
      BytesRoundTrip(v, n - 1);
      assert LittleEndian(v, n) == LittleEndian(v, n - 1) + [ByteAt(v, n - 1)];
      LastByte(LittleEndian(v, n - 1), ByteAt(v, n - 1));
      Pow2Byte(n - 1);
      TopDigit(v, Pow2(8 * (n - 1)));
    }
  }

  lemma TopDigit(v: nat, p: nat)
    requires p > 0
    ensures v % (0x100 * p) == v % p + (v / p % 0x100) * p
  {
    var d := v / p;
    var e, f, low := d / 0x100, d % 0x100, v % p;
    assert v == d * p + low && d == e * 0x100 + f;
    Regroup(e, f, p);
    DigitBound(low, f, p);
    ModOfSum(e, 0x100 * p, low + f * p);
  }

  lemma Regroup(e: nat, f: nat, p: nat)
    ensures (e * 0x100 + f) * p == e * (0x100 * p) + f * p
  {
  }
}
