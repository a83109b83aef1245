/** Words as hexadecimal digits, to work out bitwise operations on given numbers. */
module Hex {
  import opened WordArith

  /** Four digits, and a word of sixteen, the highest first. */
  datatype Quad = Quad(a: nat, b: nat, c: nat, d: nat) {
    predicate Valid() { a < 16 && b < 16 && c < 16 && d < 16 }

    function Value(): nat { 0x1000 * a + 0x100 * b + 0x10 * c + d }

    predicate Combines(f: (nat, nat) -> nat, q: Quad, r: Quad) {
      f(q.a, r.a) == a && f(q.b, r.b) == b && f(q.c, r.c) == c && f(q.d, r.d) == d
    }
  }

  datatype Word = Word(a: Quad, b: Quad, c: Quad, d: Quad) {
    predicate Valid() { a.Valid() && b.Valid() && c.Valid() && d.Valid() }

    function High(): nat { 0x1_0000 * a.Value() + b.Value() }

    function Value(): nat { 0x1_0000_0000 * High() + 0x1_0000 * c.Value() + d.Value() }

    predicate Combines(f: (nat, nat) -> nat, w: Word, v: Word) {
      && a.Combines(f, w.a, v.a) && b.Combines(f, w.b, v.b)
      && c.Combines(f, w.c, v.c) && d.Combines(f, w.d, v.d)
    }
  }

  type Bit = b: nat | b < 2

  function Twice(x: nat, b: Bit): nat { 2 * x + b }

  function Hexed(x: nat, a: nat): nat { 16 * x + a }

  function XorBit(a: Bit, b: Bit): Bit { if a == b then 0 else 1 }

  /** `f` combines numbers bit by bit. */
  ghost predicate ByBits(f: (nat, nat) -> nat) {
    && f(0, 0) == 0
    && forall x: nat, a: Bit, y: nat, b: Bit :: f(Twice(x, a), Twice(y, b)) == Twice(f(x, y), XorBit(a, b))
  }

  /** `f` combines numbers digit by digit. */
  ghost predicate ByDigits(f: (nat, nat) -> nat) {
    && f(0, 0) == 0
    && forall x: nat, a: nat, y: nat, b: nat :: a < 16 && b < 16 ==>
         f(Hexed(x, a), Hexed(y, b)) == Hexed(f(x, y), f(a, b))
  }

  lemma SumOfBits(a: Bit, b: Bit)
    ensures (a + b) % 2 == XorBit(a, b)
  {
  }

  lemma FromHalves(x': nat, y': nat, x: nat, y: nat, bit: Bit)
    requires x' / 2 == x && y' / 2 == y && (x' % 2 + y' % 2) % 2 == bit
    ensures BitXor(x', y') == Twice(BitXor(x, y), bit)
  {
    XorUnfolds(x', y');
  }

  lemma OneBit(x: nat, a: Bit, y: nat, b: Bit, x': nat, y': nat)
    requires x' == Twice(x, a) && y' == Twice(y, b)
    ensures BitXor(x', y') == Twice(BitXor(x, y), XorBit(a, b))
  {
    LowBit(a, x, x');
    LowBit(b, y, y');
    SumOfBits(a, b);
    FromHalves(x', y', x, y, XorBit(a, b));
  }

  lemma XorIsByBits()
    ensures ByBits(BitXor)
  {
    forall x: nat, a: Bit, y: nat, b: Bit
      ensures BitXor(Twice(x, a), Twice(y, b)) == Twice(BitXor(x, y), XorBit(a, b))
    {
      OneBit(x, a, y, b, Twice(x, a), Twice(y, b));
    }
  }

  lemma NextBit(f: (nat, nat) -> nat, x: nat, a: Bit, y: nat, b: Bit, x': nat, y': nat)
    requires ByBits(f) && x' == 2 * x + a && y' == 2 * y + b
    ensures f(x', y') == 2 * f(x, y) + XorBit(a, b)
  {
    assert x' == Twice(x, a) && y' == Twice(y, b);
  }

  lemma FourBits(f: (nat, nat) -> nat, x: nat, a3: Bit, a2: Bit, a1: Bit, a0: Bit,
        y: nat, b3: Bit, b2: Bit, b1: Bit, b0: Bit)
    requires ByBits(f)
    ensures f(16 * x + 8 * a3 + 4 * a2 + 2 * a1 + a0, 16 * y + 8 * b3 + 4 * b2 + 2 * b1 + b0)
         == 16 * f(x, y) + 8 * XorBit(a3, b3) + 4 * XorBit(a2, b2) + 2 * XorBit(a1, b1) + XorBit(a0, b0)
  {
    var x1, y1 := 2 * x + a3, 2 * y + b3;
    var x2, y2 := 2 * x1 + a2, 2 * y1 + b2;
    var x3, y3 := 2 * x2 + a1, 2 * y2 + b1;
    NextBit(f, x, a3, y, b3, x1, y1);
    NextBit(f, x1, a2, y1, b2, x2, y2);
    NextBit(f, x2, a1, y2, b1, x3, y3);
    NextBit(f, x3, a0, y3, b0, 2 * x3 + a0, 2 * y3 + b0);
  }

  lemma BitsOf(a: nat) returns (a3: Bit, a2: Bit, a1: Bit, a0: Bit)
    requires a < 16
    ensures a == 8 * a3 + 4 * a2 + 2 * a1 + a0
  {
    a3, a2, a1, a0 := a / 8, a / 4 % 2, a / 2 % 2, a % 2;
  }

  lemma DigitApart(f: (nat, nat) -> nat, x: nat, a: nat, y: nat, b: nat)
    requires ByBits(f) && a < 16 && b < 16
    ensures f(Hexed(x, a), Hexed(y, b)) == Hexed(f(x, y), f(a, b))
  {
    var a3, a2, a1, a0 := BitsOf(a);
    var b3, b2, b1, b0 := BitsOf(b);
    FourBits(f, x, a3, a2, a1, a0, y, b3, b2, b1, b0);
    FourBits(f, 0, a3, a2, a1, a0, 0, b3, b2, b1, b0);
  }

  lemma BitsMakeDigits(f: (nat, nat) -> nat)
    requires ByBits(f)
    ensures ByDigits(f)
  {
    forall x: nat, a: nat, y: nat, b: nat | a < 16 && b < 16
      ensures f(Hexed(x, a), Hexed(y, b)) == Hexed(f(x, y), f(a, b))
    {
      DigitApart(f, x, a, y, b);
    }
  }

  lemma NextDigit(f: (nat, nat) -> nat, x: nat, a: nat, y: nat, b: nat, c: nat, x': nat, y': nat, z: nat)
    requires ByDigits(f) && a < 16 && b < 16 && f(a, b) == c && f(x, y) == z
    requires x' == 16 * x + a && y' == 16 * y + b
    ensures f(x', y') == 16 * z + c
  {
    assert x' == Hexed(x, a) && y' == Hexed(y, b);
  }

  lemma NextQuad(f: (nat, nat) -> nat, x: nat, q: Quad, y: nat, r: Quad, z: nat, s: Quad, x': nat, y': nat)
    requires ByDigits(f) && q.Valid() && r.Valid() && s.Combines(f, q, r) && f(x, y) == z
    requires x' == 0x1_0000 * x + q.Value() && y' == 0x1_0000 * y + r.Value()
    ensures f(x', y') == 0x1_0000 * z + s.Value()
  {
    var x1, y1, z1 := 16 * x + q.a, 16 * y + r.a, 16 * z + s.a;
    var x2, y2, z2 := 16 * x1 + q.b, 16 * y1 + r.b, 16 * z1 + s.b;
    var x3, y3, z3 := 16 * x2 + q.c, 16 * y2 + r.c, 16 * z2 + s.c;
    NextDigit(f, x, q.a, y, r.a, s.a, x1, y1, z);
    NextDigit(f, x1, q.b, y1, r.b, s.b, x2, y2, z1);
    NextDigit(f, x2, q.c, y2, r.c, s.c, x3, y3, z2);
    NextDigit(f, x3, q.d, y3, r.d, s.d, x', y', z3);
  }

  lemma NextWord(f: (nat, nat) -> nat, w: Word, v: Word, z: Word)
    requires ByDigits(f) && w.Valid() && v.Valid() && z.Combines(f, w, v)
    ensures f(w.Value(), v.Value()) == z.Value()
  {
    var x, y := 0x1_0000 * w.High() + w.c.Value(), 0x1_0000 * v.High() + v.c.Value();
    NextQuad(f, 0, w.a, 0, v.a, 0, z.a, w.a.Value(), v.a.Value());
    NextQuad(f, w.a.Value(), w.b, v.a.Value(), v.b, z.a.Value(), z.b, w.High(), v.High());
    NextQuad(f, w.High(), w.c, v.High(), v.c, z.High(), z.c, x, y);
    NextQuad(f, x, w.d, y, v.d, 0x1_0000 * z.High() + z.c.Value(), z.d, w.Value(), v.Value());
  }

  /** Digit by digit xor is xor. */
  lemma XorOfDigits(w: Word, v: Word, z: Word)
    requires w.Valid() && v.Valid() && z.Combines(BitXor, w, v)
    ensures BitXor(w.Value(), v.Value()) == z.Value()
  {
    XorIsByBits();
    BitsMakeDigits(BitXor);
    NextWord(BitXor, w, v, z);
  }
}
