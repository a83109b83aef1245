/** Published values of the generator and of the hash, worked out digit by digit. */
module KnownValues {
  import opened Checksum
  import opened Hex
  import opened Message
  import opened SplitMix
  import opened WordArith

  // ----- The first draw from seed 0: the state, and what each line of the mix makes of it -----

  const STATE := Word(Quad(0x9, 0xE, 0x3, 0x7), Quad(0x7, 0x9, 0xB, 0x9),
                      Quad(0x7, 0xF, 0x4, 0xA), Quad(0x7, 0xC, 0x1, 0x5))
  const STATE_SHIFTED := Word(Quad(0x0, 0x0, 0x0, 0x0), Quad(0x0, 0x0, 0x0, 0x2),
                              Quad(0x7, 0x8, 0xD, 0xD), Quad(0xE, 0x6, 0xE, 0x5))
  const STATE_XOR := Word(Quad(0x9, 0xE, 0x3, 0x7), Quad(0x7, 0x9, 0xB, 0xB),
                          Quad(0x0, 0x7, 0x9, 0x7), Quad(0x9, 0xA, 0xF, 0x0))
  const FIRST := Word(Quad(0x6, 0xF, 0x6, 0x8), Quad(0x2, 0x6, 0x1, 0xB),
                      Quad(0x5, 0x7, 0xE, 0x7), Quad(0xA, 0x7, 0x7, 0x0))
  const FIRST_SHIFTED := Word(Quad(0x0, 0x0, 0x0, 0x0), Quad(0x0, 0x0, 0x0, 0xD),
                              Quad(0xE, 0xD, 0x0, 0x4), Quad(0xC, 0x3, 0x6, 0xA))
  const FIRST_XOR := Word(Quad(0x6, 0xF, 0x6, 0x8), Quad(0x2, 0x6, 0x1, 0x6),
                          Quad(0xB, 0xA, 0xE, 0x3), Quad(0x6, 0x4, 0x1, 0xA))
  const SECOND := Word(Quad(0xE, 0x2, 0x2, 0x0), Quad(0xA, 0x8, 0x3, 0x8),
                       Quad(0xB, 0xF, 0x5, 0xC), Quad(0x9, 0xD, 0xD, 0xE))
  const SECOND_SHIFTED := Word(Quad(0x0, 0x0, 0x0, 0x0), Quad(0x0, 0x0, 0x0, 0x1),
                               Quad(0xC, 0x4, 0x4, 0x1), Quad(0x5, 0x0, 0x7, 0x1))
  const DRAW := Word(Quad(0xE, 0x2, 0x2, 0x0), Quad(0xA, 0x8, 0x3, 0x9),
                     Quad(0x7, 0xB, 0x1, 0xD), Quad(0xC, 0xD, 0xA, 0xF))

  lemma Powers()
    ensures Pow2(27) == 0x800_0000 && Pow2(30) == 0x4000_0000 && Pow2(31) == 0x8000_0000
  {
    Pow2Of8();
    Pow2Sum(8, 8);
    Pow2Sum(16, 8);
    assert Pow2(3) == 8 && Pow2(6) == 64 && Pow2(7) == 128;
    Pow2Sum(24, 3);
    Pow2Sum(24, 6);
    Pow2Sum(24, 7);
  }

  lemma ShiftXorOfDigits(w: Word, s: Word, x: Word, k: nat, p: nat, rest: nat)
    requires Pow2(k) == p && w.Value() == s.Value() * p + rest && rest < p && w.Value() < WORD
    requires w.Valid() && s.Valid() && x.Combines(BitXor, w, s)
    ensures ShiftXor(w.Value(), k) == x.Value()
  {
    QuotientIs(w.Value(), p, s.Value());
    XorOfDigits(w, s, x);
  }

  lemma StateShift()
    ensures STATE.Value() == STATE_SHIFTED.Value() * 0x4000_0000 + 0x3F4A_7C15
    ensures STATE.Valid() && STATE_SHIFTED.Valid() && STATE.Value() < WORD
  {
  }

  lemma StateXor()
    ensures STATE_XOR.Combines(BitXor, STATE, STATE_SHIFTED)
  {
  }

  lemma StateStep()
    ensures ShiftXor(STATE.Value(), 30) == STATE_XOR.Value()
  {
    Powers();
    StateShift();
    StateXor();
    ShiftXorOfDigits(STATE, STATE_SHIFTED, STATE_XOR, 30, 0x4000_0000, 0x3F4A_7C15);
  }

  lemma FirstProduct()
    ensures Wrap(STATE_XOR.Value() * FIRST_FACTOR) == FIRST.Value()
  {
  }

  lemma FirstShift()
    ensures FIRST.Value() == FIRST_SHIFTED.Value() * 0x800_0000 + 0x7E7_A770
    ensures FIRST.Valid() && FIRST_SHIFTED.Valid() && FIRST.Value() < WORD
  {
  }

  lemma FirstXor()
    ensures FIRST_XOR.Combines(BitXor, FIRST, FIRST_SHIFTED)
  {
  }

  lemma FirstStep()
    ensures ShiftXor(FIRST.Value(), 27) == FIRST_XOR.Value()
  {
    Powers();
    FirstShift();
    FirstXor();
    ShiftXorOfDigits(FIRST, FIRST_SHIFTED, FIRST_XOR, 27, 0x800_0000, 0x7E7_A770);
  }

  lemma SecondProduct()
    ensures Wrap(FIRST_XOR.Value() * SECOND_FACTOR) == SECOND.Value()
  {
  }

  lemma SecondShift()
    ensures SECOND.Value() == SECOND_SHIFTED.Value() * 0x8000_0000 + 0x3F5C_9DDE
    ensures SECOND.Valid() && SECOND_SHIFTED.Valid() && SECOND.Value() < WORD
  {
  }

  lemma SecondXor()
    ensures DRAW.Combines(BitXor, SECOND, SECOND_SHIFTED)
  {
  }

  lemma SecondStep()
    ensures ShiftXor(SECOND.Value(), 31) == DRAW.Value()
  {
    Powers();
    SecondShift();
    SecondXor();
    ShiftXorOfDigits(SECOND, SECOND_SHIFTED, DRAW, 31, 0x8000_0000, 0x3F5C_9DDE);
  }

  lemma MixedInSteps(z: U64, z1: U64, z2: U64, z3: U64, z4: U64, z5: U64)
    requires ShiftXor(z, 30) == z1 && Wrap(z1 * FIRST_FACTOR) == z2 && ShiftXor(z2, 27) == z3
    requires Wrap(z3 * SECOND_FACTOR) == z4 && ShiftXor(z4, 31) == z5
    ensures Mixed(z) == z5
  {
  }

  lemma InRange()
    ensures STATE.Value() < WORD && STATE_XOR.Value() < WORD && FIRST.Value() < WORD && FIRST_XOR.Value() < WORD
    ensures SECOND.Value() < WORD && DRAW.Value() < WORD
  {
  }

  lemma StateMixed(state: U64)
    requires state == STATE.Value()
    ensures Mixed(state) == DRAW.Value()
  {
    InRange();
    StateStep();
    FirstProduct();
    FirstStep();
    SecondProduct();
    SecondStep();
    MixedInSteps(state, STATE_XOR.Value(), FIRST.Value(), FIRST_XOR.Value(), SECOND.Value(), DRAW.Value());
  }

  lemma FirstState(seed: U64)
    requires seed == 0
    ensures StateAfter(seed, 1) == STATE.Value()
  {
  }

  lemma DrawOfState(seed: U64, z: nat)
    requires StateAfter(seed, 1) == STATE.Value() && DRAW.Value() == z
    ensures Draw(seed, 0) == z
  {
    StateMixed(StateAfter(seed, 1));
  }

  lemma ValueOfDraw()
    ensures DRAW.Value() == 0xE220_A839_7B1D_CDAF
  {
  }

  /** The first draw from seed 0. */
  lemma FirstDraw(seed: U64)
    requires seed == 0
    ensures Draw(seed, 0) == 0xE220_A839_7B1D_CDAF
  {
    FirstState(seed);
    ValueOfDraw();
    DrawOfState(seed, 0xE220_A839_7B1D_CDAF);
  }

  // ----- The hash of a one-letter text -----

  const BASIS := Word(Quad(0xC, 0xB, 0xF, 0x2), Quad(0x9, 0xC, 0xE, 0x4),
                      Quad(0x8, 0x4, 0x2, 0x2), Quad(0x2, 0x3, 0x2, 0x5))
  const LETTER_A := Word(Quad(0x0, 0x0, 0x0, 0x0), Quad(0x0, 0x0, 0x0, 0x0),
                         Quad(0x0, 0x0, 0x0, 0x0), Quad(0x0, 0x0, 0x6, 0x1))
  const BASIS_XOR := Word(Quad(0xC, 0xB, 0xF, 0x2), Quad(0x9, 0xC, 0xE, 0x4),
                          Quad(0x8, 0x4, 0x2, 0x2), Quad(0x2, 0x3, 0x4, 0x4))
  const HASH := Word(Quad(0xA, 0xF, 0x6, 0x3), Quad(0xD, 0xC, 0x4, 0xC),
                     Quad(0x8, 0x6, 0x0, 0x1), Quad(0xE, 0xC, 0x8, 0xC))

  lemma BasisXor()
    ensures BASIS_XOR.Combines(BitXor, BASIS, LETTER_A) && BASIS.Valid() && LETTER_A.Valid()
  {
  }

  lemma HashProduct()
    ensures Wrap(BASIS_XOR.Value() * FNV_PRIME) == HASH.Value()
  {
  }

  lemma FoldOfDigits(hash: U64, a: Byte)
    requires hash == BASIS.Value() && a == LETTER_A.Value()
    ensures Fold(hash, a) == HASH.Value()
  {
    BasisXor();
    XorOfDigits(BASIS, LETTER_A, BASIS_XOR);
    HashProduct();
  }

  lemma ValueOfHash()
    ensures BASIS.Value() == FNV_OFFSET_BASIS && LETTER_A.Value() == 'a' as int
    ensures HASH.Value() == 0xAF63_DC4C_8601_EC8C
  {
  }

  /** FNV-1a of the text "a". */
  lemma HashOfA(hash: U64, a: Byte)
    requires hash == FNV_OFFSET_BASIS && a == 'a' as int
    ensures FoldAll(hash, [a]) == 0xAF63_DC4C_8601_EC8C
  {
    ValueOfHash();
    FoldOfDigits(hash, a);
    assert [a][..0] == [];
  }
}
