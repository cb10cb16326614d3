/** The two CRC-16 routines of the repository: CRC-16/Kermit over a firmware image, CRC_A over a tag frame. */
module Crc {

  type Reg = bv16
  type Byte = bv8

  /** Exclusive or, named so that proofs can reason about it without opening it up. */
  function Xor(x: Reg, y: Reg): Reg { x ^ y }

  // ---- The register, one message bit at a time ----

  /** Shift out the low bit and fold the reflected polynomial back in when it was set. */
  function Step(c: Reg): Reg { if c & 1 == 1 then Xor(Halved(c), 0x8408) else Halved(c) }

  function Halved(c: Reg): Reg { c >> 1 }

  /** The polynomial's own top bit tells which way a shifted register came about. */
  function Unstep(c: Reg): Reg { if c & 0x8000 != 0 then ((c ^ 0x8408) << 1) | 1 else c << 1 }

  // Bit-vector facts are stated over plain variables, in the branch-free form of the step: so stated
  // they are decided by rewriting, with no search.

  ghost predicate Masked(c: Reg, next: Reg) { next == (c >> 1) ^ (0x8408 & (0 - (c & 1))) }

  ghost predicate Unmasked(c: Reg, prev: Reg) {
    prev == ((c ^ (0x8408 & (0 - (c >> 15)))) << 1) | (c >> 15)
  }

  lemma StepMasked(c: Reg)
    ensures Masked(c, Step(c))
  {
    if c & 1 == 1 {
      assert 0x8408 & (0 - (c & 1)) == 0x8408;
    } else {
      assert c & 1 == 0;
      assert (c >> 1) ^ (0x8408 & (0 - (c & 1))) == c >> 1;
    }
  }

  lemma UnstepMasked(c: Reg)
    ensures Unmasked(c, Unstep(c))
  {
    if c & 0x8000 != 0 {
      assert c >> 15 == 1;
    } else {
      assert c >> 15 == 0;
    }
  }

  lemma MaskedInverse(c: Reg, d: Reg, e: Reg)
    ensures Masked(c, d) && Unmasked(d, e) ==> e == c
    ensures Unmasked(c, d) && Masked(d, e) ==> e == c
  {
  }

  function Folded(c: Reg): Reg { if c & 1 == 1 then 0x8408 else 0 }

  lemma StepParts(c: Reg)
    ensures Step(c) == Xor(Halved(c), Folded(c))
  {
    hide Xor, Halved;
    XorZero(Halved(c));
  }

  lemma HalvedXor(c: Reg, d: Reg)
    ensures Halved(Xor(c, d)) == Xor(Halved(c), Halved(d))
  {
  }

  lemma FoldedXor(c: Reg, d: Reg)
    ensures Folded(Xor(c, d)) == Xor(Folded(c), Folded(d))
  {
    LowBit(c, d, c ^ d);
  }

  lemma LowBit(c: Reg, d: Reg, e: Reg)
    requires e == c ^ d
    ensures e & 1 == (c & 1) ^ (d & 1)
  {
  }

  lemma StepIsBijection(c: Reg)
    ensures Unstep(Step(c)) == c
    ensures Step(Unstep(c)) == c
  {
    hide Step, Unstep;
    StepMasked(c);
    UnstepMasked(Step(c));
    MaskedInverse(c, Step(c), Unstep(Step(c)));
    UnstepMasked(c);
    StepMasked(Unstep(c));
    MaskedInverse(c, Unstep(c), Step(Unstep(c)));
  }

  lemma StepIsLinear(c: Reg, d: Reg)
    ensures Step(Xor(c, d)) == Xor(Step(c), Step(d))
  {
    hide Step, Xor, Halved, Folded;
    StepParts(c);
    StepParts(d);
    StepParts(Xor(c, d));
    HalvedXor(c, d);
    FoldedXor(c, d);
    XorShuffles(Halved(c), Halved(d), Folded(c), Folded(d));
  }

  function Steps(c: Reg, n: nat): Reg
    decreases n
  {
    if n == 0 then c else Steps(Step(c), n - 1)
  }

  /** A byte enters at the low end of the register, then eight shifts follow. */
  function CrcByte(c: Reg, b: Byte): Reg { Steps(Xor(c, b as Reg), 8) }

  function Crc(c: Reg, data: seq<Byte>): Reg
    decreases |data|
  {
    if data == [] then c else Crc(CrcByte(c, data[0]), data[1..])
  }

  method Crc16Kermit(data: seq<Byte>) returns (crc: Reg)
    ensures crc == Crc(0, data)
  {
    crc := 0;
    for i := 0 to |data|
      invariant Crc(crc, data[i..]) == Crc(0, data)
    {
      ghost var before := crc;
      crc := Xor(crc, data[i] as Reg);
      for k := 0 to 8
        invariant Steps(crc, 8 - k) == CrcByte(before, data[i])
      {
        crc := Step(crc);
      }
      assert data[i..][1..] == data[i + 1..];
    }
  }

  // The three statements of the byte-at-a-time loop.

  function Mix(c: Reg, x: Byte): Byte { x ^ ((c & 0xFF) as Byte) }

  function Spread(b: Byte): Byte { b ^ (b << 4) }

  function Fold(c: Reg, y: Byte): Reg { Scatter(c >> 8, y as Reg) }

  function Scatter(h: Reg, y: Reg): Reg { h ^ (y << 8) ^ (y << 3) ^ (y >> 4) }

  /** CRC_A of a frame, a byte at a time with no inner loop; low byte first. */
  method CrcA(data: seq<Byte>) returns (check: seq<Byte>)
    ensures check == Trailer(Crc(0x6363, data))
  {
    hide CrcByte, Fold, Spread, Mix;
    var crc: Reg := 0x6363;
    for i := 0 to |data|
      invariant Crc(crc, data[i..]) == Crc(0x6363, data)
    {
      FoldIsCrcByte(crc, data[i]);
      var b := Mix(crc, data[i]);
      b := Spread(b);
      crc := Fold(crc, b);
      assert data[i..][1..] == data[i + 1..];
    }
    check := Trailer(crc);
  }

  function Trailer(c: Reg): seq<Byte> { [(c & 0xFF) as Byte, (c >> 8) as Byte] }

  // The map of a few steps is linear in the low bits; these are its closed forms.

  ghost predicate AfterTwo(c: Reg, d: Reg) { d == (c >> 2) ^ ((c & 3) << 14) ^ ((c & 3) << 9) ^ ((c & 3) << 2) }

  ghost predicate AfterFour(c: Reg, d: Reg) { d == (c >> 4) ^ ((c & 15) << 12) ^ ((c & 15) << 7) ^ (c & 15) }

  ghost predicate AfterEight(c: Reg, d: Reg) { d == Scatter(c >> 8, (c ^ (c << 4)) & 0xFF) }

  lemma TwoSteps(c0: Reg, c1: Reg, c2: Reg)
    requires Masked(c0, c1) && Masked(c1, c2)
    ensures AfterTwo(c0, c2)
  {
  }

  lemma FourSteps(c0: Reg, c2: Reg, c4: Reg)
    requires AfterTwo(c0, c2) && AfterTwo(c2, c4)
    ensures AfterFour(c0, c4)
  {
  }

  lemma EightSteps(c0: Reg, c4: Reg, c8: Reg)
    requires AfterFour(c0, c4) && AfterFour(c4, c8)
    ensures AfterEight(c0, c8)
  {
  }

  /** Eight steps of the register. */
  lemma StepsInClosedForm(c0: Reg)
    ensures AfterEight(c0, Steps(c0, 8))
  {
    hide Step, Masked, AfterTwo, AfterFour, AfterEight;
    var c1, c2, c3, c4 := Steps(c0, 1), Steps(c0, 2), Steps(c0, 3), Steps(c0, 4);
    FourStepsOf(c0);
    FourStepsOf(c4);
    StepsCompose(c0);
    EightSteps(c0, c4, Steps(c4, 4));
  }

  lemma StepsCompose(c: Reg)
    ensures Steps(c, 8) == Steps(Steps(c, 4), 4)
  {
    hide Step;
    assert Steps(c, 8) == Steps(Step(Step(c)), 6) == Steps(Step(Step(Step(Step(c)))), 4);
    assert Steps(c, 4) == Steps(Step(Step(c)), 2) == Step(Step(Step(Step(c))));
  }

  lemma FourStepsOf(c: Reg)
    ensures AfterFour(c, Steps(c, 4))
  {
    hide Step, Masked, AfterTwo, AfterFour;
    var d := Step(Step(c));
    StepMasked(c);
    StepMasked(Step(c));
    TwoSteps(c, Step(c), d);
    StepMasked(d);
    StepMasked(Step(d));
    TwoSteps(d, Step(d), Step(Step(d)));
    FourSteps(c, d, Step(Step(d)));
    assert Steps(c, 4) == Steps(d, 2) == Step(Step(d));
  }

  lemma FoldIsCrcByte(c: Reg, x: Byte)
    ensures Fold(c, Spread(Mix(c, x))) == CrcByte(c, x)
  {
    hide Steps, Fold, Spread, Mix, AfterEight, Xor;
    var c0 := Xor(c, x as Reg);
    StepsInClosedForm(c0);
    LowByte(c, x, c0, Spread(Mix(c, x)));
    FoldOf(c, Spread(Mix(c, x)), c0, Steps(c0, 8));
  }

  /** The mixed and spread byte, and the untouched high byte, in terms of the register the byte entered. */
  ghost predicate Folds(c: Reg, y: Byte, c0: Reg) { c >> 8 == c0 >> 8 && y as Reg == (c0 ^ (c0 << 4)) & 0xFF }

  lemma LowByte(c: Reg, x: Byte, c0: Reg, y: Byte)
    requires c0 == Xor(c, x as Reg) && y == Spread(Mix(c, x))
    ensures Folds(c, y, c0)
  {
    LowByteFlat(c, x, Mix(c, x), y, c0);
  }

  lemma LowByteFlat(c: Reg, x: Byte, b: Byte, y: Byte, c0: Reg)
    requires c0 == c ^ (x as Reg) && b == x ^ ((c & 0xFF) as Byte) && y == b ^ (b << 4)
    ensures y as Reg == (c0 ^ (c0 << 4)) & 0xFF && c >> 8 == c0 >> 8
  {
  }

  lemma FoldOf(c: Reg, y: Byte, c0: Reg, c8: Reg)
    requires Folds(c, y, c0) && AfterEight(c0, c8)
    ensures c8 == Fold(c, y)
  {
    hide Scatter;
  }

  // ---- Residue ----

  lemma {:induction false} CrcOfConcat(c: Reg, a: seq<Byte>, b: seq<Byte>)
    ensures Crc(c, a + b) == Crc(Crc(c, a), b)
    decreases |a|
  {
    hide CrcByte;
    if a == [] {
      assert a + b == b;
    } else {
      assert (a + b)[1..] == a[1..] + b;
      CrcOfConcat(CrcByte(c, a[0]), a[1..], b);
    }
  }

  /** A frame followed by its own two check bytes leaves nothing in the register, whatever it started from. */
  lemma ResidueIsZero(c: Reg, data: seq<Byte>)
    ensures Crc(c, data + Trailer(Crc(c, data))) == 0
  {
    hide CrcByte, Mix, Spread, Fold;
    var r := Crc(c, data);
    var lo, hi := Trailer(r)[0], Trailer(r)[1];
    CrcOfConcat(c, data, [lo, hi]);
    FoldIsCrcByte(r, lo);
    FoldIsCrcByte(r >> 8, hi);
    TrailerCancels(r, lo, hi);
    assert Crc(r, [lo, hi]) == Crc(CrcByte(r, lo), [hi]) == Crc(CrcByte(CrcByte(r, lo), hi), []);
  }

  lemma TrailerCancels(r: Reg, lo: Byte, hi: Byte)
    requires lo == (r & 0xFF) as Byte && hi == (r >> 8) as Byte
    ensures Fold(r, Spread(Mix(r, lo))) == r >> 8
    ensures Fold(r >> 8, Spread(Mix(r >> 8, hi))) == 0
  {
  }

  // ---- Check values ----

  /** The register after one more byte, by the closed form. */
  lemma Feed(init: Reg, data: seq<Byte>, j: nat, x: Byte, c: Reg, next: Reg)
    requires j < |data| && data[j] == x && Crc(init, data[..j]) == c && next == Fold(c, Spread(Mix(c, x)))
    ensures Crc(init, data[..j + 1]) == next
  {
    hide Fold, Spread, Mix, CrcByte;
    FoldIsCrcByte(c, x);
    assert data[..j + 1] == data[..j] + [x];
    CrcOfConcat(init, data[..j], [x]);
    assert Crc(c, [x]) == Crc(CrcByte(c, x), []);
  }

  lemma CrcOfNothing(c: Reg, data: seq<Byte>)
    ensures Crc(c, data[..0]) == c && data[..|data|] == data
  {
  }

  /** The catalogued check value of CRC-16/KERMIT, over the digits 1 to 9. */
  lemma KermitCheckValue()
    ensures Crc(0, [0x31, 0x32, 0x33, 0x34, 0x35, 0x36, 0x37, 0x38, 0x39]) == 0x2189
  {
    hide CrcByte, Crc;
    var digits: seq<Byte> := [0x31, 0x32, 0x33, 0x34, 0x35, 0x36, 0x37, 0x38, 0x39];
    CrcOfNothing(0, digits);
    Feed(0, digits, 0, 0x31, 0x0000, 0x200A);
    Feed(0, digits, 1, 0x32, 0x200A, 0xBDEB);
    Feed(0, digits, 2, 0x33, 0xBDEB, 0x5A78);
    Feed(0, digits, 3, 0x34, 0x5A78, 0x8832);
    Feed(0, digits, 4, 0x35, 0x8832, 0x7437);
    Feed(0, digits, 5, 0x36, 0x7437, 0x11FD);
    Feed(0, digits, 6, 0x37, 0x11FD, 0x6947);
    Feed(0, digits, 7, 0x38, 0x6947, 0x8B19);
    Feed(0, digits, 8, 0x39, 0x8B19, 0x2189);
  }

  /** The examples of Annex B of ISO/IEC 14443-3: the frames 00 00 and 12 34 are followed by A0 1E and 26 CF. */
  lemma CrcAExamples()
    ensures Trailer(Crc(0x6363, [0x00, 0x00])) == [0xA0, 0x1E]
    ensures Trailer(Crc(0x6363, [0x12, 0x34])) == [0x26, 0xCF]
  {
    hide CrcByte, Crc;
    var zeros: seq<Byte>, other: seq<Byte> := [0x00, 0x00], [0x12, 0x34];
    CrcOfNothing(0x6363, zeros);
    Feed(0x6363, zeros, 0, 0x00, 0x6363, 0x51FE);
    Feed(0x6363, zeros, 1, 0x00, 0x51FE, 0x1EA0);
    CrcOfNothing(0x6363, other);
    Feed(0x6363, other, 0, 0x12, 0x6363, 0x626D);
    Feed(0x6363, other, 1, 0x34, 0x626D, 0xCF26);
  }

  // ---- Messages as bits, low bit of each byte first ----

  function Bit(b: bool): Reg { if b then 1 else 0 }

  predicate Has(b: Byte, mask: Byte) { b & mask != 0 }

  function BitsOfByte(b: Byte): (bits: seq<bool>)
    ensures |bits| == 8
  {
    [Has(b, 1), Has(b, 2), Has(b, 4), Has(b, 8), Has(b, 16), Has(b, 32), Has(b, 64), Has(b, 128)]
  }

  function Bits(data: seq<Byte>): (bits: seq<bool>)
    ensures |bits| == 8 * |data|
  {
    if data == [] then [] else BitsOfByte(data[0]) + Bits(data[1..])
  }

  function CrcBits(c: Reg, bits: seq<bool>): Reg
    decreases |bits|
  {
    if bits == [] then c else CrcBits(Step(Xor(c, Bit(bits[0]))), bits[1..])
  }

  function Push(b: Reg, w: Reg): Reg { b | (w << 1) }

  function Word(bits: seq<bool>): Reg {
    if bits == [] then 0 else Push(Bit(bits[0]), Word(bits[1..]))
  }

  function Zeros(n: nat): (z: seq<bool>)
    ensures |z| == n
  {
    seq(n, _ => false)
  }

  const POWERS: seq<Reg> := [
    1, 2, 4, 8, 0x10, 0x20, 0x40, 0x80, 0x100, 0x200, 0x400, 0x800, 0x1000, 0x2000, 0x4000, 0x8000
  ]

  function Power(n: nat): Reg
    requires n < 16
  {
    POWERS[n]
  }

  ghost predicate Below(w: Reg, p: Reg) { w < p }

  ghost predicate Doubles(p: Reg, q: Reg) { p <= 0x4000 && q == p << 1 }

  ghost predicate Fits(w: Reg, n: nat)
    requires n < 16
  {
    Below(w, Power(n))
  }

  lemma PowersDouble(n: nat)
    requires n < 15
    ensures Doubles(Power(n), Power(n + 1))
  {
  }

  lemma PushFits(b: bool, w: Reg, n: nat)
    requires n < 15 && Fits(w, n)
    ensures Fits(Push(Bit(b), w), n + 1)
  {
    hide Push, Bit, Power, Below, Doubles;
    PowersDouble(n);
    PushBelow(b, w, Power(n), Power(n + 1));
  }

  lemma PushBelow(b: bool, w: Reg, p: Reg, q: Reg)
    requires Below(w, p) && Doubles(p, q)
    ensures Below(Push(Bit(b), w), q)
  {
    PushFitsFlat(Bit(b), w, p, q, Push(Bit(b), w));
  }

  lemma PushFitsFlat(b: Reg, w: Reg, p: Reg, q: Reg, r: Reg)
    requires b <= 1 && w < p <= 0x4000 && q == p << 1 && r == b | (w << 1)
    ensures r < q
  {
  }

  lemma FitsFifteen(w: Reg, n: nat)
    requires n <= 15 && Fits(w, n)
    ensures w < 0x8000
  {
    if n < 15 {
      PowersDouble(n);
    }
  }

  lemma {:induction false} WordFits(bits: seq<bool>)
    requires |bits| <= 15
    ensures Fits(Word(bits), |bits|)
  {
    hide Push, Bit, Fits;
    if bits == [] {
      EmptyFits();
    } else {
      WordFits(bits[1..]);
      PushFits(bits[0], Word(bits[1..]), |bits| - 1);
    }
  }

  lemma EmptyFits()
    ensures Fits(0, 0)
  {
  }

  lemma WordIsShort(bits: seq<bool>)
    requires |bits| <= 15
    ensures Word(bits) < 0x8000
  {
    hide Fits, Word;
    WordFits(bits);
    FitsFifteen(Word(bits), |bits|);
  }

  // ---- Up to sixteen message bits are sixteen steps from one word ----

  lemma StepAbsorbs(c: Reg, b: Reg, w: Reg)
    requires b <= 1 && w < 0x8000
    ensures Step(Xor(c, Push(b, w))) == Xor(Step(Xor(c, b)), w)
  {
    SplitLowBit(c, b, w);
    EvenStep(w);
    StepIsLinear(Xor(c, b), Push(0, w));
    hide *;
  }

  lemma SplitLowBit(c: Reg, b: Reg, w: Reg)
    requires b <= 1
    ensures Xor(c, Push(b, w)) == Xor(Xor(c, b), Push(0, w))
  {
    PushFlat(b, w, Push(b, w), Push(0, w));
    XorAssociates(c, b, Push(0, w));
  }

  lemma PushFlat(b: Reg, w: Reg, p: Reg, q: Reg)
    requires b <= 1 && p == b | (w << 1) && q == 0 | (w << 1)
    ensures p == Xor(b, q)
  {
  }

  lemma XorIs(x: Reg, y: Reg)
    ensures Xor(x, y) == x ^ y
  {
  }

  lemma XorAssociates(x: Reg, y: Reg, z: Reg)
    ensures Xor(x, Xor(y, z)) == Xor(Xor(x, y), z)
  {
    hide Xor;
    var yz, xy := Xor(y, z), Xor(x, y);
    XorIs(y, z);
    XorIs(x, y);
    XorIs(x, yz);
    XorIs(xy, z);
    XorFlat(x, y, z, xy, yz, Xor(x, yz), Xor(xy, z));
  }

  lemma XorFlat(x: Reg, y: Reg, z: Reg, xy: Reg, yz: Reg, l: Reg, r: Reg)
    requires xy == x ^ y && yz == y ^ z && l == x ^ yz && r == xy ^ z
    ensures l == r
  {
  }

  lemma XorZero(x: Reg)
    ensures Xor(x, 0) == x == Xor(0, x) && Xor(x, x) == 0
  {
  }

  lemma EvenStep(w: Reg)
    requires w < 0x8000
    ensures Step(Push(0, w)) == w
  {
    hide Step;
    StepMasked(Push(0, w));
    EvenFlat(w, Push(0, w), Step(Push(0, w)));
  }

  lemma EvenFlat(w: Reg, p: Reg, next: Reg)
    requires w < 0x8000 && p == 0 | (w << 1) && next == (p >> 1) ^ (0x8408 & (0 - (p & 1)))
    ensures next == w
  {
  }

  lemma BitIsLow(b: bool)
    ensures Bit(b) <= 1
  {
  }

  lemma {:induction false} BitsAreSteps(c: Reg, bits: seq<bool>)
    requires |bits| <= 16
    ensures CrcBits(c, bits) == Steps(Xor(c, Word(bits)), |bits|)
    decreases |bits|
  {
    hide Step, Bit, Xor, Push;
    if bits == [] {
      XorZero(c);
    } else {
      var b, w := Bit(bits[0]), Word(bits[1..]);
      WordIsShort(bits[1..]);
      BitIsLow(bits[0]);
      StepAbsorbs(c, b, w);
      BitsAreSteps(Step(Xor(c, b)), bits[1..]);
    }
  }

  lemma CrcByteIsBits(c: Reg, b: Byte)
    ensures CrcByte(c, b) == CrcBits(c, BitsOfByte(b))
  {
    hide Steps, Xor, CrcBits, Push, Word, BitsOfByte, Bit;
    BitsAreSteps(c, BitsOfByte(b));
    WordOfByte(b);
  }

  lemma WordOfByte(b: Byte)
    ensures Word(BitsOfByte(b)) == b as Reg
  {
    hide Bit, Push;
    var s := BitsOfByte(b);
    WordAt(s, 0); WordAt(s, 1); WordAt(s, 2); WordAt(s, 3); WordAt(s, 4); WordAt(s, 5); WordAt(s, 6); WordAt(s, 7);
    EightBits(b, s, Word(s[8..]), Word(s[7..]), Word(s[6..]), Word(s[5..]), Word(s[4..]), Word(s[3..]), Word(s[2..]),
              Word(s[1..]), Word(s[0..]));
    assert s[0..] == s;
  }

  lemma WordAt(bits: seq<bool>, k: nat)
    requires k < |bits|
    ensures Word(bits[k..]) == Push(Bit(bits[k]), Word(bits[k + 1..]))
  {
    hide Bit, Push;
    assert bits[k..][1..] == bits[k + 1..];
  }

  lemma EightBits(b: Byte, s: seq<bool>, w8: Reg, w7: Reg, w6: Reg, w5: Reg, w4: Reg, w3: Reg, w2: Reg,
                  w1: Reg, w0: Reg)
    requires s == BitsOfByte(b) && w8 == 0
    requires w7 == Push(Bit(s[7]), w8) && w6 == Push(Bit(s[6]), w7) && w5 == Push(Bit(s[5]), w6)
    requires w4 == Push(Bit(s[4]), w5) && w3 == Push(Bit(s[3]), w4) && w2 == Push(Bit(s[2]), w3)
    requires w1 == Push(Bit(s[1]), w2) && w0 == Push(Bit(s[0]), w1)
    ensures w0 == b as Reg
  {
  }

  lemma {:induction false} CrcBitsOfConcat(c: Reg, a: seq<bool>, b: seq<bool>)
    ensures CrcBits(c, a + b) == CrcBits(CrcBits(c, a), b)
    decreases |a|
  {
    hide Step, Xor, Bit;
    if a == [] {
      assert a + b == b;
    } else {
      assert (a + b)[1..] == a[1..] + b;
      CrcBitsOfConcat(Step(Xor(c, Bit(a[0]))), a[1..], b);
    }
  }

  /** The byte-wise register is the bit-wise one. */
  lemma {:induction false} CrcIsBits(c: Reg, data: seq<Byte>)
    ensures Crc(c, data) == CrcBits(c, Bits(data))
    decreases |data|
  {
    hide CrcByte, CrcBits, BitsOfByte;
    if data == [] {
      assert CrcBits(c, []) == c by { EmptyBits(c); }
    } else {
      CrcByteIsBits(c, data[0]);
      CrcBitsOfConcat(c, BitsOfByte(data[0]), Bits(data[1..]));
      CrcIsBits(CrcByte(c, data[0]), data[1..]);
    }
  }

  lemma EmptyBits(c: Reg)
    ensures CrcBits(c, []) == c
  {
  }

  // ---- Linearity ----

  function XorBits(a: seq<bool>, b: seq<bool>): (d: seq<bool>)
    requires |a| == |b|
    ensures |d| == |a|
  {
    seq(|a|, i requires 0 <= i < |a| => a[i] != b[i])
  }

  lemma XorShuffles(c: Reg, d: Reg, x: Reg, y: Reg)
    ensures Xor(Xor(c, d), Xor(x, y)) == Xor(Xor(c, x), Xor(d, y))
  {
    hide Xor;
    var cd, xy, cx, dy := Xor(c, d), Xor(x, y), Xor(c, x), Xor(d, y);
    XorIs(c, d);
    XorIs(x, y);
    XorIs(c, x);
    XorIs(d, y);
    XorIs(cd, xy);
    XorIs(cx, dy);
    XorShuffleFlat(c, d, x, y, cd, xy, cx, dy, Xor(cd, xy), Xor(cx, dy));
  }

  lemma XorShuffleFlat(c: Reg, d: Reg, x: Reg, y: Reg, cd: Reg, xy: Reg, cx: Reg, dy: Reg, l: Reg, r: Reg)
    requires cd == c ^ d && xy == x ^ y && cx == c ^ x && dy == d ^ y && l == cd ^ xy && r == cx ^ dy
    ensures l == r
  {
  }

  lemma BitXor(a: bool, b: bool)
    ensures Bit(a != b) == Xor(Bit(a), Bit(b))
  {
  }

  lemma {:induction false} CrcBitsIsLinear(c: Reg, d: Reg, a: seq<bool>, b: seq<bool>)
    requires |a| == |b|
    ensures CrcBits(Xor(c, d), XorBits(a, b)) == Xor(CrcBits(c, a), CrcBits(d, b))
    decreases |a|
  {
    hide Step, Xor, Bit;
    if a != [] {
      var x, y := Bit(a[0]), Bit(b[0]);
      BitXor(a[0], b[0]);
      XorShuffles(c, d, x, y);
      StepIsLinear(Xor(c, x), Xor(d, y));
      assert XorBits(a, b)[1..] == XorBits(a[1..], b[1..]);
      CrcBitsIsLinear(Step(Xor(c, x)), Step(Xor(d, y)), a[1..], b[1..]);
    }
  }

  function XorBytes(a: seq<Byte>, b: seq<Byte>): (d: seq<Byte>)
    requires |a| == |b|
    ensures |d| == |a|
  {
    seq(|a|, i requires 0 <= i < |a| => a[i] ^ b[i])
  }

  lemma {:induction false} StepsIsLinear(c: Reg, d: Reg, n: nat)
    ensures Steps(Xor(c, d), n) == Xor(Steps(c, n), Steps(d, n))
    decreases n
  {
    hide Step, Xor;
    if n > 0 {
      StepIsLinear(c, d);
      StepsIsLinear(Step(c), Step(d), n - 1);
    }
  }

  lemma CrcByteIsLinear(c: Reg, d: Reg, x: Byte, y: Byte, z: Byte)
    requires z == x ^ y
    ensures CrcByte(Xor(c, d), z) == Xor(CrcByte(c, x), CrcByte(d, y))
  {
    WidenXor(x, y, z);
    hide Xor, Steps;
    XorShuffles(c, d, x as Reg, y as Reg);
    StepsIsLinear(Xor(c, x as Reg), Xor(d, y as Reg), 8);
  }

  lemma WidenXor(x: Byte, y: Byte, z: Byte)
    requires z == x ^ y
    ensures z as Reg == Xor(x as Reg, y as Reg)
  {
  }

  /** Exclusive-or-ing two images of one length exclusive-ors their checksums. */
  lemma {:induction false} CrcIsLinear(c: Reg, d: Reg, a: seq<Byte>, b: seq<Byte>)
    requires |a| == |b|
    ensures Crc(Xor(c, d), XorBytes(a, b)) == Xor(Crc(c, a), Crc(d, b))
    decreases |a|
  {
    hide CrcByte, Xor;
    if a != [] {
      assert XorBytes(a, b)[1..] == XorBytes(a[1..], b[1..]);
      CrcByteIsLinear(c, d, a[0], b[0], XorBytes(a, b)[0]);
      CrcIsLinear(CrcByte(c, a[0]), CrcByte(d, b[0]), a[1..], b[1..]);
    }
  }

  // ---- Bursts ----

  lemma {:induction false} ZerosFromZero(n: nat)
    ensures CrcBits(0, Zeros(n)) == 0
  {
    if n > 0 {
      assert Zeros(n)[1..] == Zeros(n - 1);
      assert Step(Xor(0, Bit(false))) == 0;
      ZerosFromZero(n - 1);
    }
  }

  lemma StepKeepsNonzero(c: Reg)
    requires c != 0
    ensures Step(c) != 0
  {
    StepIsBijection(c);
    assert Unstep(0) == 0;
    hide Step, Unstep;
  }

  lemma {:induction false} ZerosKeepNonzero(c: Reg, n: nat)
    requires c != 0
    ensures CrcBits(c, Zeros(n)) != 0
    decreases n
  {
    hide Step;
    if n > 0 {
      assert Zeros(n)[1..] == Zeros(n - 1);
      XorZero(c);
      StepKeepsNonzero(c);
      ZerosKeepNonzero(Step(c), n - 1);
    }
  }

  lemma {:induction false} StepsKeepNonzero(c: Reg, n: nat)
    requires c != 0
    ensures Steps(c, n) != 0
    decreases n
  {
    hide Step;
    if n > 0 {
      StepKeepsNonzero(c);
      StepsKeepNonzero(Step(c), n - 1);
    }
  }

  lemma {:induction false} NonzeroWord(bits: seq<bool>)
    requires |bits| <= 16 && true in bits
    ensures Word(bits) != 0
    decreases |bits|
  {
    hide Push, Bit;
    WordIsShort(bits[1..]);
    if !bits[0] {
      NonzeroWord(bits[1..]);
    }
    PushNonzero(bits[0], Word(bits[1..]));
  }

  lemma PushNonzero(b: bool, w: Reg)
    requires w < 0x8000 && (b || w != 0)
    ensures Push(Bit(b), w) != 0
  {
    PushNonzeroFlat(Bit(b), w, Push(Bit(b), w));
  }

  lemma PushNonzeroFlat(b: Reg, w: Reg, p: Reg)
    requires p == b | (w << 1) && w < 0x8000 && (b == 1 || w != 0)
    ensures p != 0
  {
  }

  /** From an empty register, sixteen bits at most cannot cancel each other. */
  lemma ShortPatternLeavesTrace(bits: seq<bool>)
    requires |bits| <= 16 && true in bits
    ensures CrcBits(0, bits) != 0
  {
    hide Steps, Word, CrcBits, Xor;
    BitsAreSteps(0, bits);
    XorZero(Word(bits));
    NonzeroWord(bits);
    StepsKeepNonzero(Word(bits), |bits|);
  }

  /** A run of bits that is all zero outside a window of sixteen, and not all zero, leaves a trace. */
  lemma BurstLeavesTrace(bits: seq<bool>, p: nat)
    requires true in bits
    requires forall k :: 0 <= k < |bits| && bits[k] ==> p <= k < p + 16
    ensures CrcBits(0, bits) != 0
  {
    hide CrcBits;
    var end := if p + 16 <= |bits| then p + 16 else |bits|;
    var head, burst, tail := bits[..p], bits[p..end], bits[end..];
    assert bits == head + burst + tail;
    assert head == Zeros(|head|) && tail == Zeros(|tail|);
    assert true in burst;
    ZerosFromZero(|head|);
    CrcBitsOfConcat(0, head, burst);
    ShortPatternLeavesTrace(burst);
    CrcBitsOfConcat(0, head + burst, tail);
    ZerosKeepNonzero(CrcBits(0, burst), |tail|);
  }

  lemma {:induction false} SameBitsSameBytes(a: seq<Byte>, b: seq<Byte>)
    requires |a| == |b| && Bits(a) == Bits(b)
    ensures a == b
    decreases |a|
  {
    hide BitsOfByte;
    if a != [] {
      assert Bits(a)[..8] == BitsOfByte(a[0]) && Bits(a)[8..] == Bits(a[1..]);
      assert Bits(b)[..8] == BitsOfByte(b[0]) && Bits(b)[8..] == Bits(b[1..]);
      SameBitsSameBytes(a[1..], b[1..]);
      WordOfByte(a[0]);
      WordOfByte(b[0]);
    }
  }

  /** The two images differ, and only at bit positions within sixteen of each other. */
  ghost predicate DifferByBurst(a: seq<Byte>, b: seq<Byte>, p: nat)
    requires |a| == |b|
  {
    && a != b
    && forall k :: 0 <= k < 8 * |a| && Bits(a)[k] != Bits(b)[k] ==> p <= k < p + 16
  }

  /** The checksum tells apart any two images that differ by a burst of at most sixteen bits. */
  lemma BurstChangesCrc(c: Reg, a: seq<Byte>, b: seq<Byte>, p: nat)
    requires |a| == |b| && DifferByBurst(a, b, p)
    ensures Crc(c, a) != Crc(c, b)
  {
    hide Crc, CrcBits, Bits, Xor;
    var diff := XorBits(Bits(a), Bits(b));
    if true !in diff {
      forall k | 0 <= k < |diff|
        ensures Bits(a)[k] == Bits(b)[k]
      {
        assert !diff[k];
      }
      assert Bits(a) == Bits(b);
      SameBitsSameBytes(a, b);
      assert false;
    }
    CrcIsBits(c, a);
    CrcIsBits(c, b);
    CrcBitsIsLinear(c, c, Bits(a), Bits(b));
    XorZero(c);
    XorZero(Crc(c, a));
    BurstLeavesTrace(diff, p);
  }
}
