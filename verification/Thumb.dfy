/** The Thumb-2 branch each firmware hook is made of: encoding T4 of B, section A7.7.12 of the ARMv7-M manual. */
module Thumb {
  import opened Wrappers
  import opened Octets

  const REACH: int := 0x100_0000

  predicate InReach(src: int, dst: int) { -REACH <= dst - (src + 4) < REACH }

  // ---- The builder's encoder ----
  // Its shifts and masks of a possibly negative offset are written as division and remainder, which
  // round the same way; the fields it or-s together do not overlap, so they are added.

  function XorBit(a: int, b: int): (r: int)
    requires 0 <= a <= 1 && 0 <= b <= 1
    ensures 0 <= r <= 1
  {
    if a == b then 0 else 1
  }

  function Pack(h1: int, h2: int): (bytes: seq<Octet>)
    requires 0 <= h1 < 0x1_0000 && 0 <= h2 < 0x1_0000
    ensures |bytes| == 4
  {
    [h1 % 0x100, h1 / 0x100, h2 % 0x100, h2 / 0x100]
  }

  function FirstHalf(half: int): (h1: int)
    ensures 0xF000 <= h1 < 0xF800
  {
    0xF000 + half / 0x80_0000 % 2 * 0x400 + half / 0x800 % 0x400
  }

  function SecondHalf(half: int): (h2: int)
    ensures 0x9000 <= h2 < 0xC000
  {
    var s, i1, i2 := half / 0x80_0000 % 2, half / 0x40_0000 % 2, half / 0x20_0000 % 2;
    0x9000 + XorBit(1 - i1, s) * 0x2000 + XorBit(1 - i2, s) * 0x800 + half % 0x800
  }

  /** Encode a branch from src to dst, or refuse. */
  function BranchWide(src: int, dst: int): (r: Option<seq<Octet>>)
    ensures r.Some? <==> InReach(src, dst)
    ensures r.Some? ==> |r.value| == 4
  {
    if InReach(src, dst)
    then
      var half := (dst - (src + 4)) / 2;
      Some(Pack(FirstHalf(half), SecondHalf(half)))
    else None
  }

  // ---- The architecture's decoder ----

  function HalfAt(bytes: seq<Octet>, at: nat): (h: int)
    requires at + 2 <= |bytes|
    ensures 0 <= h < 0x1_0000
  {
    var low: int, high: int := bytes[at], bytes[at + 1];
    low + 0x100 * high
  }

  /** The halfwords match 11110 S imm10, 10 J1 1 J2 imm11. */
  predicate IsBranchT4(h1: int, h2: int) { h1 / 0x800 == 0x1E && h2 / 0x4000 == 2 && h2 / 0x1000 % 2 == 1 }

  /** SignExtend(S : I1 : I2 : imm10 : imm11 : '0'), with I1 = NOT(J1 EOR S) and I2 = NOT(J2 EOR S). */
  function Imm32(h1: int, h2: int): int {
    var s := h1 / 0x400 % 2;
    var i1 := 1 - XorBit(h2 / 0x2000 % 2, s);
    var i2 := 1 - XorBit(h2 / 0x800 % 2, s);
    2 * (0x40_0000 * i1 + 0x20_0000 * i2 + 0x800 * (h1 % 0x400) + h2 % 0x800) - REACH * s
  }

  /** Where the processor goes when it executes the four bytes at address pc. */
  function Decode(pc: int, bytes: seq<Octet>): (target: Option<int>)
    requires |bytes| == 4
  {
    var h1, h2 := HalfAt(bytes, 0), HalfAt(bytes, 2);
    if IsBranchT4(h1, h2) then Some(pc + 4 + Imm32(h1, h2)) else None
  }

  // ---- The decoder inverts the encoder ----

  lemma UnpackPack(h1: int, h2: int)
    requires 0 <= h1 < 0x1_0000 && 0 <= h2 < 0x1_0000
    ensures HalfAt(Pack(h1, h2), 0) == h1 && HalfAt(Pack(h1, h2), 2) == h2
  {
  }

  lemma HalfIsItsFields(half: int)
    requires -0x80_0000 <= half < 0x80_0000
    ensures half == 0x40_0000 * (half / 0x40_0000 % 2) + 0x20_0000 * (half / 0x20_0000 % 2)
                  + 0x800 * (half / 0x800 % 0x400) + half % 0x800 - 0x80_0000 * (half / 0x80_0000 % 2)
  {
    ShiftFurther(half);
    var a, b, c := half / 0x800, half / 0x20_0000, half / 0x40_0000;
    assert half == 0x800 * a + half % 0x800 && a == 0x400 * b + a % 0x400 && b == 2 * c + b % 2;
    assert c == 2 * (c / 2) + c % 2 && c / 2 == -(c / 2 % 2);
  }

  lemma ShiftFurther(x: int)
    ensures x / 0x20_0000 == x / 0x800 / 0x400
    ensures x / 0x40_0000 == x / 0x20_0000 / 2
    ensures x / 0x80_0000 == x / 0x40_0000 / 2
  {
  }

  lemma FieldsOfFirst(half: int, s: int, imm10: int)
    requires s == half / 0x80_0000 % 2 && imm10 == half / 0x800 % 0x400
    ensures var h1 := FirstHalf(half); h1 / 0x800 == 0x1E && h1 / 0x400 % 2 == s && h1 % 0x400 == imm10
  {
  }

  lemma FieldsOfSecond(half: int, s: int, i1: int, i2: int)
    requires s == half / 0x80_0000 % 2 && i1 == half / 0x40_0000 % 2 && i2 == half / 0x20_0000 % 2
    ensures var h2 := SecondHalf(half);
            && h2 / 0x4000 == 2 && h2 / 0x1000 % 2 == 1 && h2 % 0x800 == half % 0x800
            && h2 / 0x2000 % 2 == XorBit(1 - i1, s) && h2 / 0x800 % 2 == XorBit(1 - i2, s)
  {
  }

  lemma ImmOfEncoded(half: int)
    requires -0x80_0000 <= half < 0x80_0000
    ensures IsBranchT4(FirstHalf(half), SecondHalf(half))
    ensures Imm32(FirstHalf(half), SecondHalf(half)) == 2 * half
  {
    hide FirstHalf, SecondHalf;
    var s, i1, i2 := half / 0x80_0000 % 2, half / 0x40_0000 % 2, half / 0x20_0000 % 2;
    HalfIsItsFields(half);
    FieldsOfFirst(half, s, half / 0x800 % 0x400);
    FieldsOfSecond(half, s, i1, i2);
    FlipTwice(i1, s);
    FlipTwice(i2, s);
  }

  lemma FlipTwice(i: int, s: int)
    requires 0 <= i <= 1 && 0 <= s <= 1
    ensures 1 - XorBit(XorBit(1 - i, s), s) == i
  {
  }

  /** Executing an encoded branch lands on its destination, halfword-aligned relative to the source. */
  lemma DecodeInvertsEncode(src: int, dst: int)
    requires InReach(src, dst)
    ensures Decode(src, BranchWide(src, dst).value) == Some(dst - (dst - src) % 2)
  {
    hide Pack, HalfAt, FirstHalf, SecondHalf, IsBranchT4, Imm32;
    var half := (dst - (src + 4)) / 2;
    UnpackPack(FirstHalf(half), SecondHalf(half));
    ImmOfEncoded(half);
    assert 2 * half == dst - (src + 4) - (dst - src) % 2;
  }

  lemma ImmInReach(h1: int, h2: int)
    requires 0 <= h1 < 0x1_0000 && 0 <= h2 < 0x1_0000
    ensures -REACH <= Imm32(h1, h2) < REACH && Imm32(h1, h2) % 2 == 0
  {
    hide XorBit;
    var s := h1 / 0x400 % 2;
    var i1, i2 := 1 - XorBit(h2 / 0x2000 % 2, s), 1 - XorBit(h2 / 0x800 % 2, s);
    FieldsInReach(s, i1, i2, h1 % 0x400, h2 % 0x800, Imm32(h1, h2));
  }

  lemma FieldsInReach(s: int, i1: int, i2: int, imm10: int, imm11: int, imm: int)
    requires 0 <= s <= 1 && 0 <= i1 <= 1 && 0 <= i2 <= 1 && 0 <= imm10 < 0x400 && 0 <= imm11 < 0x800
    requires imm == 2 * (0x40_0000 * i1 + 0x20_0000 * i2 + 0x800 * imm10 + imm11) - REACH * s
    ensures -REACH <= imm < REACH && imm % 2 == 0
  {
    assert imm == 2 * (0x40_0000 * i1 + 0x20_0000 * i2 + 0x800 * imm10 + imm11 - 0x80_0000 * s);
  }

  /** The encoder refuses nothing possible: a T4 branch from src to dst exists exactly for even offsets in reach. */
  lemma RefusedOnlyWhenUnreachable(src: int, dst: int)
    ensures (exists bytes: seq<Octet> :: |bytes| == 4 && Decode(src, bytes) == Some(dst))
            <==> BranchWide(src, dst).Some? && (dst - src) % 2 == 0
  {
    hide Pack, FirstHalf, SecondHalf, IsBranchT4, Imm32, HalfAt;
    if bytes: seq<Octet> :| |bytes| == 4 && Decode(src, bytes) == Some(dst) {
      ImmInReach(HalfAt(bytes, 0), HalfAt(bytes, 2));
    }
    if InReach(src, dst) && (dst - src) % 2 == 0 {
      DecodeInvertsEncode(src, dst);
      assert Decode(src, BranchWide(src, dst).value) == Some(dst);
    }
  }
}
