/** Where the constants of SHA-256 come from: sections 4.2.2 and 5.3.3 of FIPS 180-4. */
module Sha2Constants {
  import opened Sha2

  const TWO32: nat := 0x1_0000_0000

  /** k is the first thirty-two bits of the fractional part of the cube root of p, whose integral part is a. */
  predicate CubeRootBits(p: nat, a: nat, k: nat) {
    var r := a * TWO32 + k;
    k < TWO32 && r * r * r <= p * TWO32 * TWO32 * TWO32 < (r + 1) * (r + 1) * (r + 1)
  }

  predicate SquareRootBits(p: nat, a: nat, k: nat) {
    var r := a * TWO32 + k;
    k < TWO32 && r * r <= p * TWO32 * TWO32 < (r + 1) * (r + 1)
  }

  /** The first sixty-four primes, in rows of eight. */
  const PRIMES: seq<seq<nat>> := [
    [2, 3, 5, 7, 11, 13, 17, 19],
    [23, 29, 31, 37, 41, 43, 47, 53],
    [59, 61, 67, 71, 73, 79, 83, 89],
    [97, 101, 103, 107, 109, 113, 127, 131],
    [137, 139, 149, 151, 157, 163, 167, 173],
    [179, 181, 191, 193, 197, 199, 211, 223],
    [227, 229, 233, 239, 241, 251, 257, 263],
    [269, 271, 277, 281, 283, 293, 307, 311]
  ]

  function Prime(t: nat): nat
    requires t < 64
  {
    PRIMES[t / 8][t % 8]
  }

  /** The t-th round constant comes from the t-th prime. */
  predicate KIsRoot(t: nat)
    requires t < 64
  {
    CubeRootBits(Prime(t), CubeFloor(Prime(t)), K256(t) as nat)
  }

  /** The integral part of the cube root of p, for p below 343. */
  function CubeFloor(p: nat): nat {
    if p < 8 then 1 else if p < 27 then 2 else if p < 64 then 3 else if p < 125 then 4 else if p < 216 then 5 else 6
  }

  lemma Root(t: nat, p: nat, a: nat, k: nat)
    requires t < 64 && Prime(t) == p && K256(t) as nat == k && CubeFloor(p) == a && CubeRootBits(p, a, k)
    ensures KIsRoot(t)
  {
  }

  lemma Row0(t: nat)
    requires 0 <= t < 8
    ensures KIsRoot(t)
  {
    hide KIsRoot;
    match t
    case 0 => Root(0, 2, 1, 0x428a2f98);
    case 1 => Root(1, 3, 1, 0x71374491);
    case 2 => Root(2, 5, 1, 0xb5c0fbcf);
    case 3 => Root(3, 7, 1, 0xe9b5dba5);
    case 4 => Root(4, 11, 2, 0x3956c25b);
    case 5 => Root(5, 13, 2, 0x59f111f1);
    case 6 => Root(6, 17, 2, 0x923f82a4);
    case _ => Root(7, 19, 2, 0xab1c5ed5);
  }

  lemma Row1(t: nat)
    requires 8 <= t < 16
    ensures KIsRoot(t)
  {
    hide KIsRoot;
    match t
    case 8 => Root(8, 23, 2, 0xd807aa98);
    case 9 => Root(9, 29, 3, 0x12835b01);
    case 10 => Root(10, 31, 3, 0x243185be);
    case 11 => Root(11, 37, 3, 0x550c7dc3);
    case 12 => Root(12, 41, 3, 0x72be5d74);
    case 13 => Root(13, 43, 3, 0x80deb1fe);
    case 14 => Root(14, 47, 3, 0x9bdc06a7);
    case _ => Root(15, 53, 3, 0xc19bf174);
  }

  lemma Row2(t: nat)
    requires 16 <= t < 24
    ensures KIsRoot(t)
  {
    hide KIsRoot;
    match t
    case 16 => Root(16, 59, 3, 0xe49b69c1);
    case 17 => Root(17, 61, 3, 0xefbe4786);
    case 18 => Root(18, 67, 4, 0x0fc19dc6);
    case 19 => Root(19, 71, 4, 0x240ca1cc);
    case 20 => Root(20, 73, 4, 0x2de92c6f);
    case 21 => Root(21, 79, 4, 0x4a7484aa);
    case 22 => Root(22, 83, 4, 0x5cb0a9dc);
    case _ => Root(23, 89, 4, 0x76f988da);
  }

  lemma Row3(t: nat)
    requires 24 <= t < 32
    ensures KIsRoot(t)
  {
    hide KIsRoot;
    match t
    case 24 => Root(24, 97, 4, 0x983e5152);
    case 25 => Root(25, 101, 4, 0xa831c66d);
    case 26 => Root(26, 103, 4, 0xb00327c8);
    case 27 => Root(27, 107, 4, 0xbf597fc7);
    case 28 => Root(28, 109, 4, 0xc6e00bf3);
    case 29 => Root(29, 113, 4, 0xd5a79147);
    case 30 => Root(30, 127, 5, 0x06ca6351);
    case _ => Root(31, 131, 5, 0x14292967);
  }

  lemma Row4(t: nat)
    requires 32 <= t < 40
    ensures KIsRoot(t)
  {
    hide KIsRoot;
    match t
    case 32 => Root(32, 137, 5, 0x27b70a85);
    case 33 => Root(33, 139, 5, 0x2e1b2138);
    case 34 => Root(34, 149, 5, 0x4d2c6dfc);
    case 35 => Root(35, 151, 5, 0x53380d13);
    case 36 => Root(36, 157, 5, 0x650a7354);
    case 37 => Root(37, 163, 5, 0x766a0abb);
    case 38 => Root(38, 167, 5, 0x81c2c92e);
    case _ => Root(39, 173, 5, 0x92722c85);
  }

  lemma Row5(t: nat)
    requires 40 <= t < 48
    ensures KIsRoot(t)
  {
    hide KIsRoot;
    match t
    case 40 => Root(40, 179, 5, 0xa2bfe8a1);
    case 41 => Root(41, 181, 5, 0xa81a664b);
    case 42 => Root(42, 191, 5, 0xc24b8b70);
    case 43 => Root(43, 193, 5, 0xc76c51a3);
    case 44 => Root(44, 197, 5, 0xd192e819);
    case 45 => Root(45, 199, 5, 0xd6990624);
    case 46 => Root(46, 211, 5, 0xf40e3585);
    case _ => Root(47, 223, 6, 0x106aa070);
  }

  lemma Row6(t: nat)
    requires 48 <= t < 56
    ensures KIsRoot(t)
  {
    hide KIsRoot;
    match t
    case 48 => Root(48, 227, 6, 0x19a4c116);
    case 49 => Root(49, 229, 6, 0x1e376c08);
    case 50 => Root(50, 233, 6, 0x2748774c);
    case 51 => Root(51, 239, 6, 0x34b0bcb5);
    case 52 => Root(52, 241, 6, 0x391c0cb3);
    case 53 => Root(53, 251, 6, 0x4ed8aa4a);
    case 54 => Root(54, 257, 6, 0x5b9cca4f);
    case _ => Root(55, 263, 6, 0x682e6ff3);
  }

  lemma Row7(t: nat)
    requires 56 <= t < 64
    ensures KIsRoot(t)
  {
    hide KIsRoot;
    match t
    case 56 => Root(56, 269, 6, 0x748f82ee);
    case 57 => Root(57, 271, 6, 0x78a5636f);
    case 58 => Root(58, 277, 6, 0x84c87814);
    case 59 => Root(59, 281, 6, 0x8cc70208);
    case 60 => Root(60, 283, 6, 0x90befffa);
    case 61 => Root(61, 293, 6, 0xa4506ceb);
    case 62 => Root(62, 307, 6, 0xbef9a3f7);
    case _ => Root(63, 311, 6, 0xc67178f2);
  }

  /** Section 4.2.2: the constants are the fractional parts of the cube roots of the first sixty-four primes. */
  lemma RoundConstants(t: nat)
    requires t < 64
    ensures KIsRoot(t)
  {
    hide KIsRoot;
    if t < 8 {
      Row0(t);
    } else if t < 16 {
      Row1(t);
    } else if t < 24 {
      Row2(t);
    } else if t < 32 {
      Row3(t);
    } else if t < 40 {
      Row4(t);
    } else if t < 48 {
      Row5(t);
    } else if t < 56 {
      Row6(t);
    } else if t < 64 {
      Row7(t);
    }
  }

  /** Section 5.3.3: the initial state is the fractional parts of the square roots of the first eight. */
  lemma InitialState()
    ensures |INITIAL| == 8
    ensures SquareRootBits(2, 1, INITIAL[0] as nat)
    ensures SquareRootBits(3, 1, INITIAL[1] as nat)
    ensures SquareRootBits(5, 2, INITIAL[2] as nat)
    ensures SquareRootBits(7, 2, INITIAL[3] as nat)
    ensures SquareRootBits(11, 3, INITIAL[4] as nat)
    ensures SquareRootBits(13, 3, INITIAL[5] as nat)
    ensures SquareRootBits(17, 4, INITIAL[6] as nat)
    ensures SquareRootBits(19, 4, INITIAL[7] as nat)
  {
  }
}
