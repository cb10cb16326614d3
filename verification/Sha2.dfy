/** SHA-256 as FIPS 180-4 defines it: the plain reference the on-chip compressor is proved against. */
module Sha2 {

  type Word = bv32
  type Byte = bv8

  /** Addition modulo 2^32, named so that proofs can reason about it without opening it up. */
  function Add(x: Word, y: Word): Word { x + y }

  lemma AddCommutes(x: Word, y: Word)
    ensures Add(x, y) == Add(y, x)
  {
  }

  lemma AddAssociates(x: Word, y: Word, z: Word)
    ensures Add(Add(x, y), z) == Add(x, Add(y, z))
  {
    SumAssociates(x, y, z);
    assert Add(x, y) == x + y && Add(y, z) == y + z;
    hide Add;
  }

  lemma SumAssociates(x: Word, y: Word, z: Word)
    ensures Add(x + y, z) == Add(x, y + z)
  {
    assert (x + y) + z == x + (y + z);
  }

  // ---- Section 4.1.2: the six logical functions ----

  function BigSigma0(x: Word): Word { x.RotateRight(2) ^ x.RotateRight(13) ^ x.RotateRight(22) }

  function BigSigma1(x: Word): Word { x.RotateRight(6) ^ x.RotateRight(11) ^ x.RotateRight(25) }

  function SmallSigma0(x: Word): Word { x.RotateRight(7) ^ x.RotateRight(18) ^ (x >> 3) }

  function SmallSigma1(x: Word): Word { x.RotateRight(17) ^ x.RotateRight(19) ^ (x >> 10) }

  function Ch(x: Word, y: Word, z: Word): Word { (x & y) ^ (!x & z) }

  function Maj(x: Word, y: Word, z: Word): Word { (x & y) ^ (x & z) ^ (y & z) }

  // ---- Sections 4.2.2 and 5.3.3: constants, as the firmware's tables hold them ----

  const K256_ROWS: seq<seq<Word>> := [
    [0x428a2f98, 0x71374491, 0xb5c0fbcf, 0xe9b5dba5, 0x3956c25b, 0x59f111f1, 0x923f82a4, 0xab1c5ed5],
    [0xd807aa98, 0x12835b01, 0x243185be, 0x550c7dc3, 0x72be5d74, 0x80deb1fe, 0x9bdc06a7, 0xc19bf174],
    [0xe49b69c1, 0xefbe4786, 0x0fc19dc6, 0x240ca1cc, 0x2de92c6f, 0x4a7484aa, 0x5cb0a9dc, 0x76f988da],
    [0x983e5152, 0xa831c66d, 0xb00327c8, 0xbf597fc7, 0xc6e00bf3, 0xd5a79147, 0x06ca6351, 0x14292967],
    [0x27b70a85, 0x2e1b2138, 0x4d2c6dfc, 0x53380d13, 0x650a7354, 0x766a0abb, 0x81c2c92e, 0x92722c85],
    [0xa2bfe8a1, 0xa81a664b, 0xc24b8b70, 0xc76c51a3, 0xd192e819, 0xd6990624, 0xf40e3585, 0x106aa070],
    [0x19a4c116, 0x1e376c08, 0x2748774c, 0x34b0bcb5, 0x391c0cb3, 0x4ed8aa4a, 0x5b9cca4f, 0x682e6ff3],
    [0x748f82ee, 0x78a5636f, 0x84c87814, 0x8cc70208, 0x90befffa, 0xa4506ceb, 0xbef9a3f7, 0xc67178f2]
  ]

  function K256(t: nat): Word
    requires t < 64
  {
    K256_ROWS[t / 8][t % 8]
  }

  const INITIAL: seq<Word> := [
    0x6a09e667, 0xbb67ae85, 0x3c6ef372, 0xa54ff53a, 0x510e527f, 0x9b05688c, 0x1f83d9ab, 0x5be0cd19
  ]

  // ---- Section 5.2.1: a 64-byte block as sixteen big-endian words ----

  function WordAt(bytes: seq<Byte>, at: nat): Word
    requires at + 4 <= |bytes|
  {
    (bytes[at] as Word << 24) | (bytes[at + 1] as Word << 16) | (bytes[at + 2] as Word << 8) | (bytes[at + 3] as Word)
  }

  function BlockWords(block: seq<Byte>): (words: seq<Word>)
    requires |block| == 64
    ensures |words| == 16
  {
    seq(16, i requires 0 <= i < 16 => WordAt(block, 4 * i))
  }

  // ---- Section 6.2.2, step 1: the message schedule W[0..n) ----

  function Expand(w2: Word, w7: Word, w15: Word, w16: Word): Word {
    Add(Add(Add(SmallSigma1(w2), w7), SmallSigma0(w15)), w16)
  }

  function Schedule(words: seq<Word>, n: nat): (w: seq<Word>)
    requires |words| == 16 && 16 <= n <= 64
    ensures |w| == n
    decreases n
  {
    if n == 16 then words
    else
      var w := Schedule(words, n - 1);
      w + [Expand(w[n - 3], w[n - 8], w[n - 16], w[n - 17])]
  }

  /** The schedule is one sequence growing at its end: a shorter one is a prefix of a longer one. */
  lemma {:induction false} SchedulePrefix(words: seq<Word>, n: nat)
    requires |words| == 16 && 16 <= n <= 64
    ensures Schedule(words, n) == Schedule(words, 64)[..n]
    decreases 64 - n
  {
    hide Expand;
    if n < 64 {
      SchedulePrefix(words, n + 1);
      assert Schedule(words, n) == Schedule(words, n + 1)[..n];
    }
  }

  /** The recurrence the standard states for W[t], t >= 16. */
  lemma ScheduleAt(words: seq<Word>, t: nat)
    requires |words| == 16 && 16 <= t < 64
    ensures Schedule(words, 64)[t] ==
            (var w := Schedule(words, 64); Expand(w[t - 2], w[t - 7], w[t - 15], w[t - 16]))
  {
    hide Expand;
    SchedulePrefix(words, t);
    SchedulePrefix(words, t + 1);
    assert Schedule(words, t + 1)[t] == Schedule(words, 64)[t];
  }

  // ---- Section 6.2.2, steps 2 to 4 ----

  datatype Working = Working(a: Word, b: Word, c: Word, d: Word, e: Word, f: Word, g: Word, h: Word)

  function Round(v: Working, k: Word, w: Word): Working {
    var t1 := Add(Add(Add(Add(v.h, BigSigma1(v.e)), Ch(v.e, v.f, v.g)), k), w);
    var t2 := Add(BigSigma0(v.a), Maj(v.a, v.b, v.c));
    Working(Add(t1, t2), v.a, v.b, v.c, Add(v.d, t1), v.e, v.f, v.g)
  }

  function Rounds(v: Working, w: seq<Word>, n: nat): Working
    requires n <= 64 && |w| == 64
  {
    if n == 0 then v else Round(Rounds(v, w, n - 1), K256(n - 1), w[n - 1])
  }

  type State = s: seq<Word> | |s| == 8 witness INITIAL

  function Load(s: State): Working { Working(s[0], s[1], s[2], s[3], s[4], s[5], s[6], s[7]) }

  function Feedforward(s: State, v: Working): State {
    [ Add(s[0], v.a), Add(s[1], v.b), Add(s[2], v.c), Add(s[3], v.d),
      Add(s[4], v.e), Add(s[5], v.f), Add(s[6], v.g), Add(s[7], v.h) ]
  }

  function Compress(s: State, block: seq<Byte>): State
    requires |block| == 64
  {
    Feedforward(s, Rounds(Load(s), Schedule(BlockWords(block), 64), 64))
  }

  // ---- Sections 5.1.1 and 6.2: padding, and the hash of a message of any length ----

  function BigEndian64(n: nat): (bytes: seq<Byte>)
    ensures |bytes| == 8
  {
    [ (n / 0x100_0000_0000_0000 % 256) as Byte, (n / 0x1_0000_0000_0000 % 256) as Byte,
      (n / 0x100_0000_0000 % 256) as Byte, (n / 0x1_0000_0000 % 256) as Byte,
      (n / 0x100_0000 % 256) as Byte, (n / 0x1_0000 % 256) as Byte,
      (n / 0x100 % 256) as Byte, (n % 256) as Byte ]
  }

  function Zeros(n: nat): (z: seq<Byte>)
    ensures |z| == n
  {
    seq(n, _ => 0)
  }

  function PadZeros(n: nat): (zeros: nat)
    ensures (n + 1 + zeros + 8) % 64 == 0
    ensures zeros < 64
  {
    (119 - n % 64) % 64
  }

  /** The message, a one bit, the fewest zeros that fill the last block, and the bit length in 64 bits. */
  function Pad(msg: seq<Byte>): (padded: seq<Byte>)
    ensures |padded| % 64 == 0 && |padded| >= 64
  {
    msg + [0x80] + Zeros(PadZeros(|msg|)) + BigEndian64(8 * |msg|)
  }

  function HashBlocks(s: State, padded: seq<Byte>): State
    requires |padded| % 64 == 0
    decreases |padded|
  {
    if padded == [] then s else HashBlocks(Compress(s, padded[..64]), padded[64..])
  }

  function WordBytes(w: Word): (bytes: seq<Byte>)
    ensures |bytes| == 4
  {
    [ ((w >> 24) & 0xFF) as Byte, ((w >> 16) & 0xFF) as Byte, ((w >> 8) & 0xFF) as Byte, (w & 0xFF) as Byte ]
  }

  function StateBytes(s: State): (bytes: seq<Byte>)
    ensures |bytes| == 32
  {
    seq(32, i requires 0 <= i < 32 => WordBytes(s[i / 4])[i % 4])
  }

  function Sha256(msg: seq<Byte>): (digest: seq<Byte>)
    ensures |digest| == 32
  {
    StateBytes(HashBlocks(INITIAL, Pad(msg)))
  }
}
