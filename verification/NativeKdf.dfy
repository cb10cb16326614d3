/** The zero-stack key derivation the firmware runs on the tag reader's own microcontroller. */
module NativeKdf {
  import opened Numbers
  import opened Sha2
  import opened Hkdf

  // The compound functions as the firmware spells them, with its shift-and-or rotate macro.

  function Ror2Ror13Ror22(x: Word): (r: Word)
    ensures r == BigSigma0(x)
  {
    ((x >> 2) | (x << 30)) ^ ((x >> 13) | (x << 19)) ^ ((x >> 22) | (x << 10))
  }

  function Ror6Ror11Ror25(x: Word): (r: Word)
    ensures r == BigSigma1(x)
  {
    ((x >> 6) | (x << 26)) ^ ((x >> 11) | (x << 21)) ^ ((x >> 25) | (x << 7))
  }

  function Ror7Ror18Shr3(x: Word): (r: Word)
    ensures r == SmallSigma0(x)
  {
    ((x >> 7) | (x << 25)) ^ ((x >> 18) | (x << 14)) ^ (x >> 3)
  }

  function Ror17Ror19Shr10(x: Word): (r: Word)
    ensures r == SmallSigma1(x)
  {
    ((x >> 17) | (x << 15)) ^ ((x >> 19) | (x << 13)) ^ (x >> 10)
  }

  /** One round on the eight working variables, statement by statement. */
  method RoundStep(v: Working, k: Word, w: Word) returns (r: Working)
    ensures r == Round(v, k, w)
  {
    hide Add, Ch, Maj, Ror6Ror11Ror25, Ror2Ror13Ror22, BigSigma0, BigSigma1;
    var Working(a, b, c, d, e, f, g, h) := v;
    var s1 := Ror6Ror11Ror25(e);
    var ch := Ch(e, f, g);
    var t1 := Add(Add(Add(Add(h, s1), ch), k), w);
    var s0 := Ror2Ror13Ror22(a);
    var maj := Maj(a, b, c);
    var t2 := Add(s0, maj);
    h, g, f, e := g, f, e, Add(d, t1);
    d, c, b, a := c, b, a, Add(t1, t2);
    r := Working(a, b, c, d, e, f, g, h);
  }

  /** The schedule word, summed in the firmware's order: W[t-16], sigma0, W[t-7], sigma1. */
  method ScheduleStep(w16: Word, w15: Word, w7: Word, w2: Word) returns (w: Word)
    ensures w == Expand(w2, w7, w15, w16)
  {
    hide Add, Ror7Ror18Shr3, Ror17Ror19Shr10, SmallSigma0, SmallSigma1;
    var s0 := Ror7Ror18Shr3(w15);
    var s1 := Ror17Ror19Shr10(w2);
    w := Add(Add(Add(w16, s0), w7), s1);
    SumBackwards(w16, s0, w7, s1);
  }

  lemma SumBackwards(p: Word, q: Word, r: Word, s: Word)
    ensures Add(Add(Add(p, q), r), s) == Add(Add(Add(s, r), q), p)
  {
    hide Add;
    AddCommutes(Add(Add(p, q), r), s);
    AddCommutes(Add(p, q), r);
    AddAssociates(s, r, Add(p, q));
    AddCommutes(p, q);
    AddAssociates(Add(s, r), q, p);
  }

  /** The circular window m holds the last sixteen schedule words before index i, word t in cell t & 15. */
  ghost predicate Window(m: seq<Word>, w: seq<Word>, i: nat)
    requires |m| == 16 && |w| == 64 && 16 <= i <= 64
  {
    forall t :: i - 16 <= t < i ==> m[t % 16] == w[t]
  }

  lemma WindowAtStart(words: seq<Word>)
    requires |words| == 16
    ensures Window(words, Schedule(words, 64), 16)
  {
    hide Expand;
    SchedulePrefix(words, 16);
    assert Schedule(words, 16) == words;
    forall t | 0 <= t < 16
      ensures words[t % 16] == Schedule(words, 64)[t]
    {
      assert Schedule(words, 64)[..16][t] == words[t];
    }
  }

  lemma Cell(m: seq<Word>, w: seq<Word>, i: nat, t: nat)
    requires |m| == 16 && |w| == 64 && 16 <= i <= 64 && i - 16 <= t < i && Window(m, w, i)
    ensures m[t % 16] == w[t]
  {
  }

  lemma SameCells(i: nat)
    requires i >= 16
    ensures (i + 14) % 16 == (i - 2) % 16 && (i + 9) % 16 == (i - 7) % 16
    ensures (i + 1) % 16 == (i - 15) % 16 && i % 16 == (i - 16) % 16
  {
  }

  lemma NextWord(words: seq<Word>, m: seq<Word>, i: nat)
    requires |words| == 16 && |m| == 16 && 16 <= i < 64
    requires Window(m, Schedule(words, 64), i)
    ensures Expand(m[(i + 14) % 16], m[(i + 9) % 16], m[(i + 1) % 16], m[i % 16]) == Schedule(words, 64)[i]
  {
    hide Expand, Schedule, Window;
    var w := Schedule(words, 64);
    ScheduleAt(words, i);
    SameCells(i);
    Cell(m, w, i, i - 2);
    Cell(m, w, i, i - 7);
    Cell(m, w, i, i - 15);
    Cell(m, w, i, i - 16);
  }

  /**
   * The buffer holds the key of the sector in front of its old rest, or, for a sector past the first block of
   * the expansion, just what it held.
   */
  ghost predicate Derived(key: seq<Byte>, before: seq<Byte>, uid: seq<Byte>, letter: Byte, sector: nat)
    requires |key| == |before| >= 6
  {
    if sector <= 4 then key == SectorKey(uid, letter, sector) + before[6..] else key == before
  }

  /** The scratch record at a fixed address that every step of the derivation shares. */
  class Scratch {
    const state: array<Word>
    const m: array<Word>
    const block: array<Byte>
    const prk: array<Byte>
    const out: array<Byte>

    ghost predicate Valid() {
      && state.Length == 8 && m.Length == 16 && block.Length == 64 && prk.Length == 32 && out.Length == 32
      && state != m && block != prk && block != out && prk != out
    }

    constructor ()
      ensures Valid()
      ensures fresh(state) && fresh(m) && fresh(block) && fresh(prk) && fresh(out)
    {
      state := new Word[8];
      m := new Word[16];
      block := new Byte[64];
      prk := new Byte[32];
      out := new Byte[32];
    }

    /** The block as big-endian words, into the window. */
    method LoadBlock(data: array<Byte>)
      requires Valid() && data.Length >= 64
      modifies m
      ensures m[..] == BlockWords(data[..64])
    {
      var i, j := 0, 0;
      while i < 16
        invariant 0 <= i <= 16 && j == 4 * i
        invariant forall t :: 0 <= t < i ==> m[t] == WordAt(data[..64], 4 * t)
      {
        m[i] := WordAt(data[..64], j);
        i, j := i + 1, j + 4;
      }
    }

    /** Replace the oldest word of the window by W[i]. */
    method ExtendWindow(i: nat, ghost words: seq<Word>)
      requires Valid() && |words| == 16 && 16 <= i < 64
      requires Window(m[..], Schedule(words, 64), i)
      modifies m
      ensures Window(m[..], Schedule(words, 64), i + 1)
    {
      hide Expand, Schedule;
      NextWord(words, m[..], i);
      m[i % 16] := ScheduleStep(m[i % 16], m[(i + 1) % 16], m[(i + 9) % 16], m[(i + 14) % 16]);
    }

    /** Fold the 64 bytes of data into the state, with sixteen words of schedule instead of sixty-four. */
    method TransformBlock(data: array<Byte>)
      requires Valid() && data.Length >= 64
      modifies m, state
      ensures state[..] == Compress(old(state[..]), data[..64])
      ensures Window(m[..], Schedule(BlockWords(data[..64]), 64), 64)
    {
      hide Rounds, BlockWords, Feedforward, Schedule, Window;
      ghost var words := BlockWords(data[..64]);
      LoadBlock(data);
      WindowAtStart(words);
      var v := Load(state[..]);
      v := RunRounds(v, words);
      AddToState(v);
    }

    /** The sixty-four rounds, extending the window from round 16 on. */
    method RunRounds(v0: Working, ghost words: seq<Word>) returns (v: Working)
      requires Valid() && |words| == 16 && Window(m[..], Schedule(words, 64), 16)
      modifies m
      ensures v == Rounds(v0, Schedule(words, 64), 64)
      ensures Window(m[..], Schedule(words, 64), 64)
    {
      hide Round, Schedule;
      ghost var w := Schedule(words, 64);
      v := v0;
      var i := 0;
      while i < 64
        invariant 0 <= i <= 64
        invariant Window(m[..], w, if i < 16 then 16 else i)
        invariant v == Rounds(v0, w, i)
      {
        if i >= 16 {
          ExtendWindow(i, words);
        }
        v := RoundStep(v, K256(i), m[i % 16]);
        i := i + 1;
      }
    }

    method AddWord(i: nat, x: Word)
      requires Valid() && i < 8
      modifies state
      ensures state[..] == old(state[..])[i := Add(old(state[i]), x)]
    {
      hide Add;
      state[i] := Add(state[i], x);
    }

    /** The final addition of the working variables into the state. */
    method AddToState(v: Working)
      requires Valid()
      modifies state
      ensures state[..] == Feedforward(old(state[..]), v)
    {
      hide Add;
      AddWord(0, v.a);
      AddWord(1, v.b);
      AddWord(2, v.c);
      AddWord(3, v.d);
      AddWord(4, v.e);
      AddWord(5, v.f);
      AddWord(6, v.g);
      AddWord(7, v.h);
    }

    method ResetState()
      requires Valid()
      modifies state
      ensures state[..] == INITIAL
    {
      state[0], state[1], state[2], state[3] := 0x6a09e667, 0xbb67ae85, 0x3c6ef372, 0xa54ff53a;
      state[4], state[5], state[6], state[7] := 0x510e527f, 0x9b05688c, 0x1f83d9ab, 0x5be0cd19;
    }

    /** The key, zero-extended to a block, with every byte flipped by the pad byte. */
    method LoadKeyBlock(key: array<Byte>, keyLen: nat, pad: Byte)
      requires Valid() && keyLen <= key.Length && key != block
      modifies block
      ensures block[..] == XorPad(KeyBlock(key[..Min(keyLen, 64)]), pad)
    {
      hide XorPad, KeyBlock, Flip;
      ghost var used := key[..Min(keyLen, 64)];
      ghost var target := XorPad(KeyBlock(used), pad);
      for i := 0 to 64
        invariant forall t :: 0 <= t < i ==> block[t] == target[t]
      {
        PaddedKeyAt(used, pad, i);
        var k := if i < keyLen then key[i] else 0;
        block[i] := Flip(k, pad);
      }
    }

    /** memset(block, 0, 64), and the message to its front. */
    method CopyMessage(msg: array<Byte>, msgLen: nat)
      requires Valid() && msgLen <= msg.Length && msgLen <= 55 && msg != block
      modifies block
      ensures forall t :: 0 <= t < 64 ==> block[t] == if t < msgLen then msg[t] else 0
    {
      for i := 0 to 64
        invariant forall t :: 0 <= t < i ==> block[t] == 0
      {
        block[i] := 0;
      }
      for i := 0 to msgLen
        invariant forall t :: 0 <= t < 64 ==> block[t] == if t < i then msg[t] else 0
      {
        block[i] := msg[i];
      }
    }

    /** The second and last block of a message that follows one whole block. */
    method LoadLastBlock(msg: array<Byte>, msgLen: nat)
      requires Valid() && msgLen <= msg.Length && msgLen <= 55 && msg != block
      modifies block
      ensures block[..] == LastBlock(msg[..msgLen])
    {
      hide LastBlock;
      CopyMessage(msg, msgLen);
      block[msgLen] := 0x80;
      var totalBits := (64 + msgLen) * 8;
      block[62] := (totalBits / 256 % 256) as Byte;
      block[63] := (totalBits % 256) as Byte;
      IsLastBlock(block[..], msg[..msgLen]);
    }

    method StoreWord(dst: array<Byte>, at: nat, w: Word)
      requires at + 4 <= dst.Length
      modifies dst
      ensures forall t :: 0 <= t < dst.Length ==>
                dst[t] == if at <= t < at + 4 then WordBytes(w)[t - at] else old(dst[t])
    {
      hide WordBytes;
      var bytes := WordBytes(w);
      dst[at], dst[at + 1], dst[at + 2], dst[at + 3] := bytes[0], bytes[1], bytes[2], bytes[3];
    }

    method StoreState(dst: array<Byte>)
      requires Valid() && dst.Length >= 32
      modifies dst
      ensures dst[..32] == StateBytes(state[..])
      ensures dst[32..] == old(dst[32..])
    {
      hide WordBytes;
      for i := 0 to 8
        invariant forall t :: 0 <= t < 4 * i ==> dst[t] == StateBytes(state[..])[t]
        invariant forall t :: 32 <= t < dst.Length ==> dst[t] == old(dst[t])
      {
        StoreWord(dst, 4 * i, state[i]);
      }
    }

    /** Start a hash and absorb the key block. */
    method AbsorbKey(key: array<Byte>, keyLen: nat, pad: Byte)
      requires Valid() && keyLen <= key.Length && key != block
      modifies state, m, block
      ensures state[..] == Compress(INITIAL, XorPad(KeyBlock(key[..Min(keyLen, 64)]), pad))
    {
      hide Compress, XorPad, KeyBlock, Window;
      ResetState();
      LoadKeyBlock(key, keyLen, pad);
      assert block[..64] == block[..];
      TransformBlock(block);
    }

    /** Absorb the message with its padding. */
    method AbsorbMessage(msg: array<Byte>, msgLen: nat)
      requires Valid() && msgLen <= msg.Length && msgLen <= 55 && msg != block
      modifies state, m, block
      ensures state[..] == Compress(old(state[..]), LastBlock(msg[..msgLen]))
    {
      hide Compress, LastBlock, Window;
      LoadLastBlock(msg, msgLen);
      assert block[..64] == block[..];
      TransformBlock(block);
    }

    /** One of the two hashes inside an HMAC: two blocks, since the message is short. */
    method HashKeyed(key: array<Byte>, keyLen: nat, pad: Byte, msg: array<Byte>, msgLen: nat, dst: array<Byte>)
      requires Valid() && dst.Length >= 32
      requires keyLen <= key.Length && key != block
      requires msgLen <= msg.Length && msgLen <= 55 && msg != block
      modifies state, m, block, dst
      ensures dst[..32] == old(KeyedHash(key[..Min(keyLen, 64)], pad, msg[..msgLen]))
      ensures dst != block ==> dst[32..] == old(dst[32..])
    {
      hide Compress, XorPad, KeyBlock, LastBlock, StateBytes, Sha256;
      TwoBlockHash(XorPad(KeyBlock(key[..Min(keyLen, 64)]), pad), msg[..msgLen]);
      AbsorbKey(key, keyLen, pad);
      AbsorbMessage(msg, msgLen);
      StoreState(dst);
    }

    /** HMAC of a short message under a key of which at most one block is used. */
    method HmacShort(key: array<Byte>, keyLen: nat, msg: array<Byte>, msgLen: nat, dst: array<Byte>)
      requires Valid() && dst.Length >= 32
      requires keyLen <= key.Length && key !in {block, out}
      requires msgLen <= msg.Length && msgLen <= 55 && msg != block
      modifies state, m, block, out, dst
      ensures dst[..32] == old(Hmac(key[..Min(keyLen, 64)], msg[..msgLen]))
      ensures dst !in {block, out} ==> dst[32..] == old(dst[32..])
    {
      hide KeyedHash;
      HashKeyed(key, keyLen, 0x36, msg, msgLen, out);
      HashKeyed(key, keyLen, 0x5c, out, 32, dst);
    }

    /** The six key bytes of the sector, out of T(1), when they lie inside it. */
    method SliceKey(t1: array<Byte>, sector: nat, key: array<Byte>)
      requires t1.Length == 32 && key.Length >= 6 && key != t1
      modifies key
      ensures sector <= 4 ==> key[..6] == t1[6 * sector..6 * sector + 6] && key[6..] == old(key[6..])
      ensures sector > 4 ==> key[..] == old(key[..])
    {
      var from := if sector == 0 then 0 else if sector == 1 then 6 else if sector == 2 then 12
                  else if sector == 3 then 18 else if sector == 4 then 24 else 32;
      if from < 32 {
        for i := 0 to 6
          invariant key[..i] == t1[from..from + i]
          invariant key[6..] == old(key[6..])
        {
          key[i] := t1[from + i];
        }
      }
    }

    /** Expand one sector key, under the extracted key in prk. */
    method ExpandKey(letter: Byte, sector: nat, key: array<Byte>)
      requires Valid() && key.Length >= 6 && key !in {block, prk, out}
      modifies state, m, block, out, key
      ensures sector <= 4 ==>
                && key[..6] == Hmac(prk[..], Info(letter) + [1])[6 * sector..6 * sector + 6]
                && key[6..] == old(key[6..])
      ensures sector > 4 ==> key[..] == old(key[..])
    {
      hide Hmac;
      var info := new Byte[8] [0x52, 0x46, 0x49, 0x44, 0x2d, letter, 0x00, 0x01];
      var t1 := new Byte[32];
      HmacShort(prk, 32, info, 8, t1);
      assert prk[..32] == prk[..] && info[..8] == Info(letter) + [1] && t1[..32] == t1[..];
      SliceKey(t1, sector, key);
    }

    /** The extracted key of a UID, into prk. */
    method Extract(uid: array<Byte>)
      requires Valid() && uid.Length >= 4 && uid != block
      modifies state, m, block, prk, out
      ensures prk[..] == old(Hmac(MASTER, uid[..4]))
    {
      hide Hmac;
      var salt := new Byte[16] [0x9a, 0x75, 0x9c, 0xf2, 0xc4, 0xf7, 0xca, 0xff,
                                0x22, 0x2c, 0xb9, 0x76, 0x9b, 0x41, 0xbc, 0x96];
      HmacShort(salt, 16, uid, 4, prk);
      assert salt[..16] == MASTER && prk[..] == prk[..32];
    }

    /** The key of a sector, when prk holds the extracted key of the UID. */
    method DeriveKey(letter: Byte, sector: nat, key: array<Byte>, ghost uid: seq<Byte>)
      requires Valid() && key.Length >= 6 && key !in {block, prk, out} && prk[..] == Hmac(MASTER, uid)
      modifies state, m, block, out, key
      ensures Derived(key[..], old(key[..]), uid, letter, sector)
    {
      hide Hmac, SectorKey;
      if sector <= 4 {
        EarlySectorKey(uid, letter, sector);
      }
      ExpandKey(letter, sector, key);
      assert sector <= 4 ==> key[..][..6] == key[..6] && key[..][6..] == key[6..];
    }

    /** Derive the A and B keys of a sector from the four UID bytes; a null key is not wanted. */
    method BambuKdf(uid: array<Byte>, sector: nat, keyA: array?<Byte>, keyB: array?<Byte>)
      requires Valid() && uid.Length >= 4 && uid != block
      requires keyA != null ==> keyA.Length >= 6 && keyA !in {block, prk, out}
      requires keyB != null ==> keyB.Length >= 6 && keyB !in {block, prk, out} && keyB != keyA
      modifies state, m, block, prk, out
      modifies if keyA == null then {} else {keyA}
      modifies if keyB == null then {} else {keyB}
      ensures keyA != null ==> Derived(keyA[..], old(keyA[..]), old(uid[..4]), KEY_A, sector)
      ensures keyB != null ==> Derived(keyB[..], old(keyB[..]), old(uid[..4]), KEY_B, sector)
    {
      hide Hmac, Derived;
      ghost var id := uid[..4];
      Extract(uid);
      if keyA != null {
        DeriveKey(KEY_A, sector, keyA, id);
      }
      if keyB != null {
        DeriveKey(KEY_B, sector, keyB, id);
      }
    }
  }
}
