/** HMAC-SHA256 (RFC 2104) and HKDF (RFC 5869), and the host tool that derives a tag's sector keys with them. */
module Hkdf {
  import opened Sha2
  import opened Wrappers

  // ---- Section 2 of RFC 2104, with a block of 64 bytes ----

  /** The key brought to block length: hashed first if longer, then zero-extended. */
  function KeyBlock(key: seq<Byte>): (block: seq<Byte>)
    ensures |block| == 64
  {
    var short := if |key| > 64 then Sha256(key) else key;
    short + Zeros(64 - |short|)
  }

  function XorPad(block: seq<Byte>, pad: Byte): (padded: seq<Byte>)
    ensures |padded| == |block|
  {
    seq(|block|, i requires 0 <= i < |block| => Flip(block[i], pad))
  }

  function Flip(b: Byte, pad: Byte): Byte { b ^ pad }

  /** A key of at most a block, padded, byte by byte. */
  lemma PaddedKeyAt(key: seq<Byte>, pad: Byte, i: nat)
    requires |key| <= 64 && i < 64
    ensures XorPad(KeyBlock(key), pad)[i] == Flip(if i < |key| then key[i] else 0, pad)
  {
    hide Flip, Sha256;
  }

  function Hmac(key: seq<Byte>, msg: seq<Byte>): (mac: seq<Byte>)
    ensures |mac| == 32
  {
    KeyedHash(key, 0x5c, KeyedHash(key, 0x36, msg))
  }

  /** The padded tail of a message whose first block was already compressed. */
  function LastBlock(msg: seq<Byte>): (block: seq<Byte>)
    requires |msg| <= 55
    ensures |block| == 64
  {
    msg + [0x80] + Zeros(55 - |msg|) + BigEndian64(8 * (64 + |msg|))
  }

  lemma ShortLength(n: nat)
    requires n < 0x1_0000
    ensures BigEndian64(n) == [0, 0, 0, 0, 0, 0, (n / 256 % 256) as Byte, (n % 256) as Byte]
  {
    assert n / 0x1_0000 == 0 && n / 0x100_0000 == 0 && n / 0x1_0000_0000 == 0;
    assert n / 0x100_0000_0000 == 0 && n / 0x1_0000_0000_0000 == 0 && n / 0x100_0000_0000_0000 == 0;
  }

  /** The last block, byte by byte. */
  lemma IsLastBlock(block: seq<Byte>, msg: seq<Byte>)
    requires |block| == 64 && |msg| <= 55
    requires (forall t :: 0 <= t < |msg| ==> block[t] == msg[t]) && block[|msg|] == 0x80
    requires forall t :: |msg| < t < 62 ==> block[t] == 0
    requires var bits := 8 * (64 + |msg|); block[62] == (bits / 256 % 256) as Byte && block[63] == (bits % 256) as Byte
    ensures block == LastBlock(msg)
  {
    hide BigEndian64;
    ShortLength(8 * (64 + |msg|));
  }

  /** Hashing one whole block and a message that fits the next is two compressions. */
  lemma TwoBlockHash(first: seq<Byte>, msg: seq<Byte>)
    requires |first| == 64 && |msg| <= 55
    ensures Sha256(first + msg) == StateBytes(Compress(Compress(INITIAL, first), LastBlock(msg)))
  {
    hide Compress, StateBytes, BigEndian64;
    var padded := Pad(first + msg);
    assert padded == first + LastBlock(msg);
    assert padded[..64] == first && padded[64..] == LastBlock(msg);
    var s := Compress(INITIAL, first);
    assert HashBlocks(INITIAL, padded) == HashBlocks(s, LastBlock(msg));
    assert LastBlock(msg)[..64] == LastBlock(msg) && LastBlock(msg)[64..] == [];
    assert HashBlocks(s, LastBlock(msg)) == Compress(s, LastBlock(msg));
  }

  /** The key, padded and hashed in front of the message: each of the two hashes inside an HMAC. */
  function KeyedHash(key: seq<Byte>, pad: Byte, msg: seq<Byte>): (digest: seq<Byte>)
    ensures |digest| == 32
  {
    Sha256(XorPad(KeyBlock(key), pad) + msg)
  }

  // ---- RFC 5869 ----

  /** T(n) of section 2.3: each block keys off the one before it. */
  function ExpandBlock(prk: seq<Byte>, info: seq<Byte>, n: nat): (t: seq<Byte>)
    requires n <= 255
    ensures |t| == if n == 0 then 0 else 32
  {
    if n == 0 then [] else Hmac(prk, ExpandBlock(prk, info, n - 1) + info + [n as Byte])
  }

  /** T(1) | T(2) | ... | T(n) */
  function ExpandBlocks(prk: seq<Byte>, info: seq<Byte>, n: nat): (okm: seq<Byte>)
    requires n <= 255
    ensures |okm| == 32 * n
  {
    if n == 0 then [] else ExpandBlocks(prk, info, n - 1) + ExpandBlock(prk, info, n)
  }

  const LONGEST: nat := 255 * 32

  /** The first length bytes of the blocks, under the key extracted from salt and input (section 2.2). */
  function Derive(ikm: seq<Byte>, salt: seq<Byte>, info: seq<Byte>, length: nat): (okm: seq<Byte>)
    requires length <= LONGEST
    ensures |okm| == length
  {
    ExpandBlocks(Hmac(salt, ikm), info, (length + 31) / 32)[..length]
  }

  /** The host's derivation; None is the error of a counter that no longer fits its byte. */
  method HkdfSha256(ikm: seq<Byte>, salt: seq<Byte>, info: seq<Byte>, length: int) returns (r: Option<seq<Byte>>)
    ensures length <= 0 ==> r == Some([])
    ensures 0 < length <= LONGEST ==> r == Some(Derive(ikm, salt, info, length))
    ensures length > LONGEST ==> r == None
  {
    hide Hmac;
    var prk := Hmac(salt, ikm);
    var out, t, counter := [], [], 1;
    while |out| < length
      invariant 1 <= counter <= 256 && |out| == 32 * (counter - 1)
      invariant counter > 1 ==> |out| < length + 32
      invariant t == ExpandBlock(prk, info, counter - 1)
      invariant out == ExpandBlocks(prk, info, counter - 1)
      decreases length - |out|
    {
      if counter > 255 {
        return None;
      }
      t := Hmac(prk, t + info + [counter as Byte]);
      out := out + t;
      counter := counter + 1;
    }
    r := Some(if length <= 0 then [] else out[..length]);
  }

  // ---- The sector keys of a Bambu spool tag ----

  const MASTER: seq<Byte> := [
    0x9a, 0x75, 0x9c, 0xf2, 0xc4, 0xf7, 0xca, 0xff, 0x22, 0x2c, 0xb9, 0x76, 0x9b, 0x41, 0xbc, 0x96
  ]

  /** "RFID-A" or "RFID-B" with its terminating NUL. */
  function Info(letter: Byte): seq<Byte> { [0x52, 0x46, 0x49, 0x44, 0x2d, letter, 0x00] }

  const KEY_A: Byte := 0x41
  const KEY_B: Byte := 0x42

  function SectorKey(uid: seq<Byte>, letter: Byte, sector: nat): (key: seq<Byte>)
    requires sector < 16
    ensures |key| == 6
  {
    Derive(uid, MASTER, Info(letter), 96)[6 * sector..6 * sector + 6]
  }

  /** The sixteen A keys of a tag, as the host tool lists them. */
  method KeysForUid(uid: seq<Byte>) returns (keys: seq<seq<Byte>>)
    ensures |keys| == 16
    ensures forall i :: 0 <= i < 16 ==> keys[i] == SectorKey(uid, KEY_A, i)
  {
    hide Derive;
    var material := HkdfSha256(uid, MASTER, Info(KEY_A), 6 * 16);
    keys := [];
    for i := 0 to 16
      invariant |keys| == i
      invariant forall j :: 0 <= j < i ==> keys[j] == SectorKey(uid, KEY_A, j)
    {
      keys := keys + [material.value[i * 6..(i + 1) * 6]];
    }
  }

  /** The first five sectors lie within T(1), one HMAC away from the extracted key. */
  lemma EarlySectorKey(uid: seq<Byte>, letter: Byte, sector: nat)
    requires sector <= 4
    ensures SectorKey(uid, letter, sector)
         == Hmac(Hmac(MASTER, uid), Info(letter) + [1])[6 * sector..6 * sector + 6]
  {
    hide Hmac;
    var prk, info := Hmac(MASTER, uid), Info(letter);
    assert ExpandBlock(prk, info, 0) + info + [1 as Byte] == info + [1];
    assert ExpandBlock(prk, info, 1) == Hmac(prk, info + [1]);
    assert ExpandBlocks(prk, info, 1) == ExpandBlock(prk, info, 1);
    var two := ExpandBlocks(prk, info, 2);
    assert two[..32] == ExpandBlock(prk, info, 1);
    assert ExpandBlocks(prk, info, 3) == two + ExpandBlock(prk, info, 3);
    var okm := ExpandBlocks(prk, info, 3);
    assert okm[..32] == two[..32] == Hmac(prk, info + [1]);
    assert okm[..96] == okm && (96 + 31) / 32 == 3;
    assert okm[6 * sector..6 * sector + 6] == okm[..32][6 * sector..6 * sector + 6];
  }
}
