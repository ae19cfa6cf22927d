/**
 SHA-256 as FIPS 180-4 defines it and HMAC as RFC 2104 defines it, written recursively over
 sequences. Words are integers below 2^32 and addition is modulo 2^32 (FIPS 180-4, section 3.2).
 */
module Fips180 {
  import opened JsNumber

  // Section 3.2: operations on 32-bit words.

  function AndWord(x: Word, y: Word): Word {
    BitsBound(x, y, 32);
    Pow2Of32();
    AndBits(x, y, 32)
  }

  function OrWord(x: Word, y: Word): Word {
    BitsBound(x, y, 32);
    Pow2Of32();
    OrBits(x, y, 32)
  }

  function XorWord(x: Word, y: Word): Word {
    BitsBound(x, y, 32);
    Pow2Of32();
    XorBits(x, y, 32)
  }

  function NotWord(x: Word): Word {
    TWO_32 - 1 - x
  }

  function Plus(x: Word, y: Word): Word {
    (x + y) % TWO_32
  }

  function Shr(x: Word, n: nat): Word {
    DivBound(x, Pow2(n));
    x / Pow2(n)
  }

  function Rotr(x: Word, n: nat): Word
    requires n <= 32
  {
    OrWord(Shr(x, n), (x * Pow2(32 - n)) % TWO_32)
  }

  // Section 4.1.2: the six logical functions.

  function Ch(x: Word, y: Word, z: Word): Word {
    XorWord(AndWord(x, y), AndWord(NotWord(x), z))
  }

  function Maj(x: Word, y: Word, z: Word): Word {
    XorWord(XorWord(AndWord(x, y), AndWord(x, z)), AndWord(y, z))
  }

  function BigSigma0(x: Word): Word {
    XorWord(XorWord(Rotr(x, 2), Rotr(x, 13)), Rotr(x, 22))
  }

  function BigSigma1(x: Word): Word {
    XorWord(XorWord(Rotr(x, 6), Rotr(x, 11)), Rotr(x, 25))
  }

  function SmallSigma0(x: Word): Word {
    XorWord(XorWord(Rotr(x, 7), Rotr(x, 18)), Shr(x, 3))
  }

  function SmallSigma1(x: Word): Word {
    XorWord(XorWord(Rotr(x, 17), Rotr(x, 19)), Shr(x, 10))
  }

  // Section 5.1.1: padding. For a message of whole bytes the bit 1 and the k zero bits that follow
  // it are the byte 0x80 and `ZeroBytes` zero bytes, with k = 8 * ZeroBytes + 7.

  function ZeroBytes(length: nat): nat {
    (55 - length) % 64
  }

  /** k is the smallest non-negative solution of l + 1 + k = 448 (mod 512). */
  lemma ZeroBitsAreMinimal(length: nat, k: nat)
    requires (8 * length + 1 + k) % 512 == 448
    ensures (8 * length + 1 + (8 * ZeroBytes(length) + 7)) % 512 == 448
    ensures 8 * ZeroBytes(length) + 7 <= k
  {
    var z := ZeroBytes(length);
    assert (length + z) % 64 == 55;
    var q := (length + z) / 64;
    assert 8 * length + 8 * z + 8 == 512 * q + 448;
    var p := (8 * length + 1 + k) / 512;
    assert 8 * z + 7 - k == 512 * (q - p);
  }

  function Zeros(n: nat): (r: seq<Byte>)
    ensures |r| == n
  {
    seq(n, _ => 0)
  }

  /** The `n`-byte big-endian representation of `x` modulo 256^n. */
  function BigEndian(x: nat, n: nat): (r: seq<Byte>)
    ensures |r| == n
  {
    if n == 0 then [] else BigEndian(x / 256, n - 1) + [x % 256]
  }

  function Pad(message: seq<Byte>): seq<Byte> {
    message + [0x80] + Zeros(ZeroBytes(|message|)) + BigEndian(8 * |message|, 8)
  }

  lemma PadLength(message: seq<Byte>)
    ensures |Pad(message)| == 64 * ((|message| + 8) / 64 + 1)
  {
    ZeroBytesFill(|message|);
  }

  lemma ZeroBytesFill(length: nat)
    ensures length + 9 + ZeroBytes(length) == 64 * ((length + 8) / 64 + 1)
  {
    var q, r := (length + 8) / 64, (length + 8) % 64;
    assert 55 - length == 63 - r - 64 * q;
  }

  // Section 5.2.1: parsing into 512-bit blocks of sixteen words.

  function WordAt(bytes: seq<Byte>, at: nat): Word
    requires at + 4 <= |bytes|
  {
    var b0: int, b1: int, b2: int, b3: int := bytes[at], bytes[at + 1], bytes[at + 2], bytes[at + 3];
    b0 * 0x100_0000 + b1 * 0x1_0000 + b2 * 0x100 + b3
  }

  type Block = s: seq<Word> | |s| == 16 witness [0, 0, 0, 0, 0, 0, 0, 0, 0, 0, 0, 0, 0, 0, 0, 0]

  function BlockAt(bytes: seq<Byte>, offset: nat): Block
    requires offset + 64 <= |bytes|
  {
    seq(16, i requires 0 <= i < 16 => WordAt(bytes, offset + 4 * i))
  }

  // Section 5.3.3 and section 4.2.2: initial hash value and constants.

  const H0: seq<Word> := [
    0x6a09e667, 0xbb67ae85, 0x3c6ef372, 0xa54ff53a, 0x510e527f, 0x9b05688c, 0x1f83d9ab, 0x5be0cd19
  ]

  const K_ROWS: seq<seq<Word>> := [
    [0x428a2f98, 0x71374491, 0xb5c0fbcf, 0xe9b5dba5, 0x3956c25b, 0x59f111f1, 0x923f82a4, 0xab1c5ed5],
    [0xd807aa98, 0x12835b01, 0x243185be, 0x550c7dc3, 0x72be5d74, 0x80deb1fe, 0x9bdc06a7, 0xc19bf174],
    [0xe49b69c1, 0xefbe4786, 0x0fc19dc6, 0x240ca1cc, 0x2de92c6f, 0x4a7484aa, 0x5cb0a9dc, 0x76f988da],
    [0x983e5152, 0xa831c66d, 0xb00327c8, 0xbf597fc7, 0xc6e00bf3, 0xd5a79147, 0x06ca6351, 0x14292967],
    [0x27b70a85, 0x2e1b2138, 0x4d2c6dfc, 0x53380d13, 0x650a7354, 0x766a0abb, 0x81c2c92e, 0x92722c85],
    [0xa2bfe8a1, 0xa81a664b, 0xc24b8b70, 0xc76c51a3, 0xd192e819, 0xd6990624, 0xf40e3585, 0x106aa070],
    [0x19a4c116, 0x1e376c08, 0x2748774c, 0x34b0bcb5, 0x391c0cb3, 0x4ed8aa4a, 0x5b9cca4f, 0x682e6ff3],
    [0x748f82ee, 0x78a5636f, 0x84c87814, 0x8cc70208, 0x90befffa, 0xa4506ceb, 0xbef9a3f7, 0xc67178f2]
  ]

  function K(t: nat): Word
    requires t < 64
  {
    K_ROWS[t / 8][t % 8]
  }

  // Section 6.2.2: hash computation.

  function Schedule(block: Block, t: nat): Word
    requires t < 64
  {
    if t < 16 then block[t]
    else Plus(Plus(Plus(SmallSigma1(Schedule(block, t - 2)), Schedule(block, t - 7)),
                   SmallSigma0(Schedule(block, t - 15))), Schedule(block, t - 16))
  }

  datatype Variables = Variables(a: Word, b: Word, c: Word, d: Word, e: Word, f: Word, g: Word, h: Word)

  function T1(v: Variables, k: Word, w: Word): Word {
    Plus(Plus(Plus(Plus(v.h, BigSigma1(v.e)), Ch(v.e, v.f, v.g)), k), w)
  }

  function T2(v: Variables): Word {
    Plus(BigSigma0(v.a), Maj(v.a, v.b, v.c))
  }

  function Round(v: Variables, k: Word, w: Word): Variables {
    Variables(Plus(T1(v, k, w), T2(v)), v.a, v.b, v.c, Plus(v.d, T1(v, k, w)), v.e, v.f, v.g)
  }

  function Rounds(v: Variables, block: Block, t: nat): Variables
    requires t <= 64
  {
    if t == 0 then v else Round(Rounds(v, block, t - 1), K(t - 1), Schedule(block, t - 1))
  }

  type HashValue = s: seq<Word> | |s| == 8 witness [0, 0, 0, 0, 0, 0, 0, 0]

  function Working(h: HashValue): Variables {
    Variables(h[0], h[1], h[2], h[3], h[4], h[5], h[6], h[7])
  }

  function Intermediate(h: HashValue, v: Variables): HashValue {
    [Plus(h[0], v.a), Plus(h[1], v.b), Plus(h[2], v.c), Plus(h[3], v.d),
     Plus(h[4], v.e), Plus(h[5], v.f), Plus(h[6], v.g), Plus(h[7], v.h)]
  }

  function Compress(h: HashValue, block: Block): HashValue {
    Intermediate(h, Rounds(Working(h), block, 64))
  }

  /** The hash value after the first `n` blocks. */
  function HashBlocks(padded: seq<Byte>, n: nat): HashValue
    requires 64 * n <= |padded|
  {
    if n == 0 then H0 else Compress(HashBlocks(padded, n - 1), BlockAt(padded, 64 * (n - 1)))
  }

  function WordsToBytes(words: seq<Word>): (r: seq<Byte>)
    ensures |r| == 4 * |words|
  {
    if words == [] then []
    else WordsToBytes(words[..|words| - 1]) + BigEndian(words[|words| - 1], 4)
  }

  function Sha256(message: seq<Byte>): (digest: seq<Byte>)
    ensures |digest| == 32
  {
    PadLength(message);
    WordsToBytes(HashBlocks(Pad(message), |Pad(message)| / 64))
  }

  // RFC 2104, section 2, with H = SHA-256, B = 64 and L = 32.

  function XorBytes(s: seq<Byte>, mask: Byte): (r: seq<Byte>)
    ensures |r| == |s|
  {
    if s == [] then [] else [XorByte(s[0], mask)] + XorBytes(s[1..], mask)
  }

  function XorByte(x: Byte, y: Byte): Byte {
    BitsBound(x, y, 8);
    Pow2Of8();
    XorBits(x, y, 8)
  }

  function HmacKey(key: seq<Byte>): (r: seq<Byte>)
    ensures |r| == 64
  {
    var k := if |key| > 64 then Sha256(key) else key;
    k + Zeros(64 - |k|)
  }

  function HmacSha256(key: seq<Byte>, text: seq<Byte>): seq<Byte> {
    Sha256(XorBytes(HmacKey(key), 0x5c) + Sha256(XorBytes(HmacKey(key), 0x36) + text))
  }
}
