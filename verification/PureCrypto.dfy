/**
 The dashboard's self-contained SHA-256 and HMAC: loops over typed arrays with ECMAScript number
 semantics, refined to the standards.

 A typed array is an `array`, a DataView on its buffer is that same array, and the RangeError that
 `new Uint8Array` and `set` raise is the second constructor of `Result`.
 */
module PureCrypto {
  import opened JsNumber
  import Fips180

  datatype Result<+T> = Ok(value: T) | RangeError

  const BLOCK := 64

  // ── Expressions of the source, and what they compute on words ─────────────

  /** `((x >>> n) | (x << (32 - n))) >>> 0` */
  function Rotr(x: Word, n: nat): (r: Word)
    requires 0 < n < 32
    ensures r == Fips180.Rotr(x, n)
  {
    UnsignedOr(ShiftRightZero(x, n), ShiftLeft(x, 32 - n));
    ShiftLeftWord(x, 32 - n);
    ShiftedDown(x, n);
    Reduce(Or(ShiftRightZero(x, n), ShiftLeft(x, 32 - n)))
  }

  lemma ShiftedDown(x: Word, n: nat)
    ensures ToUint32(ShiftRightZero(x, n)) == ShiftRightZero(x, n) == Fips180.Shr(x, n)
  {
    DivBound(x, Pow2(n));
  }

  lemma ShiftLeftWord(x: Word, n: nat)
    ensures ToUint32(ShiftLeft(x, n)) == (x * Pow2(n)) % TWO_32
  {
    var p: int := Pow2(n);
    var s := ToInt32(x);
    if s != x {
      assert s * p == x * p + TWO_32 * -p by { Distribute(x, TWO_32, p); }
      DropMultiple(x * p, -p);
    }
  }

  lemma Distribute(x: int, y: int, p: int)
    ensures (x - y) * p == x * p - y * p
  {
  }

  lemma DropMultiple(x: int, k: int)
    ensures (x + TWO_32 * k) % TWO_32 == x % TWO_32
  {
  }

  /** `(x ^ y ^ z) >>> 0` */
  function Xor3(x: Word, y: Word, z: Word): (r: Word)
    ensures r == Fips180.XorWord(Fips180.XorWord(x, y), z)
  {
    Xor3Word(x, y, z);
    Reduce(Xor(Xor(x, y), z))
  }

  lemma Xor3Word(x: Word, y: Word, z: Word)
    ensures Xor(Xor(x, y), z) % TWO_32 == Fips180.XorWord(Fips180.XorWord(x, y), z)
  {
    hide XorBits, Xor;
    UnsignedXor(x, y);
    UnsignedXor(Xor(x, y), z);
  }

  function SmallSigma0(x: Word): (r: Word)
    ensures r == Fips180.SmallSigma0(x)
  {
    ShiftedDown(x, 3);
    Xor3(Rotr(x, 7), Rotr(x, 18), ShiftRightZero(x, 3))
  }

  function SmallSigma1(x: Word): (r: Word)
    ensures r == Fips180.SmallSigma1(x)
  {
    ShiftedDown(x, 10);
    Xor3(Rotr(x, 17), Rotr(x, 19), ShiftRightZero(x, 10))
  }

  function BigSigma0(x: Word): (r: Word)
    ensures r == Fips180.BigSigma0(x)
  {
    Xor3(Rotr(x, 2), Rotr(x, 13), Rotr(x, 22))
  }

  function BigSigma1(x: Word): (r: Word)
    ensures r == Fips180.BigSigma1(x)
  {
    Xor3(Rotr(x, 6), Rotr(x, 11), Rotr(x, 25))
  }

  /** `((e & f) ^ (~e & g)) >>> 0` */
  function Ch(e: Word, f: Word, g: Word): (r: Word)
    ensures r == Fips180.Ch(e, f, g)
  {
    ChWord(e, f, g);
    Reduce(Xor(And(e, f), And(Not(e), g)))
  }

  lemma ChWord(e: Word, f: Word, g: Word)
    ensures Xor(And(e, f), And(Not(e), g)) % TWO_32 == Fips180.Ch(e, f, g)
  {
    hide AndBits, OrBits, XorBits, And, Xor, Not;
    UnsignedAnd(e, f);
    UnsignedNot(e);
    UnsignedAnd(Not(e), g);
    UnsignedXor(And(e, f), And(Not(e), g));
  }

  /** `((a & b) ^ (a & c) ^ (b & c)) >>> 0` */
  function Maj(a: Word, b: Word, c: Word): (r: Word)
    ensures r == Fips180.Maj(a, b, c)
  {
    MajWord(a, b, c);
    Reduce(Xor(Xor(And(a, b), And(a, c)), And(b, c)))
  }

  lemma MajWord(a: Word, b: Word, c: Word)
    ensures Xor(Xor(And(a, b), And(a, c)), And(b, c)) % TWO_32 == Fips180.Maj(a, b, c)
  {
    hide AndBits, XorBits, And, Xor;
    UnsignedAnd(a, b);
    UnsignedAnd(a, c);
    UnsignedAnd(b, c);
    UnsignedXor(And(a, b), And(a, c));
    UnsignedXor(Xor(And(a, b), And(a, c)), And(b, c));
  }

  // ── Typed-array access ─────────────────────────────────────────────────────

  /** `view.setUint32(at, value, false)` */
  method SetUint32(view: array<Byte>, at: nat, value: int)
    requires at + 4 <= view.Length
    modifies view
    ensures view[..] == old(view[..at]) + Fips180.BigEndian(ToUint32(value), 4) + old(view[at + 4..])
  {
    var u: int := ToUint32(value);
    view[at] := u / 0x100_0000;
    view[at + 1] := u / 0x1_0000 % 256;
    view[at + 2] := u / 0x100 % 256;
    view[at + 3] := u % 256;
    BigEndianWord(u);
  }

  lemma BigEndianWord(u: Word)
    ensures Fips180.BigEndian(u, 4) == [u / 0x100_0000, u / 0x1_0000 % 256, u / 0x100 % 256, u % 256]
  {
    assert u / 256 / 256 == u / 0x1_0000;
    assert u / 256 / 256 / 256 == u / 0x100_0000;
    assert Fips180.BigEndian(u / 0x100_0000, 1) == [u / 0x100_0000];
    assert Fips180.BigEndian(u / 0x1_0000, 2) == [u / 0x100_0000, u / 0x1_0000 % 256];
    assert Fips180.BigEndian(u / 0x100, 3) == [u / 0x100_0000, u / 0x1_0000 % 256, u / 0x100 % 256];
  }

  lemma BigEndianSplit(x: nat, n: nat)
    requires n >= 4
    ensures Fips180.BigEndian(x, n) == Fips180.BigEndian(x / TWO_32, n - 4) + Fips180.BigEndian(ToUint32(x), 4)
  {
    var u: int := ToUint32(x);
    BigEndianWord(u);
    var x1, x2, x3 := x / 256, x / 0x1_0000, x / 0x100_0000;
    assert x1 / 256 == x2 && x2 / 256 == x3 && x3 / 256 == x / TWO_32;
    assert Fips180.BigEndian(x, n) == Fips180.BigEndian(x1, n - 1) + [x % 256];
    assert Fips180.BigEndian(x1, n - 1) == Fips180.BigEndian(x2, n - 2) + [x1 % 256];
    assert Fips180.BigEndian(x2, n - 2) == Fips180.BigEndian(x3, n - 3) + [x2 % 256];
    assert Fips180.BigEndian(x3, n - 3) == Fips180.BigEndian(x / TWO_32, n - 4) + [x3 % 256];
    WordBytes(x);
  }

  /** Reducing modulo 2^32 keeps the last four bytes. */
  lemma WordBytes(x: nat)
    ensures x % TWO_32 / 0x100_0000 == x / 0x100_0000 % 256
    ensures x % TWO_32 / 0x1_0000 % 256 == x / 0x1_0000 % 256
    ensures x % TWO_32 / 0x100 % 256 == x / 256 % 256
    ensures x % TWO_32 % 256 == x % 256
  {
    var u, q := x % TWO_32, x / TWO_32;
    DivisionIs(x, 0x100_0000, 256 * q + u / 0x100_0000, u % 0x100_0000);
    DivisionIs(x, 0x1_0000, 0x1_0000 * q + u / 0x1_0000, u % 0x1_0000);
    DivisionIs(x, 0x100, 0x100_0000 * q + u / 0x100, u % 0x100);
  }

  // ── sha256 ─────────────────────────────────────────────────────────────────

  /** Padding: the buffer is filled in place and equals the padded message of section 5.1.1. */
  method PadMessage(bytes: seq<Byte>) returns (withPadding: array<Byte>)
    requires |bytes| < TWO_31 - 72
    ensures fresh(withPadding)
    ensures withPadding[..] == Fips180.Pad(bytes)
  {
    hide Fips180.BigEndian, Fips180.ZeroBytes, Fips180.Zeros, PaddedLength;
    withPadding := MarkEnd(bytes);
    ghost var head := bytes + [0x80] + Fips180.Zeros(Fips180.ZeroBytes(|bytes|));
    var bitLength := Times(|bytes|, 8);
    var at := withPadding.Length - 8;
    WriteWord(withPadding, at, bitLength / TWO_32, head, Fips180.Zeros(4), Fips180.Zeros(4));
    ghost var high := Fips180.BigEndian(ToUint32(bitLength / TWO_32), 4);
    WriteWord(withPadding, at + 4, Reduce(bitLength), head + high, Fips180.Zeros(4), []);
    BigEndianSplit(bitLength, 8);
    assert Fips180.Pad(bytes) == head + (high + Fips180.BigEndian(ToUint32(bitLength), 4));
  }

  /** `setUint32` on a buffer whose contents are known as before, four bytes, and after. */
  method WriteWord(view: array<Byte>, at: nat, value: int, ghost before: seq<Byte>, ghost four: seq<Byte>, ghost after: seq<Byte>)
    requires |before| == at && |four| == 4 && view[..] == before + four + after
    modifies view
    ensures view[..] == before + Fips180.BigEndian(ToUint32(value), 4) + after
  {
    hide Fips180.BigEndian;
    assert view[..at] == before && view[at + 4..] == after;
    SetUint32(view, at, value);
  }

  /** Up to the 0x80 marker; everything after it is still zero. */
  method MarkEnd(bytes: seq<Byte>) returns (withPadding: array<Byte>)
    requires |bytes| < TWO_31 - 72
    ensures fresh(withPadding)
    ensures withPadding[..] == bytes + [0x80] + Fips180.Zeros(Fips180.ZeroBytes(|bytes|)) + Fips180.Zeros(4) + Fips180.Zeros(4)
  {
    hide Fips180.ZeroBytes, PaddedLength;
    var length := |bytes|;
    PaddedLengthExact(length);
    Fips180.ZeroBytesFill(length);
    withPadding := new Byte[PaddedLength(length)](_ => 0);
    SetBytes(withPadding, bytes, 0);
    withPadding[length] := 0x80;
  }

  /** The message schedule of one block. */
  method FillSchedule(view: array<Byte>, offset: nat, w: array<Word>)
    requires offset + 64 <= view.Length && w.Length == 64 && view as object != w
    modifies w
    ensures forall t :: 0 <= t < 64 ==> w[t] == Fips180.Schedule(Fips180.BlockAt(view[..], offset), t)
  {
    hide Fips180.SmallSigma0, Fips180.SmallSigma1, SmallSigma0, SmallSigma1, Reduce;
    ghost var block := Fips180.BlockAt(view[..], offset);
    for i := 0 to 16
      invariant forall t :: 0 <= t < i ==> w[t] == Fips180.Schedule(block, t)
    {
      w[i] := Fips180.WordAt(view[..], offset + i * 4);
    }
    for i := 16 to 64
      invariant forall t :: 0 <= t < i ==> w[t] == Fips180.Schedule(block, t)
    {
      var s0, s1 := SmallSigma0(w[i - 15]), SmallSigma1(w[i - 2]);
      var sum := Reduce(Add(Add(Add(w[i - 16], s0), w[i - 7]), s1));
      ScheduleSum(s1, w[i - 7], s0, w[i - 16]);
      w[i] := sum;
    }
  }

  lemma ScheduleSum(x: Word, y: Word, z: Word, u: Word)
    ensures Fips180.Plus(Fips180.Plus(Fips180.Plus(x, y), z), u) == (u + z + y + x) % TWO_32
  {
    ToUint32Add(x + y, z);
    ToUint32Add(x + y + z, u);
  }

  lemma RoundSum(h: Word, s: Word, c: Word, k: Word, w: Word)
    ensures Fips180.Plus(Fips180.Plus(Fips180.Plus(Fips180.Plus(h, s), c), k), w) == (h + s + c + k + w) % TWO_32
  {
    ToUint32Add(h + s, c);
    ToUint32Add(h + s + c, k);
    ToUint32Add(h + s + c + k, w);
  }

  /** `(hh + S1 + ch + K[i] + w[i]) >>> 0` */
  lemma Temp1(v: Fips180.Variables, k: Word, w: Word)
    ensures Fips180.T1(v, k, w)
         == (v.h + Fips180.BigSigma1(v.e) + Fips180.Ch(v.e, v.f, v.g) + k + w) % TWO_32
  {
    hide Fips180.BigSigma1, Fips180.Ch;
    RoundSum(v.h, Fips180.BigSigma1(v.e), Fips180.Ch(v.e, v.f, v.g), k, w);
  }

  lemma NextRound(start: Fips180.Variables, block: Fips180.Block, i: nat, v: Fips180.Variables)
    requires i < 64 && v == Fips180.Rounds(start, block, i)
    ensures Fips180.Rounds(start, block, i + 1) == Fips180.Round(v, Fips180.K(i), Fips180.Schedule(block, i))
  {
    hide Fips180.Round, Fips180.K, Fips180.Schedule;
  }

  /** `(x + y) >>> 0` */
  function AddWord(x: Word, y: Word): (r: Word)
    ensures r == Fips180.Plus(x, y)
  {
    Reduce(Add(x, y))
  }

  /** The 64 rounds over one scheduled block. */
  method RunRounds(h: array<Word>, w: array<Word>, ghost block: Fips180.Block) returns (v: Fips180.Variables)
    requires h.Length == 8 && w.Length == 64
    requires forall t :: 0 <= t < 64 ==> w[t] == Fips180.Schedule(block, t)
    ensures v == Fips180.Rounds(Fips180.Working(h[..]), block, 64)
  {
    hide Fips180.BigSigma0, Fips180.BigSigma1, Fips180.Ch, Fips180.Maj, Fips180.Rounds, Fips180.Schedule;
    hide Fips180.T1, Fips180.Plus, Fips180.K, BigSigma0, BigSigma1, Ch, Maj, Reduce, AddWord;
    var a, b, c, d, e, f, g, hh := h[0], h[1], h[2], h[3], h[4], h[5], h[6], h[7];
    ghost var start := Fips180.Working(h[..]);
    RoundsStart(start, block);
    for i := 0 to 64
      invariant Fips180.Variables(a, b, c, d, e, f, g, hh) == Fips180.Rounds(start, block, i)
    {
      ghost var before := Fips180.Variables(a, b, c, d, e, f, g, hh);
      NextRound(start, block, i, before);
      Temp1(before, Fips180.K(i), w[i]);
      var S1 := BigSigma1(e);
      var ch := Ch(e, f, g);
      var temp1 := Reduce(Add(Add(Add(Add(hh, S1), ch), Fips180.K(i)), w[i]));
      var S0 := BigSigma0(a);
      var maj := Maj(a, b, c);
      var temp2 := AddWord(S0, maj);
      hh := g;
      g := f;
      f := e;
      e := AddWord(d, temp1);
      d := c;
      c := b;
      b := a;
      a := AddWord(temp1, temp2);
    }
    v := Fips180.Variables(a, b, c, d, e, f, g, hh);
  }

  method CompressInto(h: array<Word>, w: array<Word>, ghost block: Fips180.Block)
    requires h.Length == 8 && w.Length == 64 && h != w
    requires forall t :: 0 <= t < 64 ==> w[t] == Fips180.Schedule(block, t)
    modifies h
    ensures h[..] == Fips180.Compress(old(h[..]), block)
  {
    hide Fips180.Rounds, Fips180.Schedule;
    var v := RunRounds(h, w, block);
    AddInto(h, v);
  }

  method AddInto(h: array<Word>, v: Fips180.Variables)
    requires h.Length == 8
    modifies h
    ensures h[..] == Fips180.Intermediate(old(h[..]), v)
  {
    hide Fips180.Plus, AddWord;
    h[0] := AddWord(h[0], v.a);
    h[1] := AddWord(h[1], v.b);
    h[2] := AddWord(h[2], v.c);
    h[3] := AddWord(h[3], v.d);
    h[4] := AddWord(h[4], v.e);
    h[5] := AddWord(h[5], v.f);
    h[6] := AddWord(h[6], v.g);
    h[7] := AddWord(h[7], v.h);
  }

  lemma RoundsStart(start: Fips180.Variables, block: Fips180.Block)
    ensures Fips180.Rounds(start, block, 0) == start
  {
  }

  /** `sha256` returns the digest of FIPS 180-4 for every message shorter than 2^31 - 72 bytes and
      raises a RangeError for every longer one. */
  method Sha256(bytes: seq<Byte>) returns (r: Result<seq<Byte>>)
    requires Safe(|bytes| + 8)
    ensures r == if |bytes| < TWO_31 - 72 then Ok(Fips180.Sha256(bytes)) else RangeError
  {
    hide Fips180.Compress, Fips180.Pad, Fips180.BlockAt, Fips180.HashBlocks, PaddedLength;
    PaddedLengthExact(|bytes|);
    var size := PaddedLength(|bytes|);
    if size < 0 || |bytes| > size {
      return RangeError;
    }
    var view := PadMessage(bytes);
    Fips180.PadLength(bytes);
    ghost var padded := view[..];
    var h := new Word[8](i requires 0 <= i < 8 => Fips180.H0[i]);
    assert h[..] == Fips180.H0;
    HashStart(padded);
    var w := new Word[64](_ => 0);
    var offset := 0;
    while offset < view.Length
      invariant 0 <= offset <= view.Length && offset % 64 == 0
      invariant view[..] == padded
      invariant h[..] == Fips180.HashBlocks(padded, offset / 64)
    {
      FillSchedule(view, offset, w);
      CompressInto(h, w, Fips180.BlockAt(view[..], offset));
      HashNext(padded, offset / 64);
      offset := offset + 64;
    }
    var out := WriteDigest(h);
    r := Ok(out[..]);
  }

  lemma HashStart(padded: seq<Byte>)
    ensures Fips180.HashBlocks(padded, 0) == Fips180.H0
  {
  }

  lemma HashNext(padded: seq<Byte>, n: nat)
    requires 64 * (n + 1) <= |padded|
    ensures Fips180.HashBlocks(padded, n + 1)
         == Fips180.Compress(Fips180.HashBlocks(padded, n), Fips180.BlockAt(padded, 64 * n))
  {
    hide Fips180.Compress, Fips180.BlockAt;
  }

  method WriteDigest(h: array<Word>) returns (out: array<Byte>)
    requires h.Length == 8
    ensures fresh(out) && out[..] == Fips180.WordsToBytes(h[..])
  {
    out := new Byte[32](_ => 0);
    for i := 0 to 8
      invariant out[..i * 4] == Fips180.WordsToBytes(h[..i])
    {
      SetUint32(out, i * 4, h[i]);
      assert h[..i + 1][..i] == h[..i];
      assert out[..(i + 1) * 4] == out[..i * 4] + Fips180.BigEndian(h[i], 4);
    }
    assert h[..8] == h[..];
    assert out[..32] == out[..];
  }

  // ── hmacSha256 ─────────────────────────────────────────────────────────────

  /** `hmacSha256` returns the MAC of RFC 2104 whenever every message it hashes is short enough for
      `sha256`, and raises a RangeError otherwise. */
  method HmacSha256(keyBytes: seq<Byte>, messageBytes: seq<Byte>) returns (r: Result<seq<Byte>>)
    requires Safe(|keyBytes| + 8) && Safe(BLOCK + |messageBytes| + 8)
    ensures r == if |keyBytes| < TWO_31 - 72 && BLOCK + |messageBytes| < TWO_31 - 72
                 then Ok(Fips180.HmacSha256(keyBytes, messageBytes)) else RangeError
  {
    hide Fips180.Sha256, Fips180.XorByte, XorByte, Fips180.XorBytes;
    var key := keyBytes;
    if |key| > BLOCK {
      var hashed := Sha256(key);
      if hashed.RangeError? {
        return RangeError;
      }
      key := hashed.value;
    }
    var padded := key + Fips180.Zeros(BLOCK - |key|);
    var inner := new Byte[BLOCK + |messageBytes|](_ => 0);
    var outer := new Byte[BLOCK + 32](_ => 0);
    XorBytesEmpty(0x36);
    XorBytesEmpty(0x5c);
    for i := 0 to BLOCK
      invariant inner[..i] == Fips180.XorBytes(padded[..i], 0x36)
      invariant outer[..i] == Fips180.XorBytes(padded[..i], 0x5c)
    {
      inner[i] := XorByte(padded[i], 0x36);
      outer[i] := XorByte(padded[i], 0x5c);
      XorBytesSnoc(padded[..i], padded[i], 0x36);
      XorBytesSnoc(padded[..i], padded[i], 0x5c);
      assert padded[..i + 1] == padded[..i] + [padded[i]];
    }
    assert padded[..BLOCK] == padded;
    SetBytes(inner, messageBytes, BLOCK);
    assert padded == Fips180.HmacKey(keyBytes);
    assert inner[..] == Fips180.XorBytes(padded, 0x36) + messageBytes;
    var innerDigest := Sha256(inner[..]);
    if innerDigest.RangeError? {
      return RangeError;
    }
    SetBytes(outer, innerDigest.value, BLOCK);
    assert outer[..] == Fips180.XorBytes(padded, 0x5c) + innerDigest.value;
    r := Sha256(outer[..]);
  }

  /** `x ^ y` on bytes. */
  function XorByte(x: Byte, y: Byte): (r: Byte)
    ensures r == Fips180.XorByte(x, y)
  {
    XorByteBits(x, y);
    Xor(x, y)
  }

  /** The bits above the eighth are zero in both operands, so the 32-bit XOR is the 8-bit one. */
  lemma XorByteBits(x: Byte, y: Byte)
    ensures Xor(x, y) == Fips180.XorByte(x, y)
  {
    hide XorBits, Pow2;
    Pow2Of8();
    BitsBound(x, y, 8);
    XorBitsStop(x, y, 8, 32);
    UnsignedSmall(x);
    UnsignedSmall(y);
    UnsignedSmall(XorBits(x, y, 8));
  }

  lemma UnsignedSmall(x: int)
    requires 0 <= x < TWO_31
    ensures ToUint32(x) == x && ToInt32(x) == x
  {
  }

  lemma XorBytesEmpty(mask: Byte)
    ensures Fips180.XorBytes([], mask) == []
  {
  }

  lemma XorBitsStop(x: nat, y: nat, m: nat, n: nat)
    requires x < Pow2(m) && y < Pow2(m) && m <= n
    ensures XorBits(x, y, n) == XorBits(x, y, m)
  {
    if m > 0 {
      XorBitsStop(x / 2, y / 2, m - 1, n - 1);
    } else {
      XorOfZeros(n);
    }
  }

  lemma XorOfZeros(n: nat)
    ensures XorBits(0, 0, n) == 0
  {
  }

  lemma XorBytesSnoc(s: seq<Byte>, x: Byte, mask: Byte)
    ensures Fips180.XorBytes(s + [x], mask) == Fips180.XorBytes(s, mask) + [Fips180.XorByte(x, mask)]
  {
    if s != [] {
      XorBytesSnoc(s[1..], x, mask);
      assert (s + [x])[1..] == s[1..] + [x];
    }
  }

  /** `target.set(source, at)` */
  method SetBytes(target: array<Byte>, source: seq<Byte>, at: nat)
    requires at + |source| <= target.Length
    modifies target
    ensures target[..] == old(target[..at]) + source + old(target[at + |source|..])
  {
    for i := 0 to |source|
      invariant target[..at] == old(target[..at])
      invariant target[at..at + i] == source[..i]
      invariant target[at + |source|..] == old(target[at + |source|..])
    {
      target[at + i] := source[i];
    }
    assert target[..] == target[..at] + target[at..at + |source|] + target[at + |source|..];
  }
}
