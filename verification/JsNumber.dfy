/**
 ECMAScript number semantics, restricted to the integer values a double holds exactly.

 Additions and multiplications carry `Safe` as a precondition, so a body that verifies has shown
 that none of its intermediate results leaves the exact range of a double.
 */
module JsNumber {

  const TWO_31 := 0x8000_0000
  const TWO_32 := 0x1_0000_0000
  const MAX_SAFE_INTEGER := 0x1F_FFFF_FFFF_FFFF

  type Byte = x: int | 0 <= x < 256
  type Word = x: int | 0 <= x < 0x1_0000_0000

  predicate Safe(x: int) {
    -MAX_SAFE_INTEGER <= x <= MAX_SAFE_INTEGER
  }

  function Pow2(n: nat): (r: nat)
    ensures r > 0
  {
    if n == 0 then 1 else 2 * Pow2(n - 1)
  }

  lemma DivBound(x: nat, p: nat)
    requires p > 0
    ensures 0 <= x / p <= x
  {
    var q := x / p;
    assert x == p * q + x % p;
    MulMono(q, 1, p);
  }

  lemma MulMono(k: nat, x: int, y: int)
    ensures x <= y ==> k * x <= k * y && x * k <= y * k
  {
    if x <= y && k > 0 {
      assert (y - x) * k >= 0;
    }
  }

  /** Quotient and remainder are unique. */
  lemma DivisionIs(x: int, d: int, q: int, r: int)
    requires d > 0 && x == d * q + r && 0 <= r < d
    ensures x / d == q
  {
    var p := x / d;
    assert d * (p - q) == r - x % d;
    MulMono(d, 1, p - q);
    MulMono(d, p - q, -1);
  }

  function Add(x: int, y: int): int
    requires Safe(x + y)
  {
    x + y
  }

  function Times(x: int, y: int): int
    requires Safe(x * y)
  {
    x * y
  }

  /** The abstract operation ToUint32. */
  function ToUint32(x: int): Word {
    x % TWO_32
  }

  /** The abstract operation ToInt32. */
  function ToInt32(x: int): int {
    var u := x % TWO_32;
    if u >= TWO_31 then u - TWO_32 else u
  }

  /** `x >>> n` */
  function ShiftRightZero(x: int, n: nat): int {
    ToUint32(x) / Pow2(n)
  }

  /** `x >> n` */
  function ShiftRight(x: int, n: nat): int {
    ToInt32(x) / Pow2(n)
  }

  /** `x << n` */
  function ShiftLeft(x: int, n: nat): int {
    ToInt32(ToInt32(x) * Pow2(n))
  }

  // The three binary bitwise operators work on 32-bit strings, one bit at a time.

  function AndBits(x: nat, y: nat, n: nat): nat {
    if n == 0 then 0 else 2 * AndBits(x / 2, y / 2, n - 1) + (x % 2) * (y % 2)
  }

  function OrBits(x: nat, y: nat, n: nat): nat {
    if n == 0 then 0 else 2 * OrBits(x / 2, y / 2, n - 1) + (if x % 2 + y % 2 > 0 then 1 else 0)
  }

  function XorBits(x: nat, y: nat, n: nat): nat {
    if n == 0 then 0 else 2 * XorBits(x / 2, y / 2, n - 1) + (x % 2 + y % 2) % 2
  }

  /** `x & y` */
  function And(x: int, y: int): int {
    ToInt32(AndBits(ToUint32(x), ToUint32(y), 32))
  }

  /** `x | y` */
  function Or(x: int, y: int): int {
    ToInt32(OrBits(ToUint32(x), ToUint32(y), 32))
  }

  /** `x ^ y` */
  function Xor(x: int, y: int): int {
    ToInt32(XorBits(ToUint32(x), ToUint32(y), 32))
  }

  /** `~x` */
  function Not(x: int): int {
    -1 - ToInt32(x)
  }

  lemma BitsBound(x: nat, y: nat, n: nat)
    ensures AndBits(x, y, n) < Pow2(n) && OrBits(x, y, n) < Pow2(n) && XorBits(x, y, n) < Pow2(n)
  {
    if n > 0 {
      BitsBound(x / 2, y / 2, n - 1);
      assert x % 2 == 0 || x % 2 == 1;
      assert y % 2 == 0 || y % 2 == 1;
    }
  }

  lemma Pow2Of32()
    ensures Pow2(32) == TWO_32 && Pow2(6) == 64 && Pow2(0) == 1
  {
    assert Pow2(8) == 256;
    assert Pow2(16) == 65536;
    assert Pow2(24) == 16777216;
  }

  lemma Pow2Of8()
    ensures Pow2(8) == 256
  {
  }

  lemma ToUint32Add(x: int, y: int)
    ensures (x % TWO_32 + y) % TWO_32 == (x + y) % TWO_32
  {
  }

  /** `x >>> 0` is reduction modulo 2^32. */
  function Reduce(x: int): (r: Word)
    ensures r == x % TWO_32
  {
    Pow2Of32();
    ShiftRightZero(x, 0)
  }

  lemma UnsignedAnd(x: int, y: int)
    ensures ToUint32(And(x, y)) == AndBits(ToUint32(x), ToUint32(y), 32)
  {
    var b := AndBits(ToUint32(x), ToUint32(y), 32);
    UnsignedBits(b) by {
      BitsBound(ToUint32(x), ToUint32(y), 32);
      Pow2Of32();
    }
  }

  lemma UnsignedOr(x: int, y: int)
    ensures ToUint32(Or(x, y)) == OrBits(ToUint32(x), ToUint32(y), 32)
  {
    var b := OrBits(ToUint32(x), ToUint32(y), 32);
    UnsignedBits(b) by {
      BitsBound(ToUint32(x), ToUint32(y), 32);
      Pow2Of32();
    }
  }

  lemma UnsignedXor(x: int, y: int)
    ensures ToUint32(Xor(x, y)) == XorBits(ToUint32(x), ToUint32(y), 32)
  {
    var b := XorBits(ToUint32(x), ToUint32(y), 32);
    UnsignedBits(b) by {
      BitsBound(ToUint32(x), ToUint32(y), 32);
      Pow2Of32();
    }
  }

  lemma UnsignedBits(b: int)
    requires 0 <= b < TWO_32
    ensures ToUint32(ToInt32(b)) == b
  {
  }

  lemma UnsignedNot(x: Word)
    ensures ToUint32(Not(x)) == TWO_32 - 1 - x
  {
  }

  /** `((length + 8) >> 6) + 1) << 6`: the length of the padded buffer `sha256` asks for. */
  function PaddedLength(length: nat): int
    requires Safe(length + 8)
  {
    ShiftLeft(Add(ShiftRight(Add(length, 8), 6), 1), 6)
  }

  /** The 32-bit shifts give the intended length exactly below 2^31 - 72; from there on the request is
      for a negative length or for less room than the message needs. */
  lemma PaddedLengthExact(length: nat)
    requires Safe(length + 8)
    ensures length < TWO_31 - 72 ==> PaddedLength(length) == 64 * ((length + 8) / 64 + 1)
    ensures length >= TWO_31 - 72 ==> PaddedLength(length) < 0 || PaddedLength(length) < length
  {
    Pow2Of32();
    hide Pow2;
    var y := ToInt32(length + 8);
    var q := y / 64 + 1;
    assert -0x200_0000 + 1 <= q <= 0x200_0000;
    SignedSmall(q);
    assert PaddedLength(length) == ToInt32(q * 64);
    if q < 0x200_0000 {
      SignedSmall(q * 64);
    }
    if length + 8 < TWO_31 {
      SignedSmall(length + 8);
    }
  }

  lemma SignedSmall(x: int)
    requires -TWO_31 <= x < TWO_31
    ensures ToInt32(x) == x
  {
  }
}
