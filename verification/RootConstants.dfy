/**
 The two constant tables of SHA-256 are what sections 4.2.2 and 5.3.3 of FIPS 180-4 say they are:
 the first 32 bits of the fractional parts of the cube roots of the first 64 primes and of the square
 roots of the first eight. A root is pinned by integer inequalities: with s the integer part and k the
 32 bits, v = s * 2^32 + k satisfies v^3 <= p * 2^96 < (v + 1)^3.
 */
module RootConstants {
  import opened JsNumber
  import Fips180

  ghost predicate Divides(d: nat, n: nat) {
    exists q: nat :: d * q == n
  }

  ghost predicate IsPrime(n: nat) {
    n >= 2 && forall d :: 2 <= d < n ==> !Divides(d, n)
  }

  /** The first 64 primes, eight to a row. */
  const PRIME_ROWS: seq<seq<nat>> := [
    [2, 3, 5, 7, 11, 13, 17, 19],
    [23, 29, 31, 37, 41, 43, 47, 53],
    [59, 61, 67, 71, 73, 79, 83, 89],
    [97, 101, 103, 107, 109, 113, 127, 131],
    [137, 139, 149, 151, 157, 163, 167, 173],
    [179, 181, 191, 193, 197, 199, 211, 223],
    [227, 229, 233, 239, 241, 251, 257, 263],
    [269, 271, 277, 281, 283, 293, 307, 311]
  ]

  function Prime(i: nat): nat
    requires i < 64
  {
    PRIME_ROWS[i / 8][i % 8]
  }

  ghost predicate IsSquareRootFraction(k: Word, p: nat) {
    exists s: nat :: SquareBounds(s, k, p)
  }

  predicate SquareBounds(s: nat, k: Word, p: nat) {
    var v: int := s * TWO_32 + k;
    v * v <= p * TWO_32 * TWO_32 < (v + 1) * (v + 1)
  }

  ghost predicate IsCubeRootFraction(k: Word, p: nat) {
    exists s: nat :: CubeBounds(s, k, p)
  }

  predicate CubeBounds(s: nat, k: Word, p: nat) {
    var v: int := s * TWO_32 + k;
    v * v * v <= p * TWO_32 * TWO_32 * TWO_32 < (v + 1) * (v + 1) * (v + 1)
  }

  // ── The primes ─────────────────────────────────────────────────────────────

  /** No prime up to 17 other than `n` itself divides `n`. */
  predicate Sieved(n: nat) {
    (n == 2 || n % 2 != 0) && (n == 3 || n % 3 != 0) && (n == 5 || n % 5 != 0) && (n == 7 || n % 7 != 0)
    && (n == 11 || n % 11 != 0) && (n == 13 || n % 13 != 0) && (n == 17 || n % 17 != 0)
  }

  /** Below 18^2 the sieve is exact. */
  lemma SieveIsExact(n: nat)
    requires 2 <= n < 324
    ensures Sieved(n) <==> IsPrime(n)
  {
    if !Sieved(n) {
      SievedOutIsComposite(n);
    } else {
      forall d | 2 <= d < n ensures !Divides(d, n) {
        if Divides(d, n) {
          var q: nat :| d * q == n;
          SmallFactor(d, q, n);
        }
      }
    }
  }

  lemma SievedOutIsComposite(n: nat)
    requires n >= 2 && !Sieved(n)
    ensures !IsPrime(n)
  {
    var p := if n != 2 && n % 2 == 0 then 2 else if n != 3 && n % 3 == 0 then 3
             else if n != 5 && n % 5 == 0 then 5 else if n != 7 && n % 7 == 0 then 7
             else if n != 11 && n % 11 == 0 then 11 else if n != 13 && n % 13 == 0 then 13 else 17;
    assert n % p == 0;
    assert p * (n / p) == n;
    assert Divides(p, n);
  }

  lemma SmallFactor(d: nat, e: nat, n: nat)
    requires 2 <= d < n < 324 && d * e == n
    ensures !Sieved(n)
  {
    hide Sieved;
    if d < 18 {
      FactorBelow18(d, e, n);
    } else {
      assert e < 18 by { if e >= 18 { MulMono(e, 18, d); } }
      assert e >= 2;
      FactorBelow18(e, d, n);
    }
  }

  lemma FactorBelow18(d: nat, e: nat, n: nat)
    requires 2 <= d < 18 && e >= 2 && n == d * e
    ensures !Sieved(n)
  {
    hide Sieved;
    match d
    case 2 => Multiple2(e);
    case 3 => Multiple3(e);
    case 4 => Multiple2(2 * e);
    case 5 => Multiple5(e);
    case 6 => Multiple2(3 * e);
    case 7 => Multiple7(e);
    case 8 => Multiple2(4 * e);
    case 9 => Multiple3(3 * e);
    case 10 => Multiple2(5 * e);
    case 11 => Multiple11(e);
    case 12 => Multiple2(6 * e);
    case 13 => Multiple13(e);
    case 14 => Multiple2(7 * e);
    case 15 => Multiple3(5 * e);
    case 16 => Multiple2(8 * e);
    case 17 => Multiple17(e);
  }

  lemma Multiple2(m: nat)
    requires m >= 2
    ensures !Sieved(2 * m)
  {
    assert 2 * m % 2 == 0;
  }

  lemma Multiple3(m: nat)
    requires m >= 2
    ensures !Sieved(3 * m)
  {
    assert 3 * m % 3 == 0;
  }

  lemma Multiple5(m: nat)
    requires m >= 2
    ensures !Sieved(5 * m)
  {
    assert 5 * m % 5 == 0;
  }

  lemma Multiple7(m: nat)
    requires m >= 2
    ensures !Sieved(7 * m)
  {
    assert 7 * m % 7 == 0;
  }

  lemma Multiple11(m: nat)
    requires m >= 2
    ensures !Sieved(11 * m)
  {
    assert 11 * m % 11 == 0;
  }

  lemma Multiple13(m: nat)
    requires m >= 2
    ensures !Sieved(13 * m)
  {
    assert 13 * m % 13 == 0;
  }

  lemma Multiple17(m: nat)
    requires m >= 2
    ensures !Sieved(17 * m)
  {
    assert 17 * m % 17 == 0;
  }

  /** No number strictly between `lo` and `hi` passes the sieve. */
  predicate Gap(lo: nat, hi: nat)
    decreases hi
  {
    hi <= lo + 1 || (!Sieved(hi - 1) && Gap(lo, hi - 1))
  }

  lemma {:induction false} GapAt(lo: nat, hi: nat, n: nat)
    requires Gap(lo, hi) && lo < n < hi
    ensures !Sieved(n)
    decreases hi
  {
    if n < hi - 1 {
      GapAt(lo, hi - 1, n);
    }
  }

  predicate NextPrime(lo: nat, hi: nat) {
    lo < hi && Sieved(hi) && Gap(lo, hi)
  }

  function Before(i: nat): nat
    requires i < 64
  {
    if i == 0 then 1 else Prime(i - 1)
  }

  lemma Row(i: nat)
    requires i < 64
    ensures NextPrime(Before(i), Prime(i)) && IsCubeRootFraction(Fips180.K(i), Prime(i))
  {
    hide NextPrime, CubeBounds, IsCubeRootFraction;
    match i / 8
    case 0 => Row0(i);
    case 1 => Row1(i);
    case 2 => Row2(i);
    case 3 => Row3(i);
    case 4 => Row4(i);
    case 5 => Row5(i);
    case 6 => Row6(i);
    case 7 => Row7(i);
  }

  // ── The two tables ─────────────────────────────────────────────────────────

  /** The table lists consecutive primes, beginning with the first one. */
  lemma ConsecutivePrimes(i: nat)
    requires i < 64
    ensures IsPrime(Prime(i))
    ensures Before(i) < Prime(i)
    ensures forall n :: Before(i) < n < Prime(i) ==> !IsPrime(n)
  {
    Row(i);
    PrimeBound(i);
    SieveIsExact(Prime(i));
    forall n | Before(i) < n < Prime(i) ensures !IsPrime(n) {
      GapAt(Before(i), Prime(i), n);
      SieveIsExact(n);
    }
  }

  lemma PrimeBound(i: nat)
    requires i < 64
    ensures 2 <= Prime(i) <= 311 && Before(i) >= 1
  {
    hide Prime;
    PrimeRange(i);
    if i > 0 {
      PrimeRange(i - 1);
    }
  }

  lemma PrimeRange(i: nat)
    requires i < 64
    ensures 2 <= Prime(i) <= 311
  {
    var row := PRIME_ROWS[i / 8];
    assert |row| == 8 && forall j :: 0 <= j < 8 ==> 2 <= row[j] <= 311;
  }

  /** Section 4.2.2: the round constants are the cube-root fractions of the first 64 primes. */
  lemma RoundConstants(i: nat)
    requires i < 64
    ensures IsCubeRootFraction(Fips180.K(i), Prime(i))
  {
    Row(i);
  }

  /** Section 5.3.3: the initial hash value is the square-root fractions of the first eight primes. */
  lemma InitialHashValue(i: nat)
    requires i < 8
    ensures IsSquareRootFraction(Fips180.H0[i], Prime(i))
  {
    hide SquareBounds;
    Squares();
  }

  lemma Squares()
    ensures SquareBounds(1, 0x6a09e667, 2) && SquareBounds(1, 0xbb67ae85, 3)
    ensures SquareBounds(2, 0x3c6ef372, 5) && SquareBounds(2, 0xa54ff53a, 7)
    ensures SquareBounds(3, 0x510e527f, 11) && SquareBounds(3, 0x9b05688c, 13)
    ensures SquareBounds(4, 0x1f83d9ab, 17) && SquareBounds(4, 0x5be0cd19, 19)
  {
  }

  // ── One lemma to a row of eight ────────────────────────────────────────────

  lemma Row0(i: nat)
    requires 0 <= i < 8
    ensures NextPrime(Before(i), Prime(i))
    ensures IsCubeRootFraction(Fips180.K(i), Prime(i))
  {
    hide NextPrime, CubeBounds;
    Step0();
    Cubes0();
  }

  lemma Row1(i: nat)
    requires 8 <= i < 16
    ensures NextPrime(Before(i), Prime(i))
    ensures IsCubeRootFraction(Fips180.K(i), Prime(i))
  {
    hide NextPrime, CubeBounds;
    Step1();
    Cubes1();
  }

  lemma Row2(i: nat)
    requires 16 <= i < 24
    ensures NextPrime(Before(i), Prime(i))
    ensures IsCubeRootFraction(Fips180.K(i), Prime(i))
  {
    hide NextPrime, CubeBounds;
    Step2();
    Cubes2();
  }

  lemma Row3(i: nat)
    requires 24 <= i < 32
    ensures NextPrime(Before(i), Prime(i))
    ensures IsCubeRootFraction(Fips180.K(i), Prime(i))
  {
    hide NextPrime, CubeBounds;
    Step3();
    Cubes3();
  }

  lemma Row4(i: nat)
    requires 32 <= i < 40
    ensures NextPrime(Before(i), Prime(i))
    ensures IsCubeRootFraction(Fips180.K(i), Prime(i))
  {
    hide NextPrime, CubeBounds;
    Step4();
    Cubes4();
  }

  lemma Row5(i: nat)
    requires 40 <= i < 48
    ensures NextPrime(Before(i), Prime(i))
    ensures IsCubeRootFraction(Fips180.K(i), Prime(i))
  {
    hide NextPrime, CubeBounds;
    Step5();
    Cubes5();
  }

  lemma Row6(i: nat)
    requires 48 <= i < 56
    ensures NextPrime(Before(i), Prime(i))
    ensures IsCubeRootFraction(Fips180.K(i), Prime(i))
  {
    hide NextPrime, CubeBounds;
    Step6();
    Cubes6();
  }

  lemma Row7(i: nat)
    requires 56 <= i < 64
    ensures NextPrime(Before(i), Prime(i))
    ensures IsCubeRootFraction(Fips180.K(i), Prime(i))
  {
    hide NextPrime, CubeBounds;
    Step7();
    Cubes7();
  }

  lemma Step0()
    ensures NextPrime(1, 2) && NextPrime(2, 3) && NextPrime(3, 5) && NextPrime(5, 7)
    ensures NextPrime(7, 11) && NextPrime(11, 13) && NextPrime(13, 17) && NextPrime(17, 19)
  {
  }

  lemma Cubes0()
    ensures CubeBounds(1, 0x428a2f98, 2) && CubeBounds(1, 0x71374491, 3)
    ensures CubeBounds(1, 0xb5c0fbcf, 5) && CubeBounds(1, 0xe9b5dba5, 7)
    ensures CubeBounds(2, 0x3956c25b, 11) && CubeBounds(2, 0x59f111f1, 13)
    ensures CubeBounds(2, 0x923f82a4, 17) && CubeBounds(2, 0xab1c5ed5, 19)
  {
  }

  lemma Step1()
    ensures NextPrime(19, 23) && NextPrime(23, 29) && NextPrime(29, 31) && NextPrime(31, 37)
    ensures NextPrime(37, 41) && NextPrime(41, 43) && NextPrime(43, 47) && NextPrime(47, 53)
  {
  }

  lemma Cubes1()
    ensures CubeBounds(2, 0xd807aa98, 23) && CubeBounds(3, 0x12835b01, 29)
    ensures CubeBounds(3, 0x243185be, 31) && CubeBounds(3, 0x550c7dc3, 37)
    ensures CubeBounds(3, 0x72be5d74, 41) && CubeBounds(3, 0x80deb1fe, 43)
    ensures CubeBounds(3, 0x9bdc06a7, 47) && CubeBounds(3, 0xc19bf174, 53)
  {
  }

  lemma Step2()
    ensures NextPrime(53, 59) && NextPrime(59, 61) && NextPrime(61, 67) && NextPrime(67, 71)
    ensures NextPrime(71, 73) && NextPrime(73, 79) && NextPrime(79, 83) && NextPrime(83, 89)
  {
  }

  lemma Cubes2()
    ensures CubeBounds(3, 0xe49b69c1, 59) && CubeBounds(3, 0xefbe4786, 61)
    ensures CubeBounds(4, 0x0fc19dc6, 67) && CubeBounds(4, 0x240ca1cc, 71)
    ensures CubeBounds(4, 0x2de92c6f, 73) && CubeBounds(4, 0x4a7484aa, 79)
    ensures CubeBounds(4, 0x5cb0a9dc, 83) && CubeBounds(4, 0x76f988da, 89)
  {
  }

  lemma Step3()
    ensures NextPrime(89, 97) && NextPrime(97, 101) && NextPrime(101, 103) && NextPrime(103, 107)
    ensures NextPrime(107, 109) && NextPrime(109, 113) && NextPrime(113, 127) && NextPrime(127, 131)
  {
  }

  lemma Cubes3()
    ensures CubeBounds(4, 0x983e5152, 97) && CubeBounds(4, 0xa831c66d, 101)
    ensures CubeBounds(4, 0xb00327c8, 103) && CubeBounds(4, 0xbf597fc7, 107)
    ensures CubeBounds(4, 0xc6e00bf3, 109) && CubeBounds(4, 0xd5a79147, 113)
    ensures CubeBounds(5, 0x06ca6351, 127) && CubeBounds(5, 0x14292967, 131)
  {
  }

  lemma Step4()
    ensures NextPrime(131, 137) && NextPrime(137, 139) && NextPrime(139, 149) && NextPrime(149, 151)
    ensures NextPrime(151, 157) && NextPrime(157, 163) && NextPrime(163, 167) && NextPrime(167, 173)
  {
  }

  lemma Cubes4()
    ensures CubeBounds(5, 0x27b70a85, 137) && CubeBounds(5, 0x2e1b2138, 139)
    ensures CubeBounds(5, 0x4d2c6dfc, 149) && CubeBounds(5, 0x53380d13, 151)
    ensures CubeBounds(5, 0x650a7354, 157) && CubeBounds(5, 0x766a0abb, 163)
    ensures CubeBounds(5, 0x81c2c92e, 167) && CubeBounds(5, 0x92722c85, 173)
  {
  }

  lemma Step5()
    ensures NextPrime(173, 179) && NextPrime(179, 181) && NextPrime(181, 191) && NextPrime(191, 193)
    ensures NextPrime(193, 197) && NextPrime(197, 199) && NextPrime(199, 211) && NextPrime(211, 223)
  {
  }

  lemma Cubes5()
    ensures CubeBounds(5, 0xa2bfe8a1, 179) && CubeBounds(5, 0xa81a664b, 181)
    ensures CubeBounds(5, 0xc24b8b70, 191) && CubeBounds(5, 0xc76c51a3, 193)
    ensures CubeBounds(5, 0xd192e819, 197) && CubeBounds(5, 0xd6990624, 199)
    ensures CubeBounds(5, 0xf40e3585, 211) && CubeBounds(6, 0x106aa070, 223)
  {
  }

  lemma Step6()
    ensures NextPrime(223, 227) && NextPrime(227, 229) && NextPrime(229, 233) && NextPrime(233, 239)
    ensures NextPrime(239, 241) && NextPrime(241, 251) && NextPrime(251, 257) && NextPrime(257, 263)
  {
  }

  lemma Cubes6()
    ensures CubeBounds(6, 0x19a4c116, 227) && CubeBounds(6, 0x1e376c08, 229)
    ensures CubeBounds(6, 0x2748774c, 233) && CubeBounds(6, 0x34b0bcb5, 239)
    ensures CubeBounds(6, 0x391c0cb3, 241) && CubeBounds(6, 0x4ed8aa4a, 251)
    ensures CubeBounds(6, 0x5b9cca4f, 257) && CubeBounds(6, 0x682e6ff3, 263)
  {
  }

  lemma Step7()
    ensures NextPrime(263, 269) && NextPrime(269, 271) && NextPrime(271, 277) && NextPrime(277, 281)
    ensures NextPrime(281, 283) && NextPrime(283, 293) && NextPrime(293, 307) && NextPrime(307, 311)
  {
  }

  lemma Cubes7()
    ensures CubeBounds(6, 0x748f82ee, 269) && CubeBounds(6, 0x78a5636f, 271)
    ensures CubeBounds(6, 0x84c87814, 277) && CubeBounds(6, 0x8cc70208, 281)
    ensures CubeBounds(6, 0x90befffa, 283) && CubeBounds(6, 0xa4506ceb, 293)
    ensures CubeBounds(6, 0xbef9a3f7, 307) && CubeBounds(6, 0xc67178f2, 311)
  {
  }
}
