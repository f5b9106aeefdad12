/** The constants of FIPS 180-4: fractional bits of the roots of the first primes. */
module Sha256Constants {
  import opened Bits
  import opened Sha256Spec

  // ----- the primes -----

  predicate Divides(d: nat, n: nat) {
    d > 0 && n % d == 0
  }

  ghost predicate IsPrime(n: nat) {
    n >= 2 && forall d :: 2 <= d < n ==> !Divides(d, n)
  }

  ghost function PrimesUnder(n: nat): (r: set<nat>) {
    set p: nat | p < n && IsPrime(p)
  }

  /** The prime with `i` primes before it. */
  ghost predicate IsNthPrime(i: nat, p: nat) {
    IsPrime(p) && |PrimesUnder(p)| == i
  }

  lemma {:induction false} NthPrimeUnique(i: nat, p: nat, q: nat)
    requires IsNthPrime(i, p) && IsNthPrime(i, q)
    ensures p == q
  {
    if p < q { MorePrimes(p, q); } else if q < p { MorePrimes(q, p); }
  }

  lemma {:induction false} MorePrimes(p: nat, q: nat)
    requires IsPrime(p) && p < q
    ensures |PrimesUnder(p)| < |PrimesUnder(q)|
  {
    var rest := PrimesUnder(q) - PrimesUnder(p);
    assert p in rest && PrimesUnder(q) == PrimesUnder(p) + rest;
  }

  /** Divisible by one of the primes up to 17, and greater. */
  predicate HasSmallFactor(n: nat) {
    || (n > 2 && n % 2 == 0) || (n > 3 && n % 3 == 0) || (n > 5 && n % 5 == 0) || (n > 7 && n % 7 == 0)
    || (n > 11 && n % 11 == 0) || (n > 13 && n % 13 == 0) || (n > 17 && n % 17 == 0)
  }

  lemma {:induction false} SmallFactorDivides(n: nat)
    requires HasSmallFactor(n)
    ensures !IsPrime(n)
  {
    var d: nat := if n > 2 && n % 2 == 0 then 2 else if n > 3 && n % 3 == 0 then 3 else if n > 5 && n % 5 == 0 then 5
      else if n > 7 && n % 7 == 0 then 7 else if n > 11 && n % 11 == 0 then 11 else if n > 13 && n % 13 == 0 then 13
          else 17;
    assert Divides(d, n) && 2 <= d < n;
  }

  /** Below the square of 19, numbers without a small factor are prime. */
  lemma {:induction false} PrimeWithoutSmallFactor(n: nat)
    requires 2 <= n < 361 && !HasSmallFactor(n)
    ensures IsPrime(n)
  {
    forall d | 2 <= d < n ensures !Divides(d, n) {
      if Divides(d, n) {
        var e := n / d;
        Cofactor(n, d, e);
        if d < 19 { MultipleOfSmall(n, d, e); } else { MultipleOfSmall(n, e, d); }
      }
    }
  }


  lemma {:induction false} Cofactor(n: nat, d: nat, e: nat)
    requires 2 <= d < n < 361 && n % d == 0 && e == n / d
    ensures n == d * e && 2 <= e < n && (d < 19 || e < 19)
  {
    if d >= 19 && e >= 19 { AtLeastProduct(d, e, 19, 19); }
    if e >= 1 { AtLeastProduct(d, e, 2, e); }
    assert d * 1 == d && d * 0 == 0;
  }

  lemma {:induction false} AtLeastProduct(d: nat, e: nat, a: nat, b: nat)
    requires d >= a && e >= b
    ensures d * e >= a * b
  {
  }

  lemma {:induction false} MultipleOfSmall(n: nat, d: nat, e: nat)
    requires n == d * e && 2 <= d < 19 && 2 <= e
    ensures HasSmallFactor(n)
  {
    AtLeastProduct(d, e, d, 2);
    if d % 2 == 0 {
      MultipleKept(d, e, 2);
    } else if d % 3 == 0 {
      MultipleKept(d, e, 3);
    } else if d % 5 == 0 {
      MultipleKept(d, e, 5);
    } else {
      MultipleKept(d, e, d);
    }
  }

  lemma {:induction false} MultipleKept(d: nat, e: nat, p: nat)
    requires p > 0 && d % p == 0
    ensures d * e % p == 0
  {
    var q := d / p;
    Product(p, q, e);
    RemainderIs(d * e, p, q * e, 0);
  }

  lemma {:induction false} Product(p: nat, q: nat, e: nat)
    ensures p * q * e == p * (q * e)
  {
  }

  /** All numbers between have small factors. */
  predicate NoneBetween(p: nat, q: nat) {
    q <= p + 1 || (HasSmallFactor(q - 1) && NoneBetween(p, q - 1))
  }

  lemma {:induction false} NotBetween(p: nat, q: nat, n: nat)
    requires NoneBetween(p, q) && p < n < q
    ensures HasSmallFactor(n)
    decreases q
  {
    if n < q - 1 { NotBetween(p, q - 1, n); }
  }

  /** If `p` has no small factor, and all numbers from there to `q` have, it is the next prime. */
  lemma {:induction false} NextPrime(i: nat, p: nat, q: nat)
    requires 2 <= p < q <= 312 && |PrimesUnder(p)| == i && !HasSmallFactor(p)
    requires NoneBetween(p, q)
    ensures IsNthPrime(i, p) && |PrimesUnder(q)| == i + 1
  {
    PrimeWithoutSmallFactor(p);
    forall n: nat | p < n < q ensures !IsPrime(n) {
      NotBetween(p, q, n);
      SmallFactorDivides(n);
    }
    assert PrimesUnder(q) == PrimesUnder(p) + {p};
  }

  lemma {:induction false} Primes2To7()
    ensures |PrimesUnder(11)| == 4
    ensures IsNthPrime(0, 2) && IsNthPrime(1, 3) && IsNthPrime(2, 5) && IsNthPrime(3, 7)
  {
    NoneBelowTwo();
    NextPrime(0, 2, 3);
    NextPrime(1, 3, 5);
    NextPrime(2, 5, 7);
    NextPrime(3, 7, 11);
  }

  lemma {:induction false} Primes11To19()
    ensures |PrimesUnder(23)| == 8
    ensures IsNthPrime(4, 11) && IsNthPrime(5, 13) && IsNthPrime(6, 17) && IsNthPrime(7, 19)
  {
    Primes2To7();
    NextPrime(4, 11, 13);
    NextPrime(5, 13, 17);
    NextPrime(6, 17, 19);
    NextPrime(7, 19, 23);
  }

  lemma {:induction false} Primes23To37()
    ensures |PrimesUnder(41)| == 12
    ensures IsNthPrime(8, 23) && IsNthPrime(9, 29) && IsNthPrime(10, 31) && IsNthPrime(11, 37)
  {
    Primes11To19();
    NextPrime(8, 23, 29);
    NextPrime(9, 29, 31);
    NextPrime(10, 31, 37);
    NextPrime(11, 37, 41);
  }

  lemma {:induction false} Primes41To53()
    ensures |PrimesUnder(59)| == 16
    ensures IsNthPrime(12, 41) && IsNthPrime(13, 43) && IsNthPrime(14, 47) && IsNthPrime(15, 53)
  {
    Primes23To37();
    NextPrime(12, 41, 43);
    NextPrime(13, 43, 47);
    NextPrime(14, 47, 53);
    NextPrime(15, 53, 59);
  }

  lemma {:induction false} Primes59To71()
    ensures |PrimesUnder(73)| == 20
    ensures IsNthPrime(16, 59) && IsNthPrime(17, 61) && IsNthPrime(18, 67) && IsNthPrime(19, 71)
  {
    Primes41To53();
    NextPrime(16, 59, 61);
    NextPrime(17, 61, 67);
    NextPrime(18, 67, 71);
    NextPrime(19, 71, 73);
  }

  lemma {:induction false} Primes73To89()
    ensures |PrimesUnder(97)| == 24
    ensures IsNthPrime(20, 73) && IsNthPrime(21, 79) && IsNthPrime(22, 83) && IsNthPrime(23, 89)
  {
    Primes59To71();
    NextPrime(20, 73, 79);
    NextPrime(21, 79, 83);
    NextPrime(22, 83, 89);
    NextPrime(23, 89, 97);
  }

  lemma {:induction false} Primes97To107()
    ensures |PrimesUnder(109)| == 28
    ensures IsNthPrime(24, 97) && IsNthPrime(25, 101) && IsNthPrime(26, 103) && IsNthPrime(27, 107)
  {
    Primes73To89();
    NextPrime(24, 97, 101);
    NextPrime(25, 101, 103);
    NextPrime(26, 103, 107);
    NextPrime(27, 107, 109);
  }

  lemma {:induction false} Primes109To131()
    ensures |PrimesUnder(137)| == 32
    ensures IsNthPrime(28, 109) && IsNthPrime(29, 113) && IsNthPrime(30, 127) && IsNthPrime(31, 131)
  {
    Primes97To107();
    NextPrime(28, 109, 113);
    NextPrime(29, 113, 127);
    NextPrime(30, 127, 131);
    NextPrime(31, 131, 137);
  }

  lemma {:induction false} Primes137To151()
    ensures |PrimesUnder(157)| == 36
    ensures IsNthPrime(32, 137) && IsNthPrime(33, 139) && IsNthPrime(34, 149) && IsNthPrime(35, 151)
  {
    Primes109To131();
    NextPrime(32, 137, 139);
    NextPrime(33, 139, 149);
    NextPrime(34, 149, 151);
    NextPrime(35, 151, 157);
  }

  lemma {:induction false} Primes157To173()
    ensures |PrimesUnder(179)| == 40
    ensures IsNthPrime(36, 157) && IsNthPrime(37, 163) && IsNthPrime(38, 167) && IsNthPrime(39, 173)
  {
    Primes137To151();
    NextPrime(36, 157, 163);
    NextPrime(37, 163, 167);
    NextPrime(38, 167, 173);
    NextPrime(39, 173, 179);
  }

  lemma {:induction false} Primes179To193()
    ensures |PrimesUnder(197)| == 44
    ensures IsNthPrime(40, 179) && IsNthPrime(41, 181) && IsNthPrime(42, 191) && IsNthPrime(43, 193)
  {
    Primes157To173();
    NextPrime(40, 179, 181);
    NextPrime(41, 181, 191);
    NextPrime(42, 191, 193);
    NextPrime(43, 193, 197);
  }

  lemma {:induction false} Primes197To223()
    ensures |PrimesUnder(227)| == 48
    ensures IsNthPrime(44, 197) && IsNthPrime(45, 199) && IsNthPrime(46, 211) && IsNthPrime(47, 223)
  {
    Primes179To193();
    NextPrime(44, 197, 199);
    NextPrime(45, 199, 211);
    NextPrime(46, 211, 223);
    NextPrime(47, 223, 227);
  }

  lemma {:induction false} Primes227To239()
    ensures |PrimesUnder(241)| == 52
    ensures IsNthPrime(48, 227) && IsNthPrime(49, 229) && IsNthPrime(50, 233) && IsNthPrime(51, 239)
  {
    Primes197To223();
    NextPrime(48, 227, 229);
    NextPrime(49, 229, 233);
    NextPrime(50, 233, 239);
    NextPrime(51, 239, 241);
  }

  lemma {:induction false} Primes241To263()
    ensures |PrimesUnder(269)| == 56
    ensures IsNthPrime(52, 241) && IsNthPrime(53, 251) && IsNthPrime(54, 257) && IsNthPrime(55, 263)
  {
    Primes227To239();
    NextPrime(52, 241, 251);
    NextPrime(53, 251, 257);
    NextPrime(54, 257, 263);
    NextPrime(55, 263, 269);
  }

  lemma {:induction false} Primes269To281()
    ensures |PrimesUnder(283)| == 60
    ensures IsNthPrime(56, 269) && IsNthPrime(57, 271) && IsNthPrime(58, 277) && IsNthPrime(59, 281)
  {
    Primes241To263();
    NextPrime(56, 269, 271);
    NextPrime(57, 271, 277);
    NextPrime(58, 277, 281);
    NextPrime(59, 281, 283);
  }

  lemma {:induction false} Primes283To311()
    ensures |PrimesUnder(312)| == 64
    ensures IsNthPrime(60, 283) && IsNthPrime(61, 293) && IsNthPrime(62, 307) && IsNthPrime(63, 311)
  {
    Primes269To281();
    NextPrime(60, 283, 293);
    NextPrime(61, 293, 307);
    NextPrime(62, 307, 311);
    NextPrime(63, 311, 312);
  }

  lemma {:induction false} NoneBelowTwo()
    ensures PrimesUnder(2) == {}
  {
  }

  // ----- roots -----

  function Square(x: nat): (r: nat) { x * x }

  function Cube(x: nat): (r: nat) { x * x * x }

  /** `m` is the integer part of the cube root of `p`, and `w` the first 32 bits of the rest. */
  predicate CubeRootBits(p: nat, m: nat, w: nat) {
    && Cube(m) <= p < Cube(m + 1)
    && Cube(m * 0x1_0000_0000 + w) <= p * Cube(0x1_0000_0000) < Cube(m * 0x1_0000_0000 + w + 1)
  }

  predicate SquareRootBits(p: nat, m: nat, w: nat) {
    && Square(m) <= p < Square(m + 1)
    && Square(m * 0x1_0000_0000 + w) <= p * Square(0x1_0000_0000) < Square(m * 0x1_0000_0000 + w + 1)
  }

  ghost predicate IsCubeRootOf(p: nat, w: nat) {
    exists m :: CubeRootBits(p, m, w)
  }

  /** The constant and the prime at a place. */
  ghost predicate RootAt(i: nat)
    requires i < 64
  {
    exists p :: IsNthPrime(i, p) && IsCubeRootOf(p, K()[i])
  }

  lemma {:induction false} ConstantAt(i: nat)
    requires i < 64
    ensures K()[i] == if i < 16 then K1()[i] else if i < 32 then K2()[i - 16] else if i < 48 then K3()[i - 32]
        else K4()[i - 48]
  {
  }

  ghost predicate ConstantIs(i: nat, w: nat)
    requires i < 64
  {
    K()[i] == w
  }

  lemma {:induction false} Rooted(i: nat, p: nat, m: nat, w: nat)
    requires i < 64 && IsNthPrime(i, p) && ConstantIs(i, w) && CubeRootBits(p, m, w)
    ensures RootAt(i)
  {
  }

  lemma {:induction false} Constants0To3()
    ensures ConstantIs(0, 0x428a2f98) && ConstantIs(1, 0x71374491)
    ensures ConstantIs(2, 0xb5c0fbcf) && ConstantIs(3, 0xe9b5dba5)
  {
    ConstantAt(0);
    ConstantAt(1);
    ConstantAt(2);
    ConstantAt(3);
    assert K1()[0] == 0x428a2f98;
    assert K1()[1] == 0x71374491;
    assert K1()[2] == 0xb5c0fbcf;
    assert K1()[3] == 0xe9b5dba5;
  }

  lemma {:induction false} Constants4To7()
    ensures ConstantIs(4, 0x3956c25b) && ConstantIs(5, 0x59f111f1)
    ensures ConstantIs(6, 0x923f82a4) && ConstantIs(7, 0xab1c5ed5)
  {
    ConstantAt(4);
    ConstantAt(5);
    ConstantAt(6);
    ConstantAt(7);
    assert K1()[4] == 0x3956c25b;
    assert K1()[5] == 0x59f111f1;
    assert K1()[6] == 0x923f82a4;
    assert K1()[7] == 0xab1c5ed5;
  }

  lemma {:induction false} Constants8To11()
    ensures ConstantIs(8, 0xd807aa98) && ConstantIs(9, 0x12835b01)
    ensures ConstantIs(10, 0x243185be) && ConstantIs(11, 0x550c7dc3)
  {
    ConstantAt(8);
    ConstantAt(9);
    ConstantAt(10);
    ConstantAt(11);
    assert K1()[8] == 0xd807aa98;
    assert K1()[9] == 0x12835b01;
    assert K1()[10] == 0x243185be;
    assert K1()[11] == 0x550c7dc3;
  }

  lemma {:induction false} Constants12To15()
    ensures ConstantIs(12, 0x72be5d74) && ConstantIs(13, 0x80deb1fe)
    ensures ConstantIs(14, 0x9bdc06a7) && ConstantIs(15, 0xc19bf174)
  {
    ConstantAt(12);
    ConstantAt(13);
    ConstantAt(14);
    ConstantAt(15);
    assert K1()[12] == 0x72be5d74;
    assert K1()[13] == 0x80deb1fe;
    assert K1()[14] == 0x9bdc06a7;
    assert K1()[15] == 0xc19bf174;
  }

  lemma {:induction false} Constants16To19()
    ensures ConstantIs(16, 0xe49b69c1) && ConstantIs(17, 0xefbe4786)
    ensures ConstantIs(18, 0x0fc19dc6) && ConstantIs(19, 0x240ca1cc)
  {
    ConstantAt(16);
    ConstantAt(17);
    ConstantAt(18);
    ConstantAt(19);
    assert K2()[0] == 0xe49b69c1;
    assert K2()[1] == 0xefbe4786;
    assert K2()[2] == 0x0fc19dc6;
    assert K2()[3] == 0x240ca1cc;
  }

  lemma {:induction false} Constants20To23()
    ensures ConstantIs(20, 0x2de92c6f) && ConstantIs(21, 0x4a7484aa)
    ensures ConstantIs(22, 0x5cb0a9dc) && ConstantIs(23, 0x76f988da)
  {
    ConstantAt(20);
    ConstantAt(21);
    ConstantAt(22);
    ConstantAt(23);
    assert K2()[4] == 0x2de92c6f;
    assert K2()[5] == 0x4a7484aa;
    assert K2()[6] == 0x5cb0a9dc;
    assert K2()[7] == 0x76f988da;
  }

  lemma {:induction false} Constants24To27()
    ensures ConstantIs(24, 0x983e5152) && ConstantIs(25, 0xa831c66d)
    ensures ConstantIs(26, 0xb00327c8) && ConstantIs(27, 0xbf597fc7)
  {
    ConstantAt(24);
    ConstantAt(25);
    ConstantAt(26);
    ConstantAt(27);
    assert K2()[8] == 0x983e5152;
    assert K2()[9] == 0xa831c66d;
    assert K2()[10] == 0xb00327c8;
    assert K2()[11] == 0xbf597fc7;
  }

  lemma {:induction false} Constants28To31()
    ensures ConstantIs(28, 0xc6e00bf3) && ConstantIs(29, 0xd5a79147)
    ensures ConstantIs(30, 0x06ca6351) && ConstantIs(31, 0x14292967)
  {
    ConstantAt(28);
    ConstantAt(29);
    ConstantAt(30);
    ConstantAt(31);
    assert K2()[12] == 0xc6e00bf3;
    assert K2()[13] == 0xd5a79147;
    assert K2()[14] == 0x06ca6351;
    assert K2()[15] == 0x14292967;
  }

  lemma {:induction false} Constants32To35()
    ensures ConstantIs(32, 0x27b70a85) && ConstantIs(33, 0x2e1b2138)
    ensures ConstantIs(34, 0x4d2c6dfc) && ConstantIs(35, 0x53380d13)
  {
    ConstantAt(32);
    ConstantAt(33);
    ConstantAt(34);
    ConstantAt(35);
    assert K3()[0] == 0x27b70a85;
    assert K3()[1] == 0x2e1b2138;
    assert K3()[2] == 0x4d2c6dfc;
    assert K3()[3] == 0x53380d13;
  }

  lemma {:induction false} Constants36To39()
    ensures ConstantIs(36, 0x650a7354) && ConstantIs(37, 0x766a0abb)
    ensures ConstantIs(38, 0x81c2c92e) && ConstantIs(39, 0x92722c85)
  {
    ConstantAt(36);
    ConstantAt(37);
    ConstantAt(38);
    ConstantAt(39);
    assert K3()[4] == 0x650a7354;
    assert K3()[5] == 0x766a0abb;
    assert K3()[6] == 0x81c2c92e;
    assert K3()[7] == 0x92722c85;
  }

  lemma {:induction false} Constants40To43()
    ensures ConstantIs(40, 0xa2bfe8a1) && ConstantIs(41, 0xa81a664b)
    ensures ConstantIs(42, 0xc24b8b70) && ConstantIs(43, 0xc76c51a3)
  {
    ConstantAt(40);
    ConstantAt(41);
    ConstantAt(42);
    ConstantAt(43);
    assert K3()[8] == 0xa2bfe8a1;
    assert K3()[9] == 0xa81a664b;
    assert K3()[10] == 0xc24b8b70;
    assert K3()[11] == 0xc76c51a3;
  }

  lemma {:induction false} Constants44To47()
    ensures ConstantIs(44, 0xd192e819) && ConstantIs(45, 0xd6990624)
    ensures ConstantIs(46, 0xf40e3585) && ConstantIs(47, 0x106aa070)
  {
    ConstantAt(44);
    ConstantAt(45);
    ConstantAt(46);
    ConstantAt(47);
    assert K3()[12] == 0xd192e819;
    assert K3()[13] == 0xd6990624;
    assert K3()[14] == 0xf40e3585;
    assert K3()[15] == 0x106aa070;
  }

  lemma {:induction false} Constants48To51()
    ensures ConstantIs(48, 0x19a4c116) && ConstantIs(49, 0x1e376c08)
    ensures ConstantIs(50, 0x2748774c) && ConstantIs(51, 0x34b0bcb5)
  {
    ConstantAt(48);
    ConstantAt(49);
    ConstantAt(50);
    ConstantAt(51);
    assert K4()[0] == 0x19a4c116;
    assert K4()[1] == 0x1e376c08;
    assert K4()[2] == 0x2748774c;
    assert K4()[3] == 0x34b0bcb5;
  }

  lemma {:induction false} Constants52To55()
    ensures ConstantIs(52, 0x391c0cb3) && ConstantIs(53, 0x4ed8aa4a)
    ensures ConstantIs(54, 0x5b9cca4f) && ConstantIs(55, 0x682e6ff3)
  {
    ConstantAt(52);
    ConstantAt(53);
    ConstantAt(54);
    ConstantAt(55);
    assert K4()[4] == 0x391c0cb3;
    assert K4()[5] == 0x4ed8aa4a;
    assert K4()[6] == 0x5b9cca4f;
    assert K4()[7] == 0x682e6ff3;
  }

  lemma {:induction false} Constants56To59()
    ensures ConstantIs(56, 0x748f82ee) && ConstantIs(57, 0x78a5636f)
    ensures ConstantIs(58, 0x84c87814) && ConstantIs(59, 0x8cc70208)
  {
    ConstantAt(56);
    ConstantAt(57);
    ConstantAt(58);
    ConstantAt(59);
    assert K4()[8] == 0x748f82ee;
    assert K4()[9] == 0x78a5636f;
    assert K4()[10] == 0x84c87814;
    assert K4()[11] == 0x8cc70208;
  }

  lemma {:induction false} Constants60To63()
    ensures ConstantIs(60, 0x90befffa) && ConstantIs(61, 0xa4506ceb)
    ensures ConstantIs(62, 0xbef9a3f7) && ConstantIs(63, 0xc67178f2)
  {
    ConstantAt(60);
    ConstantAt(61);
    ConstantAt(62);
    ConstantAt(63);
    assert K4()[12] == 0x90befffa;
    assert K4()[13] == 0xa4506ceb;
    assert K4()[14] == 0xbef9a3f7;
    assert K4()[15] == 0xc67178f2;
  }

  lemma {:induction false} CubeRoots0To3(i: nat)
    requires 0 <= i < 4
    ensures RootAt(i)
  {
    Primes2To7();
    Constants0To3();
    if i == 0 {
      Rooted(0, 2, 1, 0x428a2f98);
    } else if i == 1 {
      Rooted(1, 3, 1, 0x71374491);
    } else if i == 2 {
      Rooted(2, 5, 1, 0xb5c0fbcf);
    } else {
      Rooted(3, 7, 1, 0xe9b5dba5);
    }
  }

  lemma {:induction false} CubeRoots4To7(i: nat)
    requires 4 <= i < 8
    ensures RootAt(i)
  {
    Primes11To19();
    Constants4To7();
    if i == 4 {
      Rooted(4, 11, 2, 0x3956c25b);
    } else if i == 5 {
      Rooted(5, 13, 2, 0x59f111f1);
    } else if i == 6 {
      Rooted(6, 17, 2, 0x923f82a4);
    } else {
      Rooted(7, 19, 2, 0xab1c5ed5);
    }
  }

  lemma {:induction false} CubeRoots8To11(i: nat)
    requires 8 <= i < 12
    ensures RootAt(i)
  {
    Primes23To37();
    Constants8To11();
    if i == 8 {
      Rooted(8, 23, 2, 0xd807aa98);
    } else if i == 9 {
      Rooted(9, 29, 3, 0x12835b01);
    } else if i == 10 {
      Rooted(10, 31, 3, 0x243185be);
    } else {
      Rooted(11, 37, 3, 0x550c7dc3);
    }
  }

  lemma {:induction false} CubeRoots12To15(i: nat)
    requires 12 <= i < 16
    ensures RootAt(i)
  {
    Primes41To53();
    Constants12To15();
    if i == 12 {
      Rooted(12, 41, 3, 0x72be5d74);
    } else if i == 13 {
      Rooted(13, 43, 3, 0x80deb1fe);
    } else if i == 14 {
      Rooted(14, 47, 3, 0x9bdc06a7);
    } else {
      Rooted(15, 53, 3, 0xc19bf174);
    }
  }

  lemma {:induction false} CubeRoots16To19(i: nat)
    requires 16 <= i < 20
    ensures RootAt(i)
  {
    Primes59To71();
    Constants16To19();
    if i == 16 {
      Rooted(16, 59, 3, 0xe49b69c1);
    } else if i == 17 {
      Rooted(17, 61, 3, 0xefbe4786);
    } else if i == 18 {
      Rooted(18, 67, 4, 0x0fc19dc6);
    } else {
      Rooted(19, 71, 4, 0x240ca1cc);
    }
  }

  lemma {:induction false} CubeRoots20To23(i: nat)
    requires 20 <= i < 24
    ensures RootAt(i)
  {
    Primes73To89();
    Constants20To23();
    if i == 20 {
      Rooted(20, 73, 4, 0x2de92c6f);
    } else if i == 21 {
      Rooted(21, 79, 4, 0x4a7484aa);
    } else if i == 22 {
      Rooted(22, 83, 4, 0x5cb0a9dc);
    } else {
      Rooted(23, 89, 4, 0x76f988da);
    }
  }

  lemma {:induction false} CubeRoots24To27(i: nat)
    requires 24 <= i < 28
    ensures RootAt(i)
  {
    Primes97To107();
    Constants24To27();
    if i == 24 {
      Rooted(24, 97, 4, 0x983e5152);
    } else if i == 25 {
      Rooted(25, 101, 4, 0xa831c66d);
    } else if i == 26 {
      Rooted(26, 103, 4, 0xb00327c8);
    } else {
      Rooted(27, 107, 4, 0xbf597fc7);
    }
  }

  lemma {:induction false} CubeRoots28To31(i: nat)
    requires 28 <= i < 32
    ensures RootAt(i)
  {
    Primes109To131();
    Constants28To31();
    if i == 28 {
      Rooted(28, 109, 4, 0xc6e00bf3);
    } else if i == 29 {
      Rooted(29, 113, 4, 0xd5a79147);
    } else if i == 30 {
      Rooted(30, 127, 5, 0x06ca6351);
    } else {
      Rooted(31, 131, 5, 0x14292967);
    }
  }

  lemma {:induction false} CubeRoots32To35(i: nat)
    requires 32 <= i < 36
    ensures RootAt(i)
  {
    Primes137To151();
    Constants32To35();
    if i == 32 {
      Rooted(32, 137, 5, 0x27b70a85);
    } else if i == 33 {
      Rooted(33, 139, 5, 0x2e1b2138);
    } else if i == 34 {
      Rooted(34, 149, 5, 0x4d2c6dfc);
    } else {
      Rooted(35, 151, 5, 0x53380d13);
    }
  }

  lemma {:induction false} CubeRoots36To39(i: nat)
    requires 36 <= i < 40
    ensures RootAt(i)
  {
    Primes157To173();
    Constants36To39();
    if i == 36 {
      Rooted(36, 157, 5, 0x650a7354);
    } else if i == 37 {
      Rooted(37, 163, 5, 0x766a0abb);
    } else if i == 38 {
      Rooted(38, 167, 5, 0x81c2c92e);
    } else {
      Rooted(39, 173, 5, 0x92722c85);
    }
  }

  lemma {:induction false} CubeRoots40To43(i: nat)
    requires 40 <= i < 44
    ensures RootAt(i)
  {
    Primes179To193();
    Constants40To43();
    if i == 40 {
      Rooted(40, 179, 5, 0xa2bfe8a1);
    } else if i == 41 {
      Rooted(41, 181, 5, 0xa81a664b);
    } else if i == 42 {
      Rooted(42, 191, 5, 0xc24b8b70);
    } else {
      Rooted(43, 193, 5, 0xc76c51a3);
    }
  }

  lemma {:induction false} CubeRoots44To47(i: nat)
    requires 44 <= i < 48
    ensures RootAt(i)
  {
    Primes197To223();
    Constants44To47();
    if i == 44 {
      Rooted(44, 197, 5, 0xd192e819);
    } else if i == 45 {
      Rooted(45, 199, 5, 0xd6990624);
    } else if i == 46 {
      Rooted(46, 211, 5, 0xf40e3585);
    } else {
      Rooted(47, 223, 6, 0x106aa070);
    }
  }

  lemma {:induction false} CubeRoots48To51(i: nat)
    requires 48 <= i < 52
    ensures RootAt(i)
  {
    Primes227To239();
    Constants48To51();
    if i == 48 {
      Rooted(48, 227, 6, 0x19a4c116);
    } else if i == 49 {
      Rooted(49, 229, 6, 0x1e376c08);
    } else if i == 50 {
      Rooted(50, 233, 6, 0x2748774c);
    } else {
      Rooted(51, 239, 6, 0x34b0bcb5);
    }
  }

  lemma {:induction false} CubeRoots52To55(i: nat)
    requires 52 <= i < 56
    ensures RootAt(i)
  {
    Primes241To263();
    Constants52To55();
    if i == 52 {
      Rooted(52, 241, 6, 0x391c0cb3);
    } else if i == 53 {
      Rooted(53, 251, 6, 0x4ed8aa4a);
    } else if i == 54 {
      Rooted(54, 257, 6, 0x5b9cca4f);
    } else {
      Rooted(55, 263, 6, 0x682e6ff3);
    }
  }

  lemma {:induction false} CubeRoots56To59(i: nat)
    requires 56 <= i < 60
    ensures RootAt(i)
  {
    Primes269To281();
    Constants56To59();
    if i == 56 {
      Rooted(56, 269, 6, 0x748f82ee);
    } else if i == 57 {
      Rooted(57, 271, 6, 0x78a5636f);
    } else if i == 58 {
      Rooted(58, 277, 6, 0x84c87814);
    } else {
      Rooted(59, 281, 6, 0x8cc70208);
    }
  }

  lemma {:induction false} CubeRoots60To63(i: nat)
    requires 60 <= i < 64
    ensures RootAt(i)
  {
    Primes283To311();
    Constants60To63();
    if i == 60 {
      Rooted(60, 283, 6, 0x90befffa);
    } else if i == 61 {
      Rooted(61, 293, 6, 0xa4506ceb);
    } else if i == 62 {
      Rooted(62, 307, 6, 0xbef9a3f7);
    } else {
      Rooted(63, 311, 6, 0xc67178f2);
    }
  }

  lemma {:induction false} CubeRootsFrom0(i: nat)
    requires 0 <= i < 16
    ensures RootAt(i)
  {
    if i < 4 {
      CubeRoots0To3(i);
    } else if i < 8 {
      CubeRoots4To7(i);
    } else if i < 12 {
      CubeRoots8To11(i);
    } else {
      CubeRoots12To15(i);
    }
  }

  lemma {:induction false} CubeRootsFrom16(i: nat)
    requires 16 <= i < 32
    ensures RootAt(i)
  {
    if i < 20 {
      CubeRoots16To19(i);
    } else if i < 24 {
      CubeRoots20To23(i);
    } else if i < 28 {
      CubeRoots24To27(i);
    } else {
      CubeRoots28To31(i);
    }
  }

  lemma {:induction false} CubeRootsFrom32(i: nat)
    requires 32 <= i < 48
    ensures RootAt(i)
  {
    if i < 36 {
      CubeRoots32To35(i);
    } else if i < 40 {
      CubeRoots36To39(i);
    } else if i < 44 {
      CubeRoots40To43(i);
    } else {
      CubeRoots44To47(i);
    }
  }

  lemma {:induction false} CubeRootsFrom48(i: nat)
    requires 48 <= i < 64
    ensures RootAt(i)
  {
    if i < 52 {
      CubeRoots48To51(i);
    } else if i < 56 {
      CubeRoots52To55(i);
    } else if i < 60 {
      CubeRoots56To59(i);
    } else {
      CubeRoots60To63(i);
    }
  }

  lemma {:induction false} CubeRoots(i: nat)
    requires i < 64
    ensures RootAt(i)
  {
    if i < 16 {
      CubeRootsFrom0(i);
    } else if i < 32 {
      CubeRootsFrom16(i);
    } else if i < 48 {
      CubeRootsFrom32(i);
    } else {
      CubeRootsFrom48(i);
    }
  }

  /** Section 4.2.2: each constant has the first 32 bits of the fractional part of the cube root of
      the prime at its place. */
  lemma {:induction false} ConstantsAreCubeRoots(i: nat)
    requires i < 64
    ensures exists p, m :: IsNthPrime(i, p) && CubeRootBits(p, m, K()[i])
  {
    CubeRoots(i);
    var p :| IsNthPrime(i, p) && IsCubeRootOf(p, K()[i]);
    var m :| CubeRootBits(p, m, K()[i]);
  }

  /** Section 5.3.3: the initial digest has the first 32 bits of the fractional parts of the square
      roots of the first eight primes. */
  lemma {:induction false} InitialIsSquareRoots()
    ensures var h := Initial();
            && IsNthPrime(0, 2) && SquareRootBits(2, 1, h.a)
            && IsNthPrime(1, 3) && SquareRootBits(3, 1, h.b)
            && IsNthPrime(2, 5) && SquareRootBits(5, 2, h.c)
            && IsNthPrime(3, 7) && SquareRootBits(7, 2, h.d)
            && IsNthPrime(4, 11) && SquareRootBits(11, 3, h.e)
            && IsNthPrime(5, 13) && SquareRootBits(13, 3, h.f)
            && IsNthPrime(6, 17) && SquareRootBits(17, 4, h.g)
            && IsNthPrime(7, 19) && SquareRootBits(19, 4, h.h)
  {
    Primes2To7();
    Primes11To19();
  }
}
