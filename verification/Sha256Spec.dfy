/** SHA-256 as FIPS 180-4 defines it, on words below 2^32. */
module Sha256Spec {
  import opened Bits
  import opened BigEndians

  const WORDS: nat := 0x1_0000_0000
  const LENGTHS: nat := 0x1_0000_0000_0000_0000

  const WORD_BYTES: nat := 4
  const LENGTH_BYTES: nat := 8

  type Word = x: nat | x < 0x1_0000_0000

  // ----- section 4.1.2: functions -----

  function Bitwise(x: nat, y: nat): (r: Word)
    requires x < WORDS && y < WORDS
    ensures r == Xor(x, y)
  {
    Pow2Values();
    XorBelow(x, y, 32);
    Xor(x, y)
  }

  function Meet(x: Word, y: Word): (r: Word)
    ensures r == And(x, y)
  {
    AndBelow(x, y);
    And(x, y)
  }

  function Not(x: Word): (r: Word) {
    WORDS - 1 - x
  }

  function Ch(x: Word, y: Word, z: Word): (r: Word) {
    Bitwise(Meet(x, y), Meet(Not(x), z))
  }

  function Maj(x: Word, y: Word, z: Word): (r: Word) {
    Bitwise(Bitwise(Meet(x, y), Meet(x, z)), Meet(y, z))
  }

  /** The low bits move above the others. */
  function RotR(x: Word, n: nat): (r: Word)
    requires 0 < n < 32
  {
    RotatedBelow(x, n);
    Rotated(x, n)
  }

  function Rotated(x: nat, n: nat): (r: nat)
    requires n < 32
  {
    Turned(x, Pow2(n), Pow2(32 - n))
  }

  function Turned(x: nat, d: nat, e: nat): (r: nat)
    requires d > 0
  {
    QuotientAtMost(x, d);
    Whole(x, d);
    x / d + Times(e, x % d)
  }

  function Times(a: nat, b: nat): (r: nat) {
    a * b
  }

  lemma {:induction false} RotatedBelow(x: Word, n: nat)
    requires 0 < n < 32
    ensures x / Pow2(n) < Pow2(32 - n)
    ensures Rotated(x, n) < 0x1_0000_0000
  {
    Pow2Values();
    Pow2Sum(32 - n, n);
    SplitBelow(x, Pow2(n), Pow2(32 - n));
  }

  lemma {:induction false} SplitBelow(x: nat, d: nat, e: nat)
    requires d > 0 && x < e * d
    ensures x / d < e && x / d + e * (x % d) < e * d
  {
    Whole(x, d);
    QuotientBelow(x, d, e);
    DigitsBelow(x / d, x % d, e, d);
  }

  lemma {:induction false} QuotientBelow(x: nat, d: nat, e: nat)
    requires d > 0 && x < e * d
    ensures x / d < e
  {
    Whole(x, d);
    Distribute(d, e, x / d);
    PositiveFactor(d, e - x / d);
  }

  lemma {:induction false} PositiveFactor(d: nat, m: int)
    requires d * m > 0
    ensures m > 0
  {
  }

  lemma {:induction false} DigitsBelow(low: nat, high: nat, d: nat, e: nat)
    requires low < d && high < e
    ensures low + d * high < d * e
  {
    Distribute(d, e, high);
    MulAtLeast(d, e - high);
  }

  function ShR(x: Word, n: nat): (r: Word) {
    QuotientAtMost(x, Pow2(n));
    x / Pow2(n)
  }

  lemma {:induction false} QuotientAtMost(x: nat, d: nat)
    requires d > 0
    ensures 0 <= x / d <= x
  {
    Whole(x, d);
    if x / d > 0 { MulAtLeast(x / d, d); }
  }

  function BigSigma0(x: Word): (r: Word) { Bitwise(Bitwise(RotR(x, 2), RotR(x, 13)), RotR(x, 22)) }

  function BigSigma1(x: Word): (r: Word) { Bitwise(Bitwise(RotR(x, 6), RotR(x, 11)), RotR(x, 25)) }

  function SmallSigma0(x: Word): (r: Word) { Bitwise(Bitwise(RotR(x, 7), RotR(x, 18)), ShR(x, 3)) }

  function SmallSigma1(x: Word): (r: Word) { Bitwise(Bitwise(RotR(x, 17), RotR(x, 19)), ShR(x, 10)) }

  // ----- section 4.2.2 and 5.3.3: constants -----

  function K(): (k: seq<Word>)
    ensures |k| == 64
  {
    K1() + K2() + K3() + K4()
  }

  function K1(): (k: seq<Word>)
    ensures |k| == 16
  {
    [0x428a2f98, 0x71374491, 0xb5c0fbcf, 0xe9b5dba5, 0x3956c25b, 0x59f111f1, 0x923f82a4, 0xab1c5ed5,
     0xd807aa98, 0x12835b01, 0x243185be, 0x550c7dc3, 0x72be5d74, 0x80deb1fe, 0x9bdc06a7, 0xc19bf174]
  }

  function K2(): (k: seq<Word>)
    ensures |k| == 16
  {
    [0xe49b69c1, 0xefbe4786, 0x0fc19dc6, 0x240ca1cc, 0x2de92c6f, 0x4a7484aa, 0x5cb0a9dc, 0x76f988da,
     0x983e5152, 0xa831c66d, 0xb00327c8, 0xbf597fc7, 0xc6e00bf3, 0xd5a79147, 0x06ca6351, 0x14292967]
  }

  function K3(): (k: seq<Word>)
    ensures |k| == 16
  {
    [0x27b70a85, 0x2e1b2138, 0x4d2c6dfc, 0x53380d13, 0x650a7354, 0x766a0abb, 0x81c2c92e, 0x92722c85,
     0xa2bfe8a1, 0xa81a664b, 0xc24b8b70, 0xc76c51a3, 0xd192e819, 0xd6990624, 0xf40e3585, 0x106aa070]
  }

  function K4(): (k: seq<Word>)
    ensures |k| == 16
  {
    [0x19a4c116, 0x1e376c08, 0x2748774c, 0x34b0bcb5, 0x391c0cb3, 0x4ed8aa4a, 0x5b9cca4f, 0x682e6ff3,
     0x748f82ee, 0x78a5636f, 0x84c87814, 0x8cc70208, 0x90befffa, 0xa4506ceb, 0xbef9a3f7, 0xc67178f2]
  }

  datatype Digest = Digest(a: Word, b: Word, c: Word, d: Word, e: Word, f: Word, g: Word, h: Word)

  function Initial(): (r: Digest) {
    Digest(0x6a09e667, 0xbb67ae85, 0x3c6ef372, 0xa54ff53a, 0x510e527f, 0x9b05688c, 0x1f83d9ab, 0x5be0cd19)
  }

  /** The logical functions and the constants, for the words of the standard or of a program. */
  datatype Functions<!W> = Functions(
    k: seq<W>,
    ch: (W, W, W) -> W, maj: (W, W, W) -> W,
    bigSigma0: W -> W, bigSigma1: W -> W, smallSigma0: W -> W, smallSigma1: W -> W)

  type Standards = q: Functions<Word> | |q.k| == 64 witness Standard()

  function Standard(): (q: Functions<Word>)
    ensures |q.k| == 64
  {
    Functions(K(), Ch, Maj, BigSigma0, BigSigma1, SmallSigma0, SmallSigma1)
  }

  // ----- section 6.2.2: one block -----

  type Block = b: seq<Byte> | |b| == 64 witness seq(64, i => 0)

  function Plus(x: Word, y: Word): (r: Word) {
    (x + y) % WORDS
  }

  /** A word of the message schedule. */
  function Schedule(q: Standards, m: Block, t: nat): (r: Word)
    requires t < 64
  {
    if t < 16 then 0x100_0000 * m[4 * t] + 0x1_0000 * m[4 * t + 1] + 0x100 * m[4 * t + 2] + m[4 * t + 3]
    else (q.smallSigma1(Schedule(q, m, t - 2)) + Schedule(q, m, t - 7)
          + q.smallSigma0(Schedule(q, m, t - 15)) + Schedule(q, m, t - 16)) % WORDS
  }

  function Round(q: Standards, s: Digest, k: Word, w: Word): (r: Digest) {
    var t1 := (s.h + q.bigSigma1(s.e) + q.ch(s.e, s.f, s.g) + k + w) % WORDS;
    var t2 := (q.bigSigma0(s.a) + q.maj(s.a, s.b, s.c)) % WORDS;
    Digest(Plus(t1, t2), s.a, s.b, s.c, Plus(s.d, t1), s.e, s.f, s.g)
  }

  /** The working variables after `t` rounds. */
  function Rounds(q: Standards, h: Digest, m: Block, t: nat): (r: Digest)
    requires t <= |q.k|
  {
    if t == 0 then h else Round(q, Rounds(q, h, m, t - 1), q.k[t - 1], Schedule(q, m, t - 1))
  }

  function Added(h: Digest, s: Digest): (r: Digest) {
    Digest(Plus(h.a, s.a), Plus(h.b, s.b), Plus(h.c, s.c), Plus(h.d, s.d),
           Plus(h.e, s.e), Plus(h.f, s.f), Plus(h.g, s.g), Plus(h.h, s.h))
  }

  function Compress(q: Standards, h: Digest, m: Block): (r: Digest) {
    Added(h, Rounds(q, h, m, |q.k|))
  }

  // ----- sections 5.1.1 and 6.2: a message -----

  /** The number of zero bytes between the mark and the length: the least that fills a block. */
  function Zeros(n: nat): (k: nat)
    ensures k < 64 && (n + 1 + k + 8) % 64 == 0
  {
    (119 - n % 64) % 64
  }

  function Pad(m: seq<Byte>): (r: seq<Byte>)
    ensures |r| % 64 == 0
  {
    m + [0x80] + seq(Zeros(|m|), i => 0) + BigEndian(8 * |m| % LENGTHS, LENGTH_BYTES)
  }

  type Compression = (Digest, Block) -> Digest

  function CompressWith(q: Standards): (c: Compression) {
    (h: Digest, m: Block) => Compress(q, h, m)
  }

  /** The digest after the blocks of a message, counted from its end. */
  function Absorb(c: Compression, h: Digest, m: seq<Byte>): (r: Digest)
    decreases |m|
  {
    if |m| < 64 then h else c(Absorb(c, h, m[..|m| - 64]), m[|m| - 64..])
  }

  function Hash(m: seq<Byte>): (r: seq<Byte>)
    ensures |r| == 32
  {
    Output(Absorb(CompressWith(Standard()), Initial(), Pad(m)))
  }

  function Output(h: Digest): (r: seq<Byte>)
    ensures |r| == 32
  {
    BigEndian(h.a, WORD_BYTES) + BigEndian(h.b, WORD_BYTES) + BigEndian(h.c, WORD_BYTES) + BigEndian(h.d, WORD_BYTES)
    + BigEndian(h.e, WORD_BYTES) + BigEndian(h.f, WORD_BYTES) + BigEndian(h.g, WORD_BYTES) + BigEndian(h.h, WORD_BYTES)
  }

  // ----- facts -----

  lemma {:induction false} AbsorbBlock(c: Compression, h: Digest, m: seq<Byte>, b: Block)
    ensures Absorb(c, h, m + b) == c(Absorb(c, h, m), b)
  {
    assert (m + b)[..|m + b| - 64] == m && (m + b)[|m + b| - 64..] == b;
  }

  /** Different messages have different padded forms, up to the length that 64 bits can count. */
  lemma {:induction false} PadInjective(m: seq<Byte>, n: seq<Byte>)
    requires 8 * |m| < LENGTHS && 8 * |n| < LENGTHS && Pad(m) == Pad(n)
    ensures m == n
  {
    Pow2Values();
    PadParts(m);
    PadParts(n);
    BigEndianInjective(8 * |m|, 8 * |n|, LENGTH_BYTES);
  }

  lemma {:induction false} PadParts(m: seq<Byte>)
    requires 8 * |m| < LENGTHS
    ensures var p := Pad(m); |p| >= 8 + |m| && p[|p| - 8..] == BigEndian(8 * |m|, LENGTH_BYTES) && p[..|m|] == m
  {
    Small(8 * |m|, LENGTHS);
    var tail := [0x80] + seq(Zeros(|m|), i => 0);
    assert Pad(m) == m + tail + BigEndian(8 * |m|, LENGTH_BYTES);
  }
}
