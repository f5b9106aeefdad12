/** The block function as the program computes it: on 64-bit words, with sums that are wider
    than 32 bits and masked late. */
module Sha256Block {
  import opened Bits
  import opened Sha256Spec

  /** A word_t. */
  type Wide = x: nat | x < 0x1_0000_0000_0000_0000

  /** The word and 0xffffffff. */
  function Masked(x: Wide): (r: Wide) {
    x % WORDS
  }

  lemma {:induction false} MaskedIsAnd(x: Wide)
    ensures Masked(x) == And(x, 0xffff_ffff)
  {
    Pow2Values();
    AndMask(x, 32);
  }

  /** Every bit of a word_t flipped. */
  function Complement(x: Wide): (r: Wide) {
    LENGTHS - 1 - x
  }

  function WideXor(x: Wide, y: Wide): (r: Wide)
    ensures r == Xor(x, y)
  {
    Pow2Values();
    XorBelow(x, y, 64);
    Xor(x, y)
  }

  function WideAnd(x: Wide, y: Wide): (r: Wide)
    ensures r == And(x, y)
  {
    AndBelow(x, y);
    And(x, y)
  }

  function WideOr(x: Wide, y: Wide): (r: Wide)
    ensures r == Or(x, y)
  {
    Pow2Values();
    OrBelow(x, y, 64);
    Or(x, y)
  }

  lemma {:induction false} OrBelow(x: nat, y: nat, k: nat)
    requires x < Pow2(k) && y < Pow2(k)
    ensures Or(x, y) < Pow2(k)
    decreases k
  {
    if x > 0 && k > 0 {
      HalfBelow(x, k);
      HalfBelow(y, k);
      OrBelow(x / 2, y / 2, k - 1);
    }
  }

  function WideShR(x: Wide, n: nat): (r: Wide) {
    QuotientAtMost(x, Pow2(n));
    x / Pow2(n)
  }

  function WideShL(x: Wide, n: nat): (r: Wide) {
    Pow2(n) * x % LENGTHS
  }

  function WideCh(x: Wide, y: Wide, z: Wide): (r: Wide) {
    WideXor(WideAnd(x, y), WideAnd(Complement(x), z))
  }

  function WideMaj(x: Wide, y: Wide, z: Wide): (r: Wide) {
    WideXor(WideXor(WideAnd(x, y), WideAnd(x, z)), WideAnd(y, z))
  }

  function WideRotR(x: Wide, n: nat): (r: Wide)
    requires n < 32
  {
    Masked(WideOr(WideShR(x, n), WideShL(x, 32 - n)))
  }

  function WideBigSigma0(x: Wide): (r: Wide) { WideXor(WideXor(WideRotR(x, 2), WideRotR(x, 13)), WideRotR(x, 22)) }

  function WideBigSigma1(x: Wide): (r: Wide) { WideXor(WideXor(WideRotR(x, 6), WideRotR(x, 11)), WideRotR(x, 25)) }

  function WideSmallSigma0(x: Wide): (r: Wide) { WideXor(WideXor(WideRotR(x, 7), WideRotR(x, 18)), WideShR(x, 3)) }

  function WideSmallSigma1(x: Wide): (r: Wide) { WideXor(WideXor(WideRotR(x, 17), WideRotR(x, 19)), WideShR(x, 10)) }

  // ----- the functions on words that are below 2^32 -----

  /** The complement has high bits, but they meet none. */
  lemma {:induction false} ChNarrow(x: Word, y: Word, z: Word)
    ensures WideCh(x, y, z) == Ch(x, y, z)
  {
    ComplementMeets(x, z);
  }

  lemma {:induction false} ComplementMeets(x: Word, z: Word)
    ensures And(Complement(x), z) == And(Not(x), z)
  {
    Pow2Values();
    LowComplement(x);
    AndLow(Complement(x), z, 32);
  }

  lemma {:induction false} LowComplement(x: Word)
    ensures Complement(x) % Pow2(32) == Not(x)
  {
    Pow2Values();
    RemainderIs(Complement(x), WORDS, WORDS - 1, Not(x));
  }

  lemma {:induction false} MajNarrow(x: Word, y: Word, z: Word)
    ensures WideMaj(x, y, z) == Maj(x, y, z)
  {
  }

  /** What is shifted out to the left is masked away. */
  lemma {:induction false} RotNarrow(x: Word, n: nat)
    requires 0 < n < 32
    ensures WideRotR(x, n) == RotR(x, n)
  {
    ShiftsJoined(x, n);
    MaskedJoin(x, n);
  }

  lemma {:induction false} ShiftsJoined(x: Word, n: nat)
    requires 0 < n < 32
    ensures WideOr(WideShR(x, n), WideShL(x, 32 - n)) == x / Pow2(n) + Pow2(32 - n) * x
  {
    ShiftedLeft(x, n);
    LowBelow(x, n);
    OrDisjoint(WideShR(x, n), x, 32 - n);
  }

  lemma {:induction false} LowBelow(x: Word, n: nat)
    requires 0 < n < 32
    ensures WideShR(x, n) < Pow2(32 - n)
  {
    RotatedBelow(x, n);
  }

  lemma {:induction false} ShiftedLeft(x: Word, n: nat)
    requires 0 < n < 32
    ensures WideShL(x, 32 - n) == Pow2(32 - n) * x
  {
    ShiftedBelow(x, n);
    Small(Pow2(32 - n) * x, LENGTHS);
  }

  lemma {:induction false} MaskedJoin(x: Word, n: nat)
    requires 0 < n < 32
    ensures (x / Pow2(n) + Pow2(32 - n) * x) % WORDS == RotR(x, n)
  {
    Pow2Values();
    Pow2Sum(32 - n, n);
    RotatedRemainder(x, Pow2(n), Pow2(32 - n));
  }

  lemma {:induction false} RotatedRemainder(x: nat, d: nat, e: nat)
    requires d > 0 && e > 0 && x < e * d
    ensures e * d > 0 && (x / d + e * x) % (e * d) == x / d + e * (x % d)
  {
    SplitBelow(x, d, e);
    Whole(x, d);
    ShiftedSplit(e, d, x / d, x % d);
    RemainderIs(x / d + e * x, e * d, x / d, x / d + e * (x % d));
  }

  lemma {:induction false} ShiftedBelow(x: Word, n: nat)
    requires 0 < n < 32
    ensures Pow2(32 - n) * x < LENGTHS
  {
    Pow2Values();
    Pow2Sum(32 - n, n);
    var high := Pow2(32 - n);
    MulAtLeast(high, Pow2(n));
    assert high <= WORDS;
    Distribute(high, WORDS, x);
    MulAtLeast(high, WORDS - x);
    Distribute(WORDS, WORDS, high);
    AtLeastNothing(WORDS, WORDS - high);
  }

  lemma {:induction false} AtLeastNothing(d: nat, m: nat)
    ensures d * m >= 0
  {
  }

  lemma {:induction false} ShiftedSplit(high: nat, low: nat, q: nat, r: nat)
    ensures high * (low * q + r) == (high * low) * q + high * r
  {
    assert high * (low * q + r) == high * (low * q) + high * r;
    assert high * (low * q) == (high * low) * q;
  }

  lemma {:induction false} SigmasNarrow(x: Word)
    ensures WideBigSigma0(x) == BigSigma0(x) && WideBigSigma1(x) == BigSigma1(x)
    ensures WideSmallSigma0(x) == SmallSigma0(x) && WideSmallSigma1(x) == SmallSigma1(x)
  {
    BigSigmasNarrow(x);
    RotNarrow(x, 7);
    RotNarrow(x, 18);
    RotNarrow(x, 17);
    RotNarrow(x, 19);
  }

  lemma {:induction false} BigSigmasNarrow(x: Word)
    ensures WideBigSigma0(x) == BigSigma0(x) && WideBigSigma1(x) == BigSigma1(x)
  {
    RotNarrow(x, 2);
    RotNarrow(x, 13);
    RotNarrow(x, 22);
    RotNarrow(x, 6);
    RotNarrow(x, 11);
    RotNarrow(x, 25);
  }

  // ----- loading the block -----

  /** Four bytes, shifted into place and joined. */
  function Load(b0: Byte, b1: Byte, b2: Byte, b3: Byte): (r: Wide) {
    WideOr(WideOr(WideOr(WideShL(b0, 24), WideShL(b1, 16)), WideShL(b2, 8)), b3)
  }

  lemma {:induction false} LoadIsSum(b0: Byte, b1: Byte, b2: Byte, b3: Byte)
    ensures Load(b0, b1, b2, b3) == 0x100_0000 * b0 + 0x1_0000 * b1 + 0x100 * b2 + b3
  {
    InPlace(b0, b1, b2);
    JoinBytes(b0, b1, b2, b3);
  }

  lemma {:induction false} InPlace(b0: Byte, b1: Byte, b2: Byte)
    ensures WideShL(b0, 24) == 0x100_0000 * b0 && WideShL(b1, 16) == 0x1_0000 * b1 && WideShL(b2, 8) == 0x100 * b2
  {
    Pow2Values();
    Small(0x100_0000 * b0, LENGTHS);
    Small(0x1_0000 * b1, LENGTHS);
    Small(0x100 * b2, LENGTHS);
  }

  lemma {:induction false} JoinBytes(b0: Byte, b1: Byte, b2: Byte, b3: Byte)
    ensures Or(Or(Or(0x100_0000 * b0, 0x1_0000 * b1), 0x100 * b2), b3)
        == 0x100_0000 * b0 + 0x1_0000 * b1 + 0x100 * b2 + b3
  {
    JoinFirst(b0, b1);
    JoinSecond(0x100 * b0 + b1, b2);
    JoinThird(0x1_0000 * b0 + 0x100 * b1 + b2, b3);
  }

  lemma {:induction false} JoinFirst(b0: Byte, b1: Byte)
    ensures Or(0x100_0000 * b0, 0x1_0000 * b1) == 0x1_0000 * (0x100 * b0 + b1)
  {
    Pow2Values();
    Join(0x100_0000, b0, 0x1_0000 * b1, 24);
  }

  lemma {:induction false} JoinSecond(high: nat, b2: Byte)
    ensures Or(0x1_0000 * high, 0x100 * b2) == 0x100 * (0x100 * high + b2)
  {
    Pow2Values();
    Join(0x1_0000, high, 0x100 * b2, 16);
  }

  lemma {:induction false} JoinThird(high: nat, b3: Byte)
    ensures Or(0x100 * high, b3) == 0x100 * high + b3
  {
    Pow2Values();
    Join(0x100, high, b3, 8);
  }

  lemma {:induction false} Join(p: nat, high: nat, low: nat, k: nat)
    requires p == Pow2(k) && low < p
    ensures Or(p * high, low) == p * high + low
  {
    OrCommutes(p * high, low);
    OrDisjoint(low, high, k);
  }

  // ----- the block function -----

  function Program(): (p: Functions<Wide>) {
    var k: seq<Wide> := K();
    Functions(k, WideCh, WideMaj, WideBigSigma0, WideBigSigma1, WideSmallSigma0, WideSmallSigma1)
  }

  /** On words below 2^32, the functions of the program are those of the standard. */
  ghost predicate Agree(p: Functions<Wide>, q: Standards) {
    && p.k == q.k
    && (forall x: Word :: p.bigSigma0(x) == q.bigSigma0(x) && p.bigSigma1(x) == q.bigSigma1(x))
    && (forall x: Word :: p.smallSigma0(x) == q.smallSigma0(x) && p.smallSigma1(x) == q.smallSigma1(x))
    && (forall x: Word, y: Word, z: Word :: p.ch(x, y, z) == q.ch(x, y, z))
    && (forall x: Word, y: Word, z: Word :: p.maj(x, y, z) == q.maj(x, y, z))
  }

  lemma {:induction false} ProgramAgrees()
    ensures Agree(Program(), Standard())
  {
    forall x: Word
      ensures WideBigSigma0(x) == BigSigma0(x) && WideBigSigma1(x) == BigSigma1(x)
      ensures WideSmallSigma0(x) == SmallSigma0(x) && WideSmallSigma1(x) == SmallSigma1(x)
    {
      SigmasNarrow(x);
    }
    forall x: Word, y: Word, z: Word ensures WideCh(x, y, z) == Ch(x, y, z) && WideMaj(x, y, z) == Maj(x, y, z) {
      ChNarrow(x, y, z);
      MajNarrow(x, y, z);
    }
  }

  function Words(d: Digest): (r: seq<Wide>)
    ensures |r| == 8
  {
    [d.a, d.b, d.c, d.d, d.e, d.f, d.g, d.h]
  }

  function Temp1(p: Functions<Wide>, e: Wide, f: Wide, g: Wide, h: Wide, k: Wide, w: Wide): (r: Wide) {
    (h + p.bigSigma1(e) + p.ch(e, f, g) + k + w) % LENGTHS
  }

  function Temp2(p: Functions<Wide>, a: Wide, b: Wide, c: Wide): (r: Wide) {
    (p.bigSigma0(a) + p.maj(a, b, c)) % LENGTHS
  }

  function MaskedSum(x: Wide, y: Wide): (r: Wide) {
    Masked((x + y) % LENGTHS)
  }

  /** The sums do not reach 2^64, and masking them late changes nothing. */
  lemma {:induction false} RoundNarrow(p: Functions<Wide>, q: Standards, s: Digest, k: Word, w: Word)
    requires Agree(p, q)
    ensures var temp1 := Temp1(p, s.e, s.f, s.g, s.h, k, w);
            var temp2 := Temp2(p, s.a, s.b, s.c);
            Words(Round(q, s, k, w)) == [MaskedSum(temp1, temp2), s.a, s.b, s.c, MaskedSum(s.d, temp1), s.e, s.f, s.g]
  {
    SumsNarrow(s.h + q.bigSigma1(s.e) + q.ch(s.e, s.f, s.g) + k + w, q.bigSigma0(s.a) + q.maj(s.a, s.b, s.c), s.d);
  }

  lemma {:induction false} WordsAre(s: Digest, v: seq<Wide>)
    requires v == Words(s)
    ensures v[0] == s.a && v[1] == s.b && v[2] == s.c && v[3] == s.d && v[4] == s.e && v[5] == s.f && v[6] == s.g
    ensures v[7] == s.h
  {
  }

  lemma {:induction false} SumsNarrow(x: nat, y: nat, d: Word)
    requires x < 5 * WORDS && y < 2 * WORDS
    ensures Masked((x % LENGTHS + y % LENGTHS) % LENGTHS) == Plus(x % WORDS, y % WORDS)
    ensures Masked((d + x % LENGTHS) % LENGTHS) == Plus(d, x % WORDS)
  {
    Small(x, LENGTHS);
    Small(y, LENGTHS);
    Small(x + y, LENGTHS);
    Small(d + x, LENGTHS);
    SumOfRemainders(x, y);
    SumOfRemainders(d, x);
    Small(d, WORDS);
  }

  lemma {:induction false} SumOfRemainders(x: nat, y: nat)
    ensures (x % WORDS + y % WORDS) % WORDS == (x + y) % WORDS
  {
  }

  function NextWord(p: Functions<Wide>, w2: Wide, w7: Wide, w15: Wide, w16: Wide): (r: Wide) {
    Masked((p.smallSigma1(w2) + w7 + p.smallSigma0(w15) + w16) % LENGTHS)
  }

  lemma {:induction false} ScheduleNarrow(p: Functions<Wide>, q: Standards, m: Block, t: nat)
    requires Agree(p, q) && 16 <= t < 64
    ensures Schedule(q, m, t)
            == NextWord(p, Schedule(q, m, t - 2), Schedule(q, m, t - 7), Schedule(q, m, t - 15), Schedule(q, m, t - 16))
  {
    Small(q.smallSigma1(Schedule(q, m, t - 2)) + Schedule(q, m, t - 7)
          + q.smallSigma0(Schedule(q, m, t - 15)) + Schedule(q, m, t - 16), LENGTHS);
  }

  method LoadWord(ghost q: Standards, m: Block, t: nat) returns (x: Wide)
    requires t < 16
    ensures x == Schedule(q, m, t)
  {
    LoadIsSum(m[4 * t], m[4 * t + 1], m[4 * t + 2], m[4 * t + 3]);
    x := Load(m[4 * t], m[4 * t + 1], m[4 * t + 2], m[4 * t + 3]);
  }

  /** The first words of the message schedule. */
  ghost function Schedules(q: Standards, m: Block, n: nat): (r: seq<Wide>)
    requires n <= 64
    ensures |r| == n
  {
    if n == 0 then [] else Schedules(q, m, n - 1) + [Schedule(q, m, n - 1)]
  }

  lemma {:induction false} SchedulesAt(q: Standards, m: Block, n: nat, t: nat)
    requires t < n <= 64
    ensures Schedules(q, m, n)[t] == Schedule(q, m, t)
    decreases n
  {
    if t < n - 1 { SchedulesAt(q, m, n - 1, t); }
  }

  lemma {:induction false} ScheduleFromBefore(p: Functions<Wide>, q: Standards, m: Block, t: nat)
    requires Agree(p, q) && 16 <= t < 64
    ensures var v := Schedules(q, m, t);
            Schedule(q, m, t) == NextWord(p, v[t - 2], v[t - 7], v[t - 15], v[t - 16])
  {
    ScheduleNarrow(p, q, m, t);
    SchedulesAt(q, m, t, t - 2);
    SchedulesAt(q, m, t, t - 7);
    SchedulesAt(q, m, t, t - 15);
    SchedulesAt(q, m, t, t - 16);
  }

  method MessageSchedule(p: Functions<Wide>, ghost q: Standards, m: Block) returns (w: array<Wide>)
    requires Agree(p, q)
    ensures fresh(w) && w.Length == 64 && w[..] == Schedules(q, m, w.Length)
  {
    w := new Wide[64](i => 0);
    for i := 0 to 16
      invariant w[..i] == Schedules(q, m, i)
    {
      var x := LoadWord(q, m, i);
      w[i] := x;
      assert w[..i + 1] == w[..i] + [x];
    }
    for i := 16 to 64
      invariant w[..i] == Schedules(q, m, i)
    {
      ScheduleFromBefore(p, q, m, i);
      ghost var v := w[..i];
      assert w[i - 2] == v[i - 2] && w[i - 7] == v[i - 7] && w[i - 15] == v[i - 15] && w[i - 16] == v[i - 16];
      var x := NextWord(p, w[i - 2], w[i - 7], w[i - 15], w[i - 16]);
      w[i] := x;
      assert w[..i + 1] == v + [x];
    }
    assert w[..w.Length] == w[..];
  }

  /** Updates the digest by one block: the result is the one of section 6.2.2 of FIPS 180-4,
      and every word of it is below 2^32. */
  method HashBlock(p: Functions<Wide>, ghost q: Standards, digest: array<Wide>, m: Block, ghost start: Digest)
    requires Agree(p, q) && digest[..] == Words(start)
    modifies digest
    ensures digest[..] == Words(Compress(q, start, m))
  {
    var w := MessageSchedule(p, q, m);
    ghost var schedule := w[..];
    ghost var s := start;
    var a, b, c, d := digest[0], digest[1], digest[2], digest[3];
    var e, f, g, h := digest[4], digest[5], digest[6], digest[7];
    assert [a, b, c, d, e, f, g, h] == digest[..];
    for i := 0 to |p.k|
      invariant s == Rounds(q, start, m, i)
      invariant [a, b, c, d, e, f, g, h] == Words(s)
      invariant digest[..] == Words(start) && w[..] == schedule
    {
      SchedulesAt(q, m, |schedule|, i);
      assert w[i] == schedule[i];
      WordsAre(s, [a, b, c, d, e, f, g, h]);
      assert a == s.a && b == s.b && c == s.c && d == s.d && e == s.e && f == s.f && g == s.g && h == s.h;
      RoundNarrow(p, q, s, p.k[i], w[i]);
      var temp1 := Temp1(p, e, f, g, h, p.k[i], w[i]);
      var temp2 := Temp2(p, a, b, c);
      s := Round(q, s, p.k[i], w[i]);
      h := g;
      g := f;
      f := e;
      e := MaskedSum(d, temp1);
      d := c;
      c := b;
      b := a;
      a := MaskedSum(temp1, temp2);
      assert [a, b, c, d, e, f, g, h] == Words(s);
    }
    WordsNarrow(start);
    WordsNarrow(s);
    CompressedWords(q, start, m);
    AddUp(digest, [a, b, c, d, e, f, g, h]);
  }

  ghost predicate Narrow(v: seq<Wide>) {
    forall j :: 0 <= j < |v| ==> v[j] < WORDS
  }

  lemma {:induction false} WordsNarrow(d: Digest)
    ensures Narrow(Words(d))
  {
  }

  function Sums(v: seq<Wide>, u: seq<Wide>): (r: seq<Wide>)
    requires |v| == |u|
  {
    seq(|v|, j requires 0 <= j < |v| => (v[j] + u[j]) % WORDS)
  }

  lemma {:induction false} CompressedWords(q: Standards, h: Digest, m: Block)
    ensures Words(Compress(q, h, m)) == Sums(Words(h), Words(Rounds(q, h, m, |q.k|)))
  {
    AddedWords(h, Rounds(q, h, m, |q.k|));
  }

  lemma {:induction false} AddedWords(h: Digest, s: Digest)
    ensures Words(Added(h, s)) == Sums(Words(h), Words(s))
  {
    var v, u, r := Words(h), Words(s), Words(Added(h, s));
    WordsAre(h, v);
    WordsAre(s, u);
    WordsAre(Added(h, s), r);
    assert |Sums(v, u)| == 8;
    assert r[0] == Sums(v, u)[0] && r[1] == Sums(v, u)[1] && r[2] == Sums(v, u)[2] && r[3] == Sums(v, u)[3];
    assert r[4] == Sums(v, u)[4] && r[5] == Sums(v, u)[5] && r[6] == Sums(v, u)[6] && r[7] == Sums(v, u)[7];
  }

  /** Adds the words and masks the sums. */
  method AddUp(digest: array<Wide>, words: seq<Wide>)
    requires digest.Length == 8 == |words| && Narrow(digest[..]) && Narrow(words)
    modifies digest
    ensures digest[..] == Sums(old(digest[..]), words)
  {
    ghost var before := digest[..];
    assert forall j :: 0 <= j < 8 ==> digest[j] == before[j];
    for j := 0 to 8
      invariant forall i :: 0 <= i < j ==> digest[i] == before[i] + words[i]
      invariant forall i :: j <= i < 8 ==> digest[i] == before[i]
    {
      digest[j] := (digest[j] + words[j]) % LENGTHS;
    }
    for j := 0 to 8
      invariant forall i :: 0 <= i < j ==> digest[i] == Sums(before, words)[i]
      invariant forall i :: j <= i < 8 ==> digest[i] == before[i] + words[i]
    {
      digest[j] := Masked(digest[j]);
    }
  }

  /** The program's block function computes this compression. */
  ghost predicate Computes(p: Functions<Wide>, c: Compression) {
    exists q: Standards :: Agree(p, q)
        && forall h: Digest, m: Block {:trigger Compress(q, h, m)} :: c(h, m) == Compress(q, h, m)
  }

  lemma {:induction false} ProgramComputes()
    ensures Computes(Program(), CompressWith(Standard()))
  {
    ProgramAgrees();
  }

  method HashOneBlock(p: Functions<Wide>, ghost c: Compression, digest: array<Wide>, m: Block, ghost start: Digest)
    requires Computes(p, c) && digest[..] == Words(start)
    modifies digest
    ensures digest[..] == Words(c(start, m))
  {
    ghost var q: Standards :| Agree(p, q)
        && forall h: Digest, m: Block {:trigger Compress(q, h, m)} :: c(h, m) == Compress(q, h, m);
    HashBlock(p, q, digest, m, start);
  }
}
