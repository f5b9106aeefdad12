/** Whole hashes: a message in one piece, in any pieces, or read through a buffer. */
module Sha256Run {
  import opened Bits
  import opened BigEndians
  import opened Sha256Spec
  import opened Sha256Block
  import opened Sha256

  function Flatten(pieces: seq<seq<Byte>>): (r: seq<Byte>) {
    if pieces == [] then [] else Flatten(pieces[..|pieces| - 1]) + pieces[|pieces| - 1]
  }

  function LowByte(x: nat): (r: Byte) {
    x % 0x100
  }

  lemma {:induction false} ShiftedByByte(x: Wide, n: nat)
    ensures WideShR(x, n + 8) == WideShR(x, n) / 0x100
  {
    Pow2Values();
    Pow2Sum(n, 8);
    QuotientOfQuotient(x, Pow2(n), 0x100);
  }

  lemma {:induction false} NotShifted(x: Wide)
    ensures WideShR(x, 0) == x
  {
    RemainderIs(x, 1, x, 0);
  }

  lemma {:induction false} OneMoreByte(x: nat, n: nat)
    ensures BigEndian(x, n + 1) == BigEndian(x / 0x100, n) + [LowByte(x)]
  {
  }

  /** The word's bytes from the highest, each shifted down and cut off. */
  method WordBytes(x: Wide) returns (r: seq<Byte>)
    ensures r == BigEndian(x, WORD_BYTES)
  {
    r := [];
    for i := 0 to WORD_BYTES
      invariant r == BigEndian(WideShR(x, 32 - 8 * i), i)
    {
      ShiftedByByte(x, 24 - 8 * i);
      OneMoreByte(WideShR(x, 24 - 8 * i), i);
      r := r + [LowByte(WideShR(x, 24 - 8 * i))];
    }
    NotShifted(x);
  }

  function WordsOut(v: seq<nat>): (r: seq<Byte>) {
    if v == [] then [] else WordsOut(v[..|v| - 1]) + BigEndian(v[|v| - 1], WORD_BYTES)
  }

  lemma {:induction false} OutputIs(d: Digest)
    ensures WordsOut(Words(d)) == Output(d)
  {
    var v1 := [d.a];
    var v2 := v1 + [d.b];
    var v3 := v2 + [d.c];
    var v4 := v3 + [d.d];
    OneMoreOut([], d.a);
    OneMoreOut(v1, d.b);
    OneMoreOut(v2, d.c);
    OneMoreOut(v3, d.d);
    OutputIsAfter(d, v4);
  }

  lemma {:induction false} OutputIsAfter(d: Digest, v4: seq<nat>)
    requires v4 == [d.a, d.b, d.c, d.d]
    ensures WordsOut(Words(d))
            == WordsOut(v4) + BigEndian(d.e, WORD_BYTES) + BigEndian(d.f, WORD_BYTES)
               + BigEndian(d.g, WORD_BYTES) + BigEndian(d.h, WORD_BYTES)
  {
    var v5 := v4 + [d.e];
    var v6 := v5 + [d.f];
    var v7 := v6 + [d.g];
    OneMoreOut(v4, d.e);
    OneMoreOut(v5, d.f);
    OneMoreOut(v6, d.g);
    OneMoreOut(v7, d.h);
    assert Words(d) == v7 + [d.h];
  }

  lemma {:induction false} OneMoreOut(v: seq<nat>, x: nat)
    ensures WordsOut(v + [x]) == WordsOut(v) + BigEndian(x, WORD_BYTES)
  {
    assert (v + [x])[..|v|] == v;
  }

  method HashBytes(h: array<Wide>, ghost d: Digest) returns (r: seq<Byte>)
    requires h[..] == Words(d)
    ensures r == Output(d)
  {
    r := [];
    for k := 0 to 8
      invariant r == WordsOut(h[..k])
    {
      var bytes := WordBytes(h[k]);
      OneMoreOut(h[..k], h[k]);
      assert h[..k + 1] == h[..k] + [h[k]];
      r := r + bytes;
    }
    assert h[..8] == h[..];
    OutputIs(d);
  }

  method FinishHash(hasher: Hasher) returns (r: seq<Byte>)
    requires hasher.Valid() && hasher.compression == CompressWith(Standard())
    modifies hasher.h
    ensures r == Hash(hasher.seen)
  {
    hasher.Finish();
    r := HashBytes(hasher.h, Absorb(CompressWith(Standard()), Initial(), Pad(hasher.seen)));
  }

  method ProcessPieces(hasher: Hasher, pieces: seq<seq<Byte>>)
    requires hasher.Valid() && hasher.seen == []
    requires forall k :: 0 <= k < |pieces| ==> |pieces[k]| < 0x8000_0000_0000_0000
    modifies hasher, hasher.digits, hasher.h
    ensures hasher.Valid() && hasher.seen == Flatten(pieces)
  {
    for k := 0 to |pieces|
      invariant hasher.Valid() && hasher.seen == Flatten(pieces[..k])
    {
      hasher.Process(pieces[k]);
      assert pieces[..k + 1][..k] == pieces[..k];
    }
    assert pieces[..|pieces|] == pieces;
  }

  /** However the message is cut into pieces, the hash is that of FIPS 180-4. */
  method HashPieces(pieces: seq<seq<Byte>>) returns (r: seq<Byte>)
    requires forall k :: 0 <= k < |pieces| ==> |pieces[k]| < 0x8000_0000_0000_0000
    ensures r == Hash(Flatten(pieces))
  {
    ProgramComputes();
    var hasher := new Hasher(Program(), CompressWith(Standard()));
    ProcessPieces(hasher, pieces);
    r := FinishHash(hasher);
  }

  /** Fills the buffer as far as there is input. */
  method ReadSome(data: seq<Byte>, first: nat, size: nat) returns (taken: seq<Byte>)
    requires first <= |data|
    ensures |taken| == (if |data| - first < size then |data| - first else size) && taken == data[first..first + |taken|]
  {
    taken := [];
    while |taken| != size && first + |taken| != |data|
      invariant |taken| <= size && first + |taken| <= |data| && taken == data[first..first + |taken|]
      decreases size - |taken|
    {
      taken := taken + [data[first + |taken|]];
    }
  }

  lemma {:induction false} PieceTaken(data: seq<Byte>, first: nat, taken: seq<Byte>)
    requires first + |taken| <= |data| && taken == data[first..first + |taken|]
    ensures data[..first] + taken == data[..first + |taken|]
  {
  }

  method ProcessBuffered(hasher: Hasher, data: seq<Byte>, size: nat)
    requires hasher.Valid() && hasher.seen == [] && 0 < size < 0x8000_0000
    modifies hasher, hasher.digits, hasher.h
    ensures hasher.Valid() && hasher.seen == data
  {
    var first: nat := 0;
    while first != |data|
      invariant first <= |data| && hasher.Valid() && hasher.seen == data[..first]
      decreases |data| - first
    {
      var taken := ReadSome(data, first, size);
      PieceTaken(data, first, taken);
      first := first + |taken|;
      hasher.Process(taken);
    }
    assert data[..|data|] == data;
  }

  /** The form for input iterators, which reads through a buffer. */
  method HashBuffered(data: seq<Byte>, size: nat) returns (r: seq<Byte>)
    requires 0 < size < 0x8000_0000
    ensures r == Hash(data)
  {
    ProgramComputes();
    var hasher := new Hasher(Program(), CompressWith(Standard()));
    ProcessBuffered(hasher, data, size);
    r := FinishHash(hasher);
  }
}
