/** The streaming hasher: bytes come in pieces, and the hash is that of all of them. */
module Sha256 {
  import opened Bits
  import opened BigEndians
  import opened Sha256Spec
  import opened Sha256Block
  import opened Sha256Length

  // ----- the last blocks -----

  function Nothing(n: nat): (r: seq<Byte>)
    ensures |r| == n
  {
    seq(n, i => 0)
  }

  function LengthBytes(n: nat): (r: seq<Byte>)
    ensures |r| == 8
  {
    BigEndian(8 * n % LENGTHS, LENGTH_BYTES)
  }

  /** What `finish` appends to the blocks hashed so far, for the bytes left in the buffer. */
  function Ending(rest: seq<Byte>, n: nat): (r: seq<Byte>)
    requires |rest| < 64
    ensures |r| % 64 == 0
  {
    if |rest| > 55 then rest + [0x80] + Nothing(63 - |rest|) + (Nothing(56) + LengthBytes(n))
    else rest + [0x80] + Nothing(55 - |rest|) + LengthBytes(n)
  }

  /** Both ways to finish append what section 5.1.1 of FIPS 180-4 asks for. */
  lemma {:induction false} EndingPads(whole: seq<Byte>, rest: seq<Byte>, blocks: nat)
    requires |whole| == 64 * blocks && |rest| < 64
    ensures Pad(whole + rest) == whole + Ending(rest, |whole + rest|)
  {
    var n := |whole + rest|;
    ZerosAre(n, blocks, |rest|);
    PadIs(whole + rest);
    if |rest| > 55 {
      Regrouped(whole, rest, 63 - |rest|, 56, LengthBytes(n));
    } else {
      Regrouped(whole, rest, 55 - |rest|, 0, LengthBytes(n));
      assert Nothing(0) + LengthBytes(n) == LengthBytes(n);
    }
  }

  lemma {:induction false} PadIs(m: seq<Byte>)
    ensures Pad(m) == m + [0x80] + Nothing(Zeros(|m|)) + LengthBytes(|m|)
  {
  }

  lemma {:induction false} Regrouped(whole: seq<Byte>, rest: seq<Byte>, j: nat, k: nat, length: seq<Byte>)
    ensures whole + rest + [0x80] + Nothing(j + k) + length
        == whole + (rest + [0x80] + Nothing(j) + (Nothing(k) + length))
  {
    assert Nothing(j + k) == Nothing(j) + Nothing(k);
  }

  lemma {:induction false} ZerosAre(n: nat, blocks: nat, r: nat)
    requires r < 64 && n == 64 * blocks + r
    ensures Zeros(n) == if r > 55 then 119 - r else 55 - r
  {
  }

  /** The first `i` bytes of the buffer go over to the whole blocks. */
  lemma {:induction false} Advanced(seen: seq<Byte>, whole: seq<Byte>, buffer: seq<Byte>, i: nat)
    requires seen == whole + buffer && i <= |buffer|
    ensures |buffer[i..]| <= |seen| && seen[..|seen| - |buffer[i..]|] == whole + buffer[..i]
    ensures seen == whole + buffer[..i] + buffer[i..]
  {
  }

  lemma {:induction false} Rejoined(whole: seq<Byte>, buffer: seq<Byte>, data: seq<Byte>)
    ensures whole + buffer + data == whole + (buffer + data)
  {
  }

  class Hasher {
    const program: Functions<Wide>
    ghost const compression: Compression
    var buffer: seq<Byte>
    const digits: array<Wide>
    const h: array<Wide>
    ghost var seen: seq<Byte>
    ghost var blocks: nat

    ghost function Whole(): (r: seq<Byte>)
      reads this
    {
      if |buffer| <= |seen| then seen[..|seen| - |buffer|] else []
    }

    /** The blocks of what was seen are in the digest, the rest in the buffer. */
    ghost predicate Valid()
      reads this, digits, h
    {
      && Computes(program, compression) && digits != h
      && |buffer| < 64 && |Whole()| == 64 * blocks && seen == Whole() + buffer
      && h[..] == Words(Absorb(compression, Initial(), Whole()))
      && AreDigits(digits[..]) && Value(digits[..]) == |seen| % LENGTHS
    }

    constructor (program: Functions<Wide>, ghost compression: Compression)
      requires Computes(program, compression)
      ensures Valid() && seen == [] && fresh(digits) && fresh(h) && this.compression == compression
    {
      this.program := program;
      this.compression := compression;
      buffer, seen, blocks := [], [], 0;
      digits := new Wide[4](i => 0);
      var initial := Words(Initial());
      h := new Wide[8](i requires 0 <= i < 8 => initial[i]);
      new;
      assert h[..] == initial && digits[..] == [0, 0, 0, 0];
      NothingSeen(compression);
    }

    method Process(data: seq<Byte>)
      requires Valid() && |data| < 0x8000_0000_0000_0000
      modifies this, digits, h
      ensures Valid() && seen == old(seen) + data
    {
      ghost var whole := Whole();
      Rejoined(whole, buffer, data);
      Append(data);
      assert seen == whole + buffer;
      var i, n := HashBlocks(whole);
      blocks := blocks + n;
      ghost var all := buffer;
      buffer := buffer[i..];
      Advanced(seen, whole, all, i);
    }

    method Append(data: seq<Byte>)
      requires Valid() && |data| < 0x8000_0000_0000_0000
      modifies this, digits
      ensures buffer == old(buffer) + data && seen == old(seen) + data && blocks == old(blocks)
      ensures AreDigits(digits[..]) && Value(digits[..]) == |seen| % LENGTHS
    {
      LengthAdds(|seen|, |data|);
      AddToDataLength(digits, |data|);
      buffer := buffer + data;
      seen := seen + data;
    }

    /** Hashes the whole blocks that the buffer starts with. */
    method HashBlocks(ghost whole: seq<Byte>) returns (i: nat, ghost n: nat)
      requires Computes(program, compression) && digits != h
      requires h[..] == Words(Absorb(compression, Initial(), whole))
      modifies h
      ensures i == 64 * n && i <= |buffer| < i + 64
      ensures h[..] == Words(Absorb(compression, Initial(), whole + buffer[..i]))
    {
      i, n := 0, 0;
      assert whole + buffer[..0] == whole;
      while i + 64 <= |buffer|
        invariant i == 64 * n && i <= |buffer|
        invariant h[..] == Words(Absorb(compression, Initial(), whole + buffer[..i]))
        decreases |buffer| - i
      {
        NextBlock(compression, Initial(), whole, buffer, i);
        HashOneBlock(program, compression, h, buffer[i..i + 64], Absorb(compression, Initial(), whole + buffer[..i]));
        i, n := i + 64, n + 1;
      }
    }

    /** Afterwards the digest is that of the padded message. */
    method Finish()
      requires Valid()
      modifies h
      ensures h[..] == Words(Absorb(compression, Initial(), Pad(seen)))
    {
      ghost var whole := Whole();
      EndingPads(whole, buffer, blocks);
      LengthInBits(|seen|);
      var length := WriteDataBitLength(digits);
      FinishWith(whole, length);
    }

    method FinishWith(ghost whole: seq<Byte>, length: seq<Byte>)
      requires Computes(program, compression) && digits != h && |buffer| < 64
      requires h[..] == Words(Absorb(compression, Initial(), whole)) && length == LengthBytes(|seen|)
      modifies h
      ensures h[..] == Words(Absorb(compression, Initial(), whole + Ending(buffer, |seen|)))
    {
      var remains := |buffer|;
      var temp: seq<Byte> := (buffer + Nothing(64 - remains))[remains := 0x80];
      ghost var done := whole;
      if remains > 55 {
        temp := temp[..remains + 1] + Nothing(63 - remains);
        AbsorbBlock(compression, Initial(), done, temp);
        HashOneBlock(program, compression, h, temp, Absorb(compression, Initial(), done));
        done := done + temp;
        temp := Nothing(60) + temp[60..];
      } else {
        temp := temp[..remains + 1] + Nothing(59 - remains) + temp[60..];
      }
      temp := temp[..56] + length;
      AbsorbBlock(compression, Initial(), done, temp);
      HashOneBlock(program, compression, h, temp, Absorb(compression, Initial(), done));
      EndingIs(whole, buffer, |seen|);
    }
  }

  /** The blocks that the buffer of 64 bytes goes through. */
  lemma {:induction false} EndingIs(whole: seq<Byte>, rest: seq<Byte>, n: nat)
    requires |rest| < 64
    ensures var r := |rest|;
            var start: seq<Byte> := (rest + Nothing(64 - r))[r := 0x80];
            && (r > 55 ==>
                  var first: seq<Byte> := start[..r + 1] + Nothing(63 - r);
                  whole + Ending(rest, n) == whole + first + ((Nothing(60) + first[60..])[..56] + LengthBytes(n)))
            && (r <= 55 ==>
                  whole + Ending(rest, n)
                      == whole + ((start[..r + 1] + Nothing(59 - r) + start[60..])[..56] + LengthBytes(n)))
  {
    var r := |rest|;
    var start: seq<Byte> := (rest + Nothing(64 - r))[r := 0x80];
    assert start[..r + 1] == rest + [0x80];
    if r > 55 {
      var first: seq<Byte> := start[..r + 1] + Nothing(63 - r);
      assert (Nothing(60) + first[60..])[..56] == Nothing(56);
    } else {
      assert (start[..r + 1] + Nothing(59 - r) + start[60..])[..56] == rest + [0x80] + Nothing(55 - r);
    }
  }

  lemma {:induction false} NextBlock(c: Compression, h: Digest, whole: seq<Byte>, buffer: seq<Byte>, i: nat)
    requires i + 64 <= |buffer|
    ensures Absorb(c, h, whole + buffer[..i + 64]) == c(Absorb(c, h, whole + buffer[..i]), buffer[i..i + 64])
  {
    AbsorbBlock(c, h, whole + buffer[..i], buffer[i..i + 64]);
    assert whole + buffer[..i] + buffer[i..i + 64] == whole + buffer[..i + 64];
  }

  lemma {:induction false} NothingSeen(c: Compression)
    ensures Absorb(c, Initial(), []) == Initial()
    ensures var zeros := [0, 0, 0, 0]; AreDigits(zeros) && Value(zeros) == 0
  {
  }

  lemma {:induction false} LengthAdds(m: nat, n: nat)
    ensures (m % LENGTHS + n) % LENGTHS == (m + n) % LENGTHS
  {
  }

  lemma {:induction false} LengthInBits(n: nat)
    ensures 8 * (n % LENGTHS) % LENGTHS == 8 * n % LENGTHS
  {
    Bits.Whole(n, LENGTHS);
    var q, r := n / LENGTHS, n % LENGTHS;
    Bits.Whole(8 * r, LENGTHS);
    RemainderIs(8 * n, LENGTHS, 8 * q + 8 * r / LENGTHS, 8 * r % LENGTHS);
  }
}
