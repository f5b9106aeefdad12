/** The functions of FIPS 180-4, section 4.1.2, bit by bit. */
module Sha256Bits {
  import opened Bits
  import opened Sha256Spec

  /** The bit of value 2^i, after halving i times. */
  predicate Bit(x: int, i: nat)
    decreases i
  {
    if i == 0 then x % 2 == 1 else Bit(x / 2, i - 1)
  }

  lemma {:induction false} BitIsQuotient(x: nat, i: nat)
    ensures Bit(x, i) <==> x / Pow2(i) % 2 == 1
    decreases i
  {
    if i == 0 {
      Whole(x, 1);
    } else {
      BitIsQuotient(x / 2, i - 1);
      QuotientOfQuotient(x, 2, Pow2(i - 1));
    }
  }

  lemma {:induction false} NoBits(i: nat)
    ensures !Bit(0, i)
  {
    if i > 0 { NoBits(i - 1); }
  }

  lemma {:induction false} BitOfAnd(x: nat, y: nat, i: nat)
    ensures Bit(And(x, y), i) <==> Bit(x, i) && Bit(y, i)
    decreases i
  {
    if x == 0 {
      NoBits(i);
    } else if i > 0 {
      BitOfAnd(x / 2, y / 2, i - 1);
    }
  }

  lemma {:induction false} BitOfXor(x: nat, y: nat, i: nat)
    ensures Bit(Xor(x, y), i) <==> Bit(x, i) != Bit(y, i)
    decreases i
  {
    if x == 0 {
      NoBits(i);
    } else if i > 0 {
      BitOfXor(x / 2, y / 2, i - 1);
    }
  }

  lemma {:induction false} HalfComplement(x: nat, p: nat)
    requires x < 2 * p
    ensures x / 2 < p && (2 * p - 1 - x) / 2 == p - 1 - x / 2 && (2 * p - 1 - x) % 2 == 1 - x % 2
  {
  }

  lemma {:induction false} BitOfComplement(x: nat, k: nat, i: nat)
    requires x < Pow2(k) && i < k
    ensures Bit(Pow2(k) - 1 - x, i) <==> !Bit(x, i)
    decreases i
  {
    HalfComplement(x, Pow2(k - 1));
    if i > 0 { BitOfComplement(x / 2, k - 1, i - 1); }
  }

  /** A number put together from low and high bits. */
  lemma {:induction false} BitOfJoined(low: nat, k: nat, high: nat, i: nat)
    requires low < Pow2(k)
    ensures Bit(low + Pow2(k) * high, i) <==> if i < k then Bit(low, i) else Bit(high, i - k)
    decreases k
  {
    var x := low + Pow2(k) * high;
    if k > 0 {
      EvenProduct(k, high);
      if i > 0 {
        HalfBelow(low, k);
        assert x / 2 == low / 2 + Pow2(k - 1) * high;
        BitOfJoined(low / 2, k - 1, high, i - 1);
      }
    }
  }

  lemma {:induction false} Parts(x: nat, d: nat) returns (q: nat, r: nat)
    requires d > 0
    ensures x == r + d * q && r < d && q == x / d && r == x % d
  {
    Whole(x, d);
    q, r := x / d, x % d;
  }

  lemma {:induction false} BitOfQuotient(x: nat, n: nat, i: nat)
    ensures Bit(x / Pow2(n), i) <==> Bit(x, i + n)
  {
    var q, r := Parts(x, Pow2(n));
    BitOfJoined(r, n, q, i + n);
  }

  lemma {:induction false} BitOfRemainder(x: nat, n: nat, i: nat)
    requires i < n
    ensures Bit(x % Pow2(n), i) <==> Bit(x, i)
  {
    var q, r := Parts(x, Pow2(n));
    BitOfJoined(r, n, q, i);
  }

  // ----- the functions -----

  /** `x` chooses between `y` and `z`. */
  lemma {:induction false} ChBit(x: Word, y: Word, z: Word, i: nat)
    requires i < 32
    ensures Bit(Ch(x, y, z), i) <==> if Bit(x, i) then Bit(y, i) else Bit(z, i)
  {
    Pow2Values();
    BitOfComplement(x, 32, i);
    BitOfAnd(x, y, i);
    BitOfAnd(Not(x), z, i);
    BitOfXor(Meet(x, y), Meet(Not(x), z), i);
  }

  /** At least two of three. */
  lemma {:induction false} MajBit(x: Word, y: Word, z: Word, i: nat)
    ensures Bit(Maj(x, y, z), i)
       <==> (Bit(x, i) && Bit(y, i)) || (Bit(x, i) && Bit(z, i)) || (Bit(y, i) && Bit(z, i))
  {
    BitOfAnd(x, y, i);
    BitOfAnd(x, z, i);
    BitOfAnd(y, z, i);
    BitOfXor(Meet(x, y), Meet(x, z), i);
    BitOfXor(Bitwise(Meet(x, y), Meet(x, z)), Meet(y, z), i);
  }

  lemma {:induction false} RotRBit(x: Word, n: nat, i: nat)
    requires 0 < n < 32 && i < 32
    ensures Bit(RotR(x, n), i) <==> Bit(x, (i + n) % 32)
  {
    var q, r := Turned(x, n);
    BitOfJoined(q, 32 - n, r, i);
    Around(i, n);
    if i < 32 - n { BitOfQuotient(x, n, i); } else { BitOfRemainder(x, n, i - (32 - n)); }
  }

  lemma {:induction false} Turned(x: Word, n: nat) returns (q: nat, r: nat)
    requires 0 < n < 32
    ensures q == x / Pow2(n) && r == x % Pow2(n)
    ensures q < Pow2(32 - n) && RotR(x, n) == q + Pow2(32 - n) * r
  {
    RotatedBelow(x, n);
    q, r := Parts(x, Pow2(n));
  }

  lemma {:induction false} Around(i: nat, n: nat)
    requires 0 < n < 32 && i < 32
    ensures (i + n) % 32 == if i < 32 - n then i + n else i - (32 - n)
  {
  }

  lemma {:induction false} ShRBit(x: Word, n: nat, i: nat)
    ensures Bit(ShR(x, n), i) <==> Bit(x, i + n)
  {
    BitOfQuotient(x, n, i);
  }

  /** An odd number of three. */
  predicate Odd(a: bool, b: bool, c: bool) {
    (a != b) != c
  }

  lemma {:induction false} SumBit(x: Word, y: Word, z: Word, i: nat)
    ensures Bit(Bitwise(Bitwise(x, y), z), i) <==> Odd(Bit(x, i), Bit(y, i), Bit(z, i))
  {
    BitOfXor(x, y, i);
    BitOfXor(Bitwise(x, y), z, i);
  }

  /** A bit of each sum of rotations and shifts is that of an odd number of three bits. */
  lemma {:induction false} BigSigmaBits(x: Word, i: nat)
    requires i < 32
    ensures Bit(BigSigma0(x), i) <==> Odd(Bit(x, (i + 2) % 32), Bit(x, (i + 13) % 32), Bit(x, (i + 22) % 32))
    ensures Bit(BigSigma1(x), i) <==> Odd(Bit(x, (i + 6) % 32), Bit(x, (i + 11) % 32), Bit(x, (i + 25) % 32))
  {
    RotRBit(x, 2, i);
    RotRBit(x, 13, i);
    RotRBit(x, 22, i);
    SumBit(RotR(x, 2), RotR(x, 13), RotR(x, 22), i);
    RotRBit(x, 6, i);
    RotRBit(x, 11, i);
    RotRBit(x, 25, i);
    SumBit(RotR(x, 6), RotR(x, 11), RotR(x, 25), i);
  }

  lemma {:induction false} SmallSigmaBits(x: Word, i: nat)
    requires i < 32
    ensures Bit(SmallSigma0(x), i) <==> Odd(Bit(x, (i + 7) % 32), Bit(x, (i + 18) % 32), Bit(x, i + 3))
    ensures Bit(SmallSigma1(x), i) <==> Odd(Bit(x, (i + 17) % 32), Bit(x, (i + 19) % 32), Bit(x, i + 10))
  {
    RotRBit(x, 7, i);
    RotRBit(x, 18, i);
    ShRBit(x, 3, i);
    SumBit(RotR(x, 7), RotR(x, 18), ShR(x, 3), i);
    RotRBit(x, 17, i);
    RotRBit(x, 19, i);
    ShRBit(x, 10, i);
    SumBit(RotR(x, 17), RotR(x, 19), ShR(x, 10), i);
  }
}
