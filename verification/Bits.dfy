/** Bitwise operations on natural numbers, and the arithmetic they amount to. */
module Bits {

  type Byte = x: nat | x < 0x100

  function Pow2(n: nat): (r: nat)
    ensures r > 0
  {
    if n == 0 then 1 else 2 * Pow2(n - 1)
  }

  function And(x: nat, y: nat): (r: nat)
    decreases x
  {
    if x == 0 then 0 else (if x % 2 == 1 && y % 2 == 1 then 1 else 0) + 2 * And(x / 2, y / 2)
  }

  function Or(x: nat, y: nat): (r: nat)
    decreases x
  {
    if x == 0 then y else (if x % 2 == 1 || y % 2 == 1 then 1 else 0) + 2 * Or(x / 2, y / 2)
  }

  function Xor(x: nat, y: nat): (r: nat)
    decreases x
  {
    if x == 0 then y else (if x % 2 != y % 2 then 1 else 0) + 2 * Xor(x / 2, y / 2)
  }

  lemma {:induction false} Pow2Sum(m: nat, n: nat)
    ensures Pow2(m + n) == Pow2(m) * Pow2(n)
  {
    if m > 0 { Pow2Sum(m - 1, n); }
  }

  lemma {:induction false} Pow2Values()
    ensures Pow2(3) == 8 && Pow2(8) == 0x100 && Pow2(13) == 0x2000 && Pow2(16) == 0x1_0000 && Pow2(24) == 0x100_0000
    ensures Pow2(32) == 0x1_0000_0000 && Pow2(64) == 0x1_0000_0000_0000_0000
  {
    Pow2Sum(8, 5);
    Pow2Sum(8, 8);
    Pow2Sum(8, 16);
    Pow2Sum(16, 16);
    Pow2Sum(32, 32);
    assert Pow2(5) == 32 && Pow2(8) == 256;
  }

  /** Below a power of two, halving stays below the next smaller one. */
  lemma {:induction false} HalfBelow(x: nat, k: nat)
    requires k > 0
    ensures x < Pow2(k) <==> x / 2 < Pow2(k - 1)
  {
  }

  lemma {:induction false} AndBelow(x: nat, y: nat)
    ensures And(x, y) <= x && And(x, y) <= y
    decreases x
  {
    if x > 0 { AndBelow(x / 2, y / 2); }
  }

  lemma {:induction false} XorBelow(x: nat, y: nat, k: nat)
    requires x < Pow2(k) && y < Pow2(k)
    ensures Xor(x, y) < Pow2(k)
    decreases k
  {
    if x > 0 && k > 0 {
      HalfBelow(x, k);
      HalfBelow(y, k);
      XorBelow(x / 2, y / 2, k - 1);
    }
  }

  /** Halving a remainder. */
  lemma {:induction false} HalfOfRemainder(x: nat, k: nat)
    requires k > 0
    ensures x % Pow2(k) == x % 2 + 2 * ((x / 2) % Pow2(k - 1))
  {
    var p := Pow2(k - 1);
    var q, r := x / 2 / p, x / 2 % p;
    Whole(x / 2, p);
    Whole(x, 2);
    assert x == 2 * (p * q) + (2 * r + x % 2);
    EvenProduct(k, q);
    RemainderIs(x, Pow2(k), q, 2 * r + x % 2);
  }

  lemma {:induction false} RemainderIs(x: nat, d: nat, q: nat, r: nat)
    requires d > 0 && x == d * q + r && r < d
    ensures x % d == r && x / d == q
  {
    var q', r' := x / d, x % d;
    Whole(x, d);
    Distribute(d, q, q');
    if q > q' { MulAtLeast(d, q - q'); }
    if q < q' { MulAtLeast(d, q' - q); Distribute(d, q', q); }
  }

  lemma {:induction false} Whole(x: nat, d: nat)
    requires d > 0
    ensures x == d * (x / d) + x % d && x % d < d
  {
  }

  lemma {:induction false} MulAtLeast(d: nat, m: nat)
    requires m >= 1
    ensures d * m >= d
  {
  }

  lemma {:induction false} Distribute(d: nat, a: int, b: int)
    ensures d * (a - b) == d * a - d * b
  {
  }

  /** A mask of low bits takes the remainder. */
  lemma {:induction false} AndMask(x: nat, k: nat)
    ensures And(x, Pow2(k) - 1) == x % Pow2(k)
    decreases k
  {
    if k == 0 {
      AndBelow(x, 0);
    } else if x > 0 {
      AndMask(x / 2, k - 1);
      HalfOfRemainder(x, k);
      MaskHalf(k);
      AndOdd(x, Pow2(k) - 1);
    } else {
      Small(0, Pow2(k));
    }
  }

  lemma {:induction false} AndOdd(x: nat, m: nat)
    requires x > 0 && m % 2 == 1
    ensures And(x, m) == x % 2 + 2 * And(x / 2, m / 2)
  {
  }

  lemma {:induction false} Small(x: nat, d: nat)
    requires x < d
    ensures x % d == x && x / d == 0
  {
  }

  lemma {:induction false} MaskHalf(k: nat)
    requires k > 0
    ensures (Pow2(k) - 1) / 2 == Pow2(k - 1) - 1 && (Pow2(k) - 1) % 2 == 1
  {
  }

  /** Only the low bits meet a number below a power of two. */
  lemma {:induction false} AndLow(x: nat, y: nat, k: nat)
    requires y < Pow2(k)
    ensures And(x, y) == And(x % Pow2(k), y)
    decreases k
  {
    var r := x % Pow2(k);
    if k == 0 {
      AndBelow(x, y);
      AndBelow(r, y);
    } else {
      HalfOfRemainder(x, k);
      HalfBelow(y, k);
      AndLow(x / 2, y / 2, k - 1);
      assert r / 2 == (x / 2) % Pow2(k - 1) && r % 2 == x % 2;
      if x > 0 && r == 0 { assert (x / 2) % Pow2(k - 1) == 0; }
    }
  }

  /** Numbers without a bit in common: or is sum. */
  lemma {:induction false} OrDisjoint(x: nat, y: nat, k: nat)
    requires x < Pow2(k)
    ensures Or(x, Pow2(k) * y) == x + Pow2(k) * y
    decreases k
  {
    if x > 0 {
      HalfBelow(x, k);
      OrDisjoint(x / 2, y, k - 1);
      EvenProduct(k, y);
    }
  }

  lemma {:induction false} EvenProduct(k: nat, y: nat)
    requires k > 0
    ensures Pow2(k) * y == 2 * (Pow2(k - 1) * y)
  {
    var p := Pow2(k - 1);
    assert (2 * p) * y == 2 * (p * y);
  }

  lemma {:induction false} OrCommutes(x: nat, y: nat)
    ensures Or(x, y) == Or(y, x)
    decreases x
  {
    if x > 0 {
      OrCommutes(x / 2, y / 2);
      if y == 0 { OrZero(x); }
    } else {
      OrZero(y);
    }
  }

  lemma {:induction false} OrZero(x: nat)
    ensures Or(x, 0) == x
    decreases x
  {
    if x > 0 { OrZero(x / 2); }
  }

  lemma {:induction false} QuotientOfQuotient(x: nat, d: nat, e: nat)
    requires d > 0 && e > 0
    ensures x / d / e == x / (d * e)
  {
    Whole(x, d);
    Whole(x / d, e);
    var q, r := x / d / e, x / d % e;
    assert d * (e * q + r) == d * (e * q) + d * r;
    assert d * (e * q) == (d * e) * q;
    Distribute(d, e, r);
    MulAtLeast(d, e - r);
    RemainderIs(x, d * e, q, d * r + x % d);
  }
}
