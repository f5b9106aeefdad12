/** Numbers as big-endian bytes. */
module BigEndians {
  import opened Bits

  /** The big-endian bytes of a number. */
  function BigEndian(x: nat, n: nat): (r: seq<Byte>)
    ensures |r| == n
  {
    if n == 0 then [] else BigEndian(x / 0x100, n - 1) + [x % 0x100]
  }

  /** The number that big-endian bytes stand for. */
  function FromBigEndian(s: seq<Byte>): (r: nat) {
    if s == [] then 0 else 0x100 * FromBigEndian(s[..|s| - 1]) + s[|s| - 1]
  }

  /** The bytes stand for the number as far as they go. */
  lemma {:induction false} BigEndianRoundTrip(x: nat, n: nat)
    ensures FromBigEndian(BigEndian(x, n)) == x % Pow2(8 * n)
  {
    if n > 0 {
      BigEndianRoundTrip(x / 0x100, n - 1);
      var s := BigEndian(x, n);
      assert s[..n - 1] == BigEndian(x / 0x100, n - 1) && s[n - 1] == x % 0x100;
      RemainderByBytes(x, n);
    } else {
      Whole(x, 1);
    }
  }

  lemma {:induction false} RemainderByBytes(x: nat, n: nat)
    requires n > 0
    ensures x % Pow2(8 * n) == 0x100 * (x / 0x100 % Pow2(8 * (n - 1))) + x % 0x100
  {
    var p := Pow2(8 * (n - 1));
    Pow2Values();
    Pow2Sum(8, 8 * (n - 1));
    RemainderOfProduct(x, 0x100, p);
  }

  lemma {:induction false} RemainderOfProduct(x: nat, b: nat, p: nat)
    requires b > 0 && p > 0
    ensures x % (b * p) == b * (x / b % p) + x % b
  {
    var q, r := x / b / p, x / b % p;
    Whole(x / b, p);
    Whole(x, b);
    assert b * (p * q + r) == b * (p * q) + b * r;
    assert b * (p * q) == (b * p) * q;
    Distribute(b, p, r);
    MulAtLeast(b, p - r);
    RemainderIs(x, b * p, q, b * r + x % b);
  }

  lemma {:induction false} BigEndianInjective(x: nat, y: nat, n: nat)
    requires x < Pow2(8 * n) && y < Pow2(8 * n) && BigEndian(x, n) == BigEndian(y, n)
    ensures x == y
  {
    BigEndianRoundTrip(x, n);
    BigEndianRoundTrip(y, n);
    Small(x, Pow2(8 * n));
    Small(y, Pow2(8 * n));
  }
}
