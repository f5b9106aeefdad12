/** The length of a message, counted in four digits to the base 2^16. */
module Sha256Length {
  import opened Bits
  import opened BigEndians
  import opened Sha256Spec
  import opened Sha256Block

  const BASE: nat := 0x1_0000

  function Place(i: nat): (r: nat) {
    if i == 0 then 1 else if i == 1 then 0x1_0000 else if i == 2 then 0x1_0000_0000
    else if i == 3 then 0x1_0000_0000_0000 else 0x1_0000_0000_0000_0000
  }

  function Value(d: seq<nat>): (r: nat)
    requires |d| == 4
  {
    d[0] + 0x1_0000 * d[1] + 0x1_0000_0000 * d[2] + 0x1_0000_0000_0000 * d[3]
  }

  ghost predicate AreDigits(d: seq<Wide>) {
    |d| == 4 && forall i :: 0 <= i < 4 ==> d[i] < BASE
  }

  lemma {:induction false} ValueBelow(d: seq<Wide>)
    requires AreDigits(d)
    ensures Value(d) < LENGTHS
  {
  }

  /** The low 16 bits. */
  function Low16(x: Wide): (r: Wide) {
    x % BASE
  }

  lemma {:induction false} Low16IsAnd(x: Wide)
    ensures Low16(x) == And(x, 65535)
  {
    Pow2Values();
    AndMask(x, 16);
  }

  // ----- adding -----

  /** The carry still belongs to the digits from `i` on; the first may overflow before that. */
  ghost predicate Carrying(d: seq<Wide>, i: nat, carry: Wide, total: nat) {
    && |d| == 4 && i <= 4 && Value(d) + carry * Place(i) == total
    && (forall j :: 0 <= j < 4 && j != i ==> d[j] < BASE)
    && (if i == 0 then carry == 0 && d[0] < 0x8000_0000_0001_0000
      else carry < 0x1_0000_0000_0000 && (i < 4 ==> d[i] < BASE))
  }

  /** One digit takes the carry, and passes on what is too much. */
  lemma {:induction false} CarryStep(d: seq<Wide>, i: nat, carry: Wide, total: nat)
    requires Carrying(d, i, carry, total) && i < 4
    ensures var x := d[i] + carry;
            && x < LENGTHS
            && Carrying(d[i := x % BASE], i + 1, x / BASE, total)
            && (x < BASE ==> AreDigits(d[i := x]) && Value(d[i := x]) == total)
  {
    var x := d[i] + carry;
    assert x == BASE * (x / BASE) + x % BASE;
  }

  lemma {:induction false} CarryDropped(d: seq<Wide>, carry: Wide, total: nat)
    requires Carrying(d, 4, carry, total)
    ensures AreDigits(d) && Value(d) == total % LENGTHS
  {
    ValueBelow(d);
    RemainderIs(total, LENGTHS, carry, Value(d));
  }

  /** Adds to the length, which wraps around at 2^64. */
  method AddToDataLength(digits: array<Wide>, n: nat)
    requires AreDigits(digits[..]) && n < 0x8000_0000_0000_0000
    modifies digits
    ensures AreDigits(digits[..]) && Value(digits[..]) == (Value(old(digits[..])) + n) % LENGTHS
  {
    ghost var d := digits[..];
    ghost var total := Value(d) + n;
    CarryStart(d, n);
    digits[0] := digits[0] + n;
    d := d[0 := d[0] + n];
    var carry: Wide := 0;
    for i := 0 to 4
      invariant digits[..] == d && Carrying(d, i, carry, total)
    {
      CarryStep(d, i, carry, total);
      assert digits[i] == d[i];
      ghost var x := d[i] + carry;
      digits[i] := digits[i] + carry;
      assert digits[i] == x;
      if digits[i] < BASE {
        assert digits[..] == d[i := x];
        Counted(d[i := x], total);
        return;
      }
      d := d[i := x % BASE];
      carry := digits[i] / BASE;
      digits[i] := Low16(digits[i]);
    }
    CarryDropped(d, carry, total);
  }

  lemma {:induction false} CarryStart(d: seq<Wide>, n: nat)
    requires AreDigits(d) && n < 0x8000_0000_0000_0000
    ensures Carrying(d[0 := d[0] + n], 0, 0, Value(d) + n)
  {
  }

  lemma {:induction false} Counted(d: seq<Wide>, total: nat)
    requires AreDigits(d) && Value(d) == total
    ensures total % LENGTHS == total
  {
    ValueBelow(d);
    Small(total, LENGTHS);
  }

  // ----- from bytes to bits -----

  function Lower(d: seq<nat>, i: nat): (r: nat)
    requires |d| == 4 && i <= 4
  {
    if i == 0 then 0 else if i == 1 then d[0] else if i == 2 then d[0] + 0x1_0000 * d[1]
    else if i == 3 then d[0] + 0x1_0000 * d[1] + 0x1_0000_0000 * d[2] else Value(d)
  }

  /** The digits before `i` are shifted, the others not. */
  ghost predicate Shifting(d: seq<Wide>, out: seq<Wide>, i: nat, carry: Wide) {
    && AreDigits(d) && AreDigits(out) && i <= 4 && carry < 8
    && (forall j :: i <= j < 4 ==> out[j] == d[j])
    && Lower(out, i) + carry * Place(i) == 8 * Lower(d, i)
  }

  /** The digit without its three high bits, shifted and joined with the carry. */
  function ShiftedDigit(x: Wide, carry: Wide): (r: Wide) {
    Low16(WideOr(WideShL(x, 3), carry))
  }

  lemma {:induction false} ShiftedDigitIs(x: Wide, carry: Wide)
    requires x < BASE && carry < 8
    ensures ShiftedDigit(x, carry) == (8 * x + carry) % BASE
  {
    Pow2Values();
    Small(8 * x, LENGTHS);
    Join(8, x, carry, 3);
  }

  lemma {:induction false} ShiftStep(d: seq<Wide>, out: seq<Wide>, i: nat, carry: Wide)
    requires Shifting(d, out, i, carry) && i < 4
    ensures Shifting(d, out[i := ShiftedDigit(d[i], carry)], i + 1, d[i] / 0x2000)
  {
    ShiftedDigitIs(d[i], carry);
    ShiftedFurther(d, out, i, carry, ShiftedDigit(d[i], carry));
  }

  lemma {:induction false} ShiftedFurther(d: seq<Wide>, out: seq<Wide>, i: nat, carry: Wide, y: Wide)
    requires Shifting(d, out, i, carry) && i < 4 && y == (8 * d[i] + carry) % BASE
    ensures Shifting(d, out[i := y], i + 1, d[i] / 0x2000)
  {
    var high := d[i] / 0x2000;
    HighBits(d[i], carry);
    assert BASE * high + y == 8 * d[i] + carry;
    if i == 0 { assert Lower(out[i := y], 1) == y; }
  }

  lemma {:induction false} HighBits(x: nat, carry: nat)
    requires x < BASE && carry < 8
    ensures (8 * x + carry) / BASE == x / 0x2000 && x / 0x2000 < 8
  {
  }

  lemma {:induction false} ShiftedOut(d: seq<Wide>, out: seq<Wide>, carry: Wide)
    requires Shifting(d, out, 4, carry)
    ensures Value(out) == 8 * Value(d) % LENGTHS
  {
    ValueBelow(out);
    RemainderIs(8 * Value(d), LENGTHS, carry, Value(out));
  }

  // ----- the bytes of the length -----

  lemma {:induction false} TwoMoreBytes(x: nat, y: nat, n: nat)
    requires x < BASE
    ensures BigEndian(x + BASE * y, n + 2) == BigEndian(y, n) + [x / 0x100 % 0x100, x % 0x100]
  {
    var z := x + BASE * y;
    assert z % 0x100 == x % 0x100 && z / 0x100 == x / 0x100 + 0x100 * y;
    assert z / 0x100 % 0x100 == x / 0x100 && z / 0x100 / 0x100 == y;
    assert BigEndian(z, n + 2) == BigEndian(y, n) + [z / 0x100 % 0x100] + [z % 0x100];
  }

  /** The number that the digits from `i` on make. */
  function From(d: seq<nat>, i: nat): (r: nat)
    requires |d| == 4 && i <= 4
    decreases 4 - i
  {
    if i == 4 then 0 else d[i] + BASE * From(d, i + 1)
  }

  lemma {:induction false} ValueIsFrom(d: seq<nat>)
    requires |d| == 4
    ensures From(d, 0) == Value(d)
  {
    assert From(d, 3) == d[3];
    assert From(d, 2) == d[2] + BASE * d[3];
  }

  /** The two bytes of each digit from the highest down to `i`. */
  function DigitBytes(d: seq<Wide>, i: nat): (r: seq<Byte>)
    requires AreDigits(d) && i <= 4
    decreases 4 - i
  {
    if i == 4 then [] else DigitBytes(d, i + 1) + [d[i] / 0x100 % 0x100, d[i] % 0x100]
  }

  lemma {:induction false} DigitBytesAre(d: seq<Wide>, i: nat, n: nat)
    requires AreDigits(d) && i <= 4 && n == 2 * (4 - i)
    ensures DigitBytes(d, i) == BigEndian(From(d, i), n)
    decreases 4 - i
  {
    if i < 4 {
      DigitBytesAre(d, i + 1, n - 2);
      TwoMoreBytes(d[i], From(d, i + 1), n - 2);
    }
  }

  /** The bytes of the length in bits: eight times the length in bytes, modulo 2^64. */
  method WriteDataBitLength(digits: array<Wide>) returns (r: seq<Byte>)
    requires AreDigits(digits[..])
    ensures r == BigEndian(8 * Value(digits[..]) % LENGTHS, LENGTH_BYTES)
  {
    ghost var d := digits[..];
    var out := new Wide[4](i requires 0 <= i < 4 && digits.Length == 4 reads digits => digits[i]);
    ghost var o := d;
    assert out[..] == o;
    var carry: Wide := 0;
    for i := 0 to 4
      invariant digits[..] == d && out[..] == o && Shifting(d, o, i, carry)
    {
      ShiftStep(d, o, i, carry);
      assert out[i] == o[i] == d[i];
      var before := out[i];
      o := o[i := ShiftedDigit(before, carry)];
      out[i] := ShiftedDigit(before, carry);
      carry := Low16(before / 0x2000);
      Small(before / 0x2000, BASE);
    }
    ShiftedOut(d, o, carry);
    r := WriteDigits(out);
  }

  method WriteDigits(out: array<Wide>) returns (r: seq<Byte>)
    requires AreDigits(out[..])
    ensures r == BigEndian(Value(out[..]), LENGTH_BYTES)
  {
    ghost var d := out[..];
    r := [];
    var i := 4;
    while i > 0
      invariant 0 <= i <= 4 && r == DigitBytes(d, i)
    {
      i := i - 1;
      assert out[i] == d[i];
      r := r + [out[i] / 0x100 % 0x100, out[i] % 0x100];
    }
    DigitBytesAre(d, i, LENGTH_BYTES);
    ValueIsFrom(d);
  }
}
