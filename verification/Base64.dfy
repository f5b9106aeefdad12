/** Base64 with any 64 digits, with and without padding. */
module Base64 {
  import opened Wrappers
  import opened Bits

  // ----- groups -----

  type Six = x: nat | x < 64

  /** The four numbers of six bits that three bytes are packed into. */
  datatype Codes = Codes(c0: Six, c1: Six, c2: Six, c3: Six)

  datatype Packing = Packing(codes: (Byte, Byte, Byte) -> Codes, bytes: Codes -> (Byte, Byte, Byte))

  /** Section 4 of RFC 4648: 24 bits, from the highest to the lowest. */
  function CodesOf(b0: Byte, b1: Byte, b2: Byte): (r: Codes) {
    var v := 0x1_0000 * b0 + 0x100 * b1 + b2;
    Codes(v / 0x4_0000 % 64, v / 0x1000 % 64, v / 0x40 % 64, v % 64)
  }

  function BytesOf(c: Codes): (r: (Byte, Byte, Byte)) {
    var v := 0x4_0000 * c.c0 + 0x1000 * c.c1 + 0x40 * c.c2 + c.c3;
    (v / 0x1_0000 % 0x100, v / 0x100 % 0x100, v % 0x100)
  }

  function Rfc(): (p: Packing) {
    Packing(CodesOf, BytesOf)
  }

  lemma {:induction false} CodesAre(b0: Byte, b1: Byte, b2: Byte)
    ensures CodesOf(b0, b1, b2) == Codes(b0 / 4, 16 * (b0 % 4) + b1 / 16, 4 * (b1 % 16) + b2 / 64, b2 % 64)
  {
    CodesOfParts(b0 / 4, b0 % 4, b1 / 16, b1 % 16, b2 / 64, b2 % 64);
  }

  /** The parts of the bytes that go into one code. */
  lemma {:induction false} CodesOfParts(h0: nat, l0: nat, h1: nat, l1: nat, h2: nat, l2: nat)
    requires h0 < 64 && l0 < 4 && h1 < 16 && l1 < 16 && h2 < 4 && l2 < 64
    ensures CodesOf(4 * h0 + l0, 16 * h1 + l1, 64 * h2 + l2) == Codes(h0, 16 * l0 + h1, 4 * l1 + h2, l2)
  {
    var v := 0x1_0000 * (4 * h0 + l0) + 0x100 * (16 * h1 + l1) + 64 * h2 + l2;
    RemainderIs(v, 0x4_0000, h0, 0x1_0000 * l0 + 0x100 * (16 * h1 + l1) + 64 * h2 + l2);
    RemainderIs(v, 0x1000, 64 * h0 + 16 * l0 + h1, 0x100 * l1 + 64 * h2 + l2);
    RemainderIs(v, 0x40, 0x1000 * h0 + 0x400 * l0 + 64 * h1 + 4 * l1 + h2, l2);
    RemainderIs(64 * h0 + 16 * l0 + h1, 64, h0, 16 * l0 + h1);
    RemainderIs(0x1000 * h0 + 0x400 * l0 + 64 * h1 + 4 * l1 + h2, 64, 64 * h0 + 16 * l0 + h1, 4 * l1 + h2);
    Small(h0, 64);
  }

  lemma {:induction false} BytesOfParts(c0: Six, h1: nat, l1: nat, h2: nat, l2: nat, c3: Six)
    requires h1 < 4 && l1 < 16 && h2 < 16 && l2 < 4
    ensures BytesOf(Codes(c0, 16 * h1 + l1, 4 * h2 + l2, c3)) == (4 * c0 + h1, 16 * l1 + h2, 64 * l2 + c3)
  {
    var v := 0x4_0000 * c0 + 0x1000 * (16 * h1 + l1) + 0x40 * (4 * h2 + l2) + c3;
    RemainderIs(v, 0x1_0000, 4 * c0 + h1, 0x1000 * l1 + 0x100 * h2 + 0x40 * l2 + c3);
    RemainderIs(v, 0x100, 0x400 * c0 + 0x100 * h1 + 16 * l1 + h2, 64 * l2 + c3);
    RemainderIs(0x400 * c0 + 0x100 * h1 + 16 * l1 + h2, 0x100, 4 * c0 + h1, 16 * l1 + h2);
    Small(4 * c0 + h1, 0x100);
  }

  lemma {:induction false} BytesAre(c: Codes)
    ensures BytesOf(c) == (4 * c.c0 + c.c1 / 16, 16 * (c.c1 % 16) + c.c2 / 4, 64 * (c.c2 % 4) + c.c3)
  {
    BytesOfParts(c.c0, c.c1 / 16, c.c1 % 16, c.c2 / 4, c.c2 % 4, c.c3);
  }

  lemma {:induction false} BytesOfCodes(b0: Byte, b1: Byte, b2: Byte)
    ensures BytesOf(CodesOf(b0, b1, b2)) == (b0, b1, b2)
  {
    CodesOfParts(b0 / 4, b0 % 4, b1 / 16, b1 % 16, b2 / 64, b2 % 64);
    BytesOfParts(b0 / 4, b0 % 4, b1 / 16, b1 % 16, b2 / 64, b2 % 64);
  }

  /** Unpacking undoes packing, and bytes of zeros make codes of zeros at the end. */
  ghost predicate Packs(p: Packing) {
    forall b0: Byte, b1: Byte, b2: Byte {:trigger p.codes(b0, b1, b2)} ::
      var c := p.codes(b0, b1, b2);
      p.bytes(c) == (b0, b1, b2) && (b2 == 0 ==> c.c3 == 0) && (b1 == 0 && b2 == 0 ==> c.c2 == 0)
  }

  lemma {:induction false} RfcPacks()
    ensures Packs(Rfc())
  {
    forall b0: Byte, b1: Byte, b2: Byte
      ensures BytesOf(CodesOf(b0, b1, b2)) == (b0, b1, b2)
      ensures var c := CodesOf(b0, b1, b2); (b2 == 0 ==> c.c3 == 0) && (b1 == 0 && b2 == 0 ==> c.c2 == 0)
    {
      BytesOfCodes(b0, b1, b2);
      ZeroCodes(b0, b1, b2);
    }
  }

  lemma {:induction false} ZeroCodes(b0: Byte, b1: Byte, b2: Byte)
    ensures var c := CodesOf(b0, b1, b2); (b2 == 0 ==> c.c3 == 0) && (b1 == 0 && b2 == 0 ==> c.c2 == 0)
  {
    CodesAre(b0, b1, b2);
  }

  // ----- encoding and decoding strings -----

  /** The digits, the padding character (0 for no padding), and the packing. */
  datatype CharacterSet = CharacterSet(digits: seq<Byte>, padding: Byte, packing: Packing)

  type Digits = cs: CharacterSet | |cs.digits| == 64 witness CharacterSet(seq(64, i => 0), 0, Rfc())

  /** The digits are the distinct characters of a C string, and the padding is none of them. */
  ghost predicate Proper(cs: Digits) {
    && (forall i, j :: 0 <= i < j < 64 ==> cs.digits[i] != cs.digits[j])
    && 0 !in cs.digits && cs.padding !in cs.digits && Packs(cs.packing)
  }

  function EncodedLength(n: nat): (r: nat) {
    (n + 2) / 3 * 4 + 1
  }

  function DecodedLength(n: nat): (r: nat) {
    (n + 3) / 4 * 3
  }

  function ByteAt(src: seq<Byte>, k: nat): (r: Byte) {
    if k < |src| then src[k] else 0
  }

  /** The digits of up to three bytes: zero bits are added, and digits without bits are padding. */
  function Group(src: seq<Byte>, cs: Digits): (r: seq<Byte>)
    ensures |r| == 4
  {
    var c := cs.packing.codes(ByteAt(src, 0), ByteAt(src, 1), ByteAt(src, 2));
    [cs.digits[c.c0], cs.digits[c.c1],
     if |src| > 1 then cs.digits[c.c2] else cs.padding,
     if |src| > 2 then cs.digits[c.c3] else cs.padding]
  }

  function Encoded(src: seq<Byte>, cs: Digits): (r: seq<Byte>) {
    if src == [] then [] else if |src| <= 3 then Group(src, cs) else Group(src[..3], cs) + Encoded(src[3..], cs)
  }

  lemma {:induction false} EncodedFits(src: seq<Byte>, cs: Digits)
    ensures |Encoded(src, cs)| + 1 == EncodedLength(|src|)
    decreases |src|
  {
    if |src| > 3 {
      EncodedFits(src[3..], cs);
      EncodedLengthStep(|src|);
    }
  }

  /** The advertised lengths are exact for whole groups. */
  lemma {:induction false} LengthsMatch(src: seq<Byte>, cs: Digits, groups: nat)
    requires |src| == 3 * groups
    ensures |Encoded(src, cs)| == 4 * groups && DecodedLength(|Encoded(src, cs)|) == |src|
  {
    EncodedFits(src, cs);
  }

  lemma {:induction false} EncodedLengthStep(n: nat)
    requires n >= 3
    ensures EncodedLength(n) == EncodedLength(n - 3) + 4
  {
  }

  /** Which digit a character is, or 0xff. */
  function Reverse(cs: Digits, c: Byte): (r: Byte)
    ensures r == 0xff || (r < 64 && cs.digits[r] == c)
    ensures r == 0xff <==> c !in cs.digits
  {
    IndexIn(cs.digits, c)
  }

  function IndexIn(digits: seq<Byte>, c: Byte): (r: Byte)
    requires |digits| <= 64
    ensures r == 0xff || (r < |digits| && digits[r] == c)
    ensures r == 0xff <==> c !in digits
  {
    if digits == [] then 0xff
    else if digits[|digits| - 1] == c then |digits| - 1
    else
      assert digits == digits[..|digits| - 1] + [digits[|digits| - 1]];
      IndexIn(digits[..|digits| - 1], c)
  }

  lemma {:induction false} ReverseOfDigit(cs: Digits, k: nat)
    requires Proper(cs) && k < 64
    ensures Reverse(cs, cs.digits[k]) == k && cs.digits[k] in cs.digits
  {
    var r := Reverse(cs, cs.digits[k]);
    assert r < 64 && cs.digits[r] == cs.digits[k];
  }

  /** How many characters of a group are there before the end or a padding character; only
      the third and the fourth may be missing. */
  function Present(s: seq<Byte>, cs: Digits): (n: nat)
    requires |s| >= 2
    ensures 2 <= n <= 4 && n <= |s|
  {
    if |s| == 2 || s[2] == cs.padding then 2 else if |s| == 3 || s[3] == cs.padding then 3 else 4
  }

  ghost predicate AllDigits(s: seq<Byte>, cs: Digits, n: nat)
    requires n <= |s|
  {
    forall k :: 0 <= k < n ==> s[k] in cs.digits
  }

  function CodeAt(s: seq<Byte>, cs: Digits, k: nat): (r: Six)
    requires k < |s| && s[k] in cs.digits
  {
    Reverse(cs, s[k])
  }

  /** The bytes of one group, from the characters that are there. */
  function Bytes(s: seq<Byte>, cs: Digits, n: nat): (r: seq<Byte>)
    requires 2 <= n <= 4 && n <= |s| && AllDigits(s, cs, n)
    ensures |r| == n - 1
  {
    var c := Codes(CodeAt(s, cs, 0), CodeAt(s, cs, 1),
                   if n > 2 then CodeAt(s, cs, 2) else 0, if n > 3 then CodeAt(s, cs, 3) else 0);
    var b := cs.packing.bytes(c);
    [b.0, b.1, b.2][..n - 1]
  }

  /** What the decoder makes of a string; no result stands for an exception. */
  ghost function Decoded(s: seq<Byte>, cs: Digits): (r: Option<seq<Byte>>) {
    if s == [] then Some([])
    else if |s| == 1 || !AllDigits(s, cs, Present(s, cs)) then None
    else
      var n := Present(s, cs);
      if n < 4 then Some(Bytes(s, cs, n))
      else
        var rest := Decoded(s[4..], cs);
        if rest.None? then None else Some(Bytes(s, cs, n) + rest.value)
  }

  // ----- round trips -----

  /** Decoding the group of up to three bytes, with its padding or without. */
  lemma {:induction false} GroupRoundTrip(src: seq<Byte>, cs: Digits, s: seq<Byte>)
    requires Proper(cs) && 1 <= |src| <= 3 && |s| > |src| && s[..|src| + 1] == Group(src, cs)[..|src| + 1]
    requires |s| == |src| + 1 || |src| == 3 || s[|src| + 1] == cs.padding
    ensures Present(s, cs) == |src| + 1 && AllDigits(s, cs, |src| + 1) && Bytes(s, cs, |src| + 1) == src
    ensures forall k :: 0 <= k <= |src| ==> s[k] != 0
  {
    GroupCodes(src, cs, s);
    GroupBytes(src, cs, s, cs.packing.codes(ByteAt(src, 0), ByteAt(src, 1), ByteAt(src, 2)));
  }

  lemma {:induction false} GroupCodes(src: seq<Byte>, cs: Digits, s: seq<Byte>)
    requires Proper(cs) && 1 <= |src| <= 3 && |s| > |src| && s[..|src| + 1] == Group(src, cs)[..|src| + 1]
    ensures AllDigits(s, cs, |src| + 1) && forall k :: 0 <= k <= |src| ==> s[k] != 0 && s[k] != cs.padding
    ensures var c := cs.packing.codes(ByteAt(src, 0), ByteAt(src, 1), ByteAt(src, 2));
            && CodeAt(s, cs, 0) == c.c0 && CodeAt(s, cs, 1) == c.c1
            && (|src| > 1 ==> CodeAt(s, cs, 2) == c.c2) && (|src| > 2 ==> CodeAt(s, cs, 3) == c.c3)
  {
    var c := cs.packing.codes(ByteAt(src, 0), ByteAt(src, 1), ByteAt(src, 2));
    var g := Group(src, cs);
    ReverseOfDigit(cs, c.c0);
    ReverseOfDigit(cs, c.c1);
    ReverseOfDigit(cs, c.c2);
    ReverseOfDigit(cs, c.c3);
    assert forall k :: 0 <= k <= |src| ==> s[k] == s[..|src| + 1][k] == g[k];
  }

  lemma {:induction false} GroupBytes(src: seq<Byte>, cs: Digits, s: seq<Byte>, c: Codes)
    requires Packs(cs.packing) && 1 <= |src| <= 3 && |s| > |src| && AllDigits(s, cs, |src| + 1)
    requires c == cs.packing.codes(ByteAt(src, 0), ByteAt(src, 1), ByteAt(src, 2))
    requires CodeAt(s, cs, 0) == c.c0 && CodeAt(s, cs, 1) == c.c1
    requires (|src| > 1 ==> CodeAt(s, cs, 2) == c.c2) && (|src| > 2 ==> CodeAt(s, cs, 3) == c.c3)
    ensures Bytes(s, cs, |src| + 1) == src
  {
    assert cs.packing.bytes(c) == (ByteAt(src, 0), ByteAt(src, 1), ByteAt(src, 2));
    assert [ByteAt(src, 0), ByteAt(src, 1), ByteAt(src, 2)][..|src|] == src;
  }

  /** Decoding undoes encoding, for padded strings. */
  lemma {:induction false} RoundTrip(src: seq<Byte>, cs: Digits)
    requires Proper(cs)
    ensures Decoded(Encoded(src, cs), cs) == Some(src)
    decreases |src|
  {
    var s := Encoded(src, cs);
    if 1 <= |src| <= 3 {
      GroupRoundTrip(src, cs, s);
      assert |src| == 3 ==> s[4..] == [] && src + [] == src;
    } else if |src| > 3 {
      GroupRoundTrip(src[..3], cs, s);
      RoundTrip(src[3..], cs);
      assert s[4..] == Encoded(src[3..], cs);
      assert src == src[..3] + src[3..];
    }
  }

  /** The characters before the first NUL. */
  function CString(s: seq<Byte>): (r: seq<Byte>) {
    if s == [] || s[0] == 0 then [] else [s[0]] + CString(s[1..])
  }

  lemma {:induction false} CStringPasses(s: seq<Byte>, t: seq<Byte>)
    requires 0 !in s
    ensures CString(s + t) == s + CString(t)
    decreases |s|
  {
    if s == [] {
      assert s + t == t;
    } else {
      assert (s + t)[1..] == s[1..] + t;
      CStringPasses(s[1..], t);
    }
  }

  /** What is left of a group when its NUL padding is cut. */
  function Kept(src: seq<Byte>, cs: Digits): (r: seq<Byte>)
    requires 1 <= |src| <= 3
  {
    if cs.padding == 0 then Group(src, cs)[..|src| + 1] else Group(src, cs)
  }

  lemma {:induction false} GroupCut(src: seq<Byte>, cs: Digits, rest: seq<Byte>)
    requires Proper(cs) && 1 <= |src| <= 3 && (|src| == 3 || rest == [])
    ensures CString(Group(src, cs) + rest) == Kept(src, cs) + CString(rest)
  {
    var g := Group(src, cs);
    var d, p := g[..|src| + 1], g[|src| + 1..];
    GroupRoundTrip(src, cs, g);
    assert 0 !in d by { forall k | 0 <= k < |d| ensures d[k] != 0 { assert d[k] == g[k]; } }
    assert g == d + p && g + rest == d + (p + rest);
    CStringPasses(d, p + rest);
    if |src| == 3 {
      assert p + rest == rest;
    } else if cs.padding != 0 {
      CStringPasses(p, rest);
    }
  }

  /** Decoding undoes encoding also when the encoded string ends before its NUL padding. */
  lemma {:induction false} StringRoundTrip(src: seq<Byte>, cs: Digits)
    requires Proper(cs)
    ensures Decoded(CString(Encoded(src, cs)), cs) == Some(src)
    decreases |src|
  {
    if 1 <= |src| <= 3 {
      ShortStringRoundTrip(src, cs);
    } else if |src| > 3 {
      StringRoundTrip(src[3..], cs);
      var rest := CString(Encoded(src[3..], cs));
      GroupCut(src[..3], cs, Encoded(src[3..], cs));
      GroupThenRest(src[..3], cs, rest);
      assert src == src[..3] + src[3..];
    }
  }

  lemma {:induction false} GroupThenRest(group: seq<Byte>, cs: Digits, rest: seq<Byte>)
    requires Proper(cs) && |group| == 3 && Decoded(rest, cs).Some?
    ensures Decoded(Kept(group, cs) + rest, cs) == Some(group + Decoded(rest, cs).value)
  {
    var s := Kept(group, cs) + rest;
    GroupRoundTrip(group, cs, s);
    assert s[4..] == rest;
  }

  lemma {:induction false} ShortStringRoundTrip(src: seq<Byte>, cs: Digits)
    requires Proper(cs) && 1 <= |src| <= 3
    ensures Decoded(CString(Encoded(src, cs)), cs) == Some(src)
  {
    GroupCut(src, cs, []);
    var s := Kept(src, cs);
    assert CString([]) == [];
    assert Encoded(src, cs) + [] == Encoded(src, cs) && s + [] == s;
    GroupRoundTrip(src, cs, s);
    assert |src| == 3 ==> s[4..] == [] && src + [] == src;
  }

  // ----- the two character sets of the program -----

  /** The letters and figures, and two characters more. */
  function Alphabet(last: char, veryLast: char): (r: seq<Byte>)
    requires last as int < 0x100 && veryLast as int < 0x100
    ensures |r| == 64
  {
    seq(64, k requires 0 <= k < 64 =>
      if k < 26 then 'A' as int + k
      else if k < 52 then 'a' as int + k - 26
      else if k < 62 then '0' as int + k - 52
      else if k == 62 then last as int else veryLast as int)
  }

  function Mime(): (cs: Digits) {
    CharacterSet(Alphabet('+', '/'), '=' as int, Rfc())
  }

  function UrlFriendly(): (cs: Digits) {
    CharacterSet(Alphabet('-', '_'), 0, Rfc())
  }

  /** Strings in either set decode to what was encoded. */
  lemma {:induction false} StandardSetsRoundTrip(src: seq<Byte>)
    ensures Decoded(CString(Encoded(src, Mime())), Mime()) == Some(src)
    ensures Decoded(CString(Encoded(src, UrlFriendly())), UrlFriendly()) == Some(src)
  {
    RfcPacks();
    StringRoundTrip(src, Mime());
    StringRoundTrip(src, UrlFriendly());
  }

  const UPPER := "ABCDEFGHIJKLMNOPQRSTUVWXYZ"
  const LOWER := "abcdefghijklmnopqrstuvwxyz"
  const FIGURES := "0123456789"

  lemma {:induction false} UpperAt(k: nat)
    requires k < 26
    ensures |UPPER| == 26 && UPPER[k] as int == 'A' as int + k
  {
    assert k == 0 || k == 1 || k == 2 || k == 3 || k == 4 || k == 5 || k == 6 || k == 7 || k == 8 || k == 9
      || k == 10 || k == 11 || k == 12 || k == 13 || k == 14 || k == 15 || k == 16 || k == 17 || k == 18 || k == 19
      || k == 20 || k == 21 || k == 22 || k == 23 || k == 24 || k == 25;
  }

  lemma {:induction false} LowerAt(k: nat)
    requires k < 26
    ensures |LOWER| == 26 && LOWER[k] as int == 'a' as int + k
  {
    assert k == 0 || k == 1 || k == 2 || k == 3 || k == 4 || k == 5 || k == 6 || k == 7 || k == 8 || k == 9
      || k == 10 || k == 11 || k == 12 || k == 13 || k == 14 || k == 15 || k == 16 || k == 17 || k == 18 || k == 19
      || k == 20 || k == 21 || k == 22 || k == 23 || k == 24 || k == 25;
  }

  lemma {:induction false} FigureAt(k: nat)
    requires k < 10
    ensures |FIGURES| == 10 && FIGURES[k] as int == '0' as int + k
  {
    assert k == 0 || k == 1 || k == 2 || k == 3 || k == 4 || k == 5 || k == 6 || k == 7 || k == 8 || k == 9;
  }

  lemma {:induction false} CharacterAt(u: string, l: string, f: string, t: string, k: nat)
    requires |u| == 26 && |l| == 26 && |f| == 10 && |t| == 2 && k < 64
    ensures |u + l + f + t| == 64
    ensures (u + l + f + t)[k]
         == if k < 26 then u[k] else if k < 52 then l[k - 26] else if k < 62 then f[k - 52] else t[k - 62]
  {
  }

  /** The letters, the figures and the two characters more, in this order. */
  lemma {:induction false} AlphabetAt(last: char, veryLast: char, k: nat)
    requires last as int < 0x100 && veryLast as int < 0x100 && k < 64
    ensures |UPPER + LOWER + FIGURES + [last, veryLast]| == 64
    ensures Alphabet(last, veryLast)[k] == (UPPER + LOWER + FIGURES + [last, veryLast])[k] as int
  {
    UpperAt(0);
    LowerAt(0);
    FigureAt(0);
    CharacterAt(UPPER, LOWER, FIGURES, [last, veryLast], k);
    if k < 26 {
      UpperAt(k);
    } else if k < 52 {
      LowerAt(k - 26);
    } else if k < 62 {
      FigureAt(k - 52);
    }
  }

  /** The digits of the two sets, and their padding. */
  lemma {:induction false} StandardDigits(k: nat)
    requires k < 64
    ensures |UPPER + LOWER + FIGURES + ['+', '/']| == |UPPER + LOWER + FIGURES + ['-', '_']| == 64
    ensures Mime().digits[k] == (UPPER + LOWER + FIGURES + ['+', '/'])[k] as int
    ensures UrlFriendly().digits[k] == (UPPER + LOWER + FIGURES + ['-', '_'])[k] as int
    ensures Mime().padding == '=' as int && UrlFriendly().padding == 0
  {
    AlphabetAt('+', '/', k);
    AlphabetAt('-', '_', k);
  }
}
