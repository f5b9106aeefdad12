/** The base64 loops over a destination buffer. */
module Base64Buffers {
  import opened Wrappers
  import opened Bits
  import opened Base64

  ghost predicate PacksAsRfc(p: Packing) {
    && (forall b0: Byte, b1: Byte, b2: Byte {:trigger CodesOf(b0, b1, b2)} ::
      p.codes(b0, b1, b2) == CodesOf(b0, b1, b2))
    && (forall c: Codes {:trigger BytesOf(c)} :: p.bytes(c) == BytesOf(c))
  }

  type RfcDigits = cs: Digits | PacksAsRfc(cs.packing) witness CharacterSet(seq(64, i => 0), 0, Rfc())

  function Least(m: nat, n: nat): (r: nat) {
    if m < n then m else n
  }

  /** The shifts of the encoder take the same bits. */
  lemma {:induction false} ShiftsAreCodes(b0: Byte, b1: Byte, b2: Byte)
    ensures var c := CodesOf(b0, b1, b2);
            b0 / 4 % 64 == c.c0 && TwoBytes(b0, b1) / 16 % 64 == c.c1
            && ThreeBytes(b0, b1, b2) / 64 % 64 == c.c2 && ThreeBytes(b0, b1, b2) % 64 == c.c3
  {
    ShiftsOfParts(b0 / 4, b0 % 4, b1 / 16, b1 % 16, b2 / 64, b2 % 64);
  }

  lemma {:induction false} ShiftsOfParts(h0: nat, l0: nat, h1: nat, l1: nat, h2: nat, l2: nat)
    requires h0 < 64 && l0 < 4 && h1 < 16 && l1 < 16 && h2 < 4 && l2 < 64
    ensures var b0: Byte, b1: Byte, b2: Byte := 4 * h0 + l0, 16 * h1 + l1, 64 * h2 + l2;
            var c := CodesOf(b0, b1, b2);
            b0 / 4 % 64 == c.c0 && TwoBytes(b0, b1) / 16 % 64 == c.c1
            && ThreeBytes(b0, b1, b2) / 64 % 64 == c.c2 && ThreeBytes(b0, b1, b2) % 64 == c.c3
  {
    CodesOfParts(h0, l0, h1, l1, h2, l2);
    Small(h0, 64);
    RemainderIs(0x100 * (4 * h0 + l0) + 16 * h1 + l1, 16, 64 * h0 + 16 * l0 + h1, l1);
    RemainderIs(64 * h0 + 16 * l0 + h1, 64, h0, 16 * l0 + h1);
  }

  function TwoBytes(b0: Byte, b1: Byte): (r: nat) { 0x100 * b0 + b1 }

  function ThreeBytes(b0: Byte, b1: Byte, b2: Byte): (r: nat) { 0x100 * (0x100 * b0 + b1) + b2 }

  lemma {:induction false} GroupOf(src: seq<Byte>, i: nat, k: nat, cs: RfcDigits)
    requires i < |src| && k == Least(i + 3, |src|)
    ensures var c := CodesOf(src[i], ByteAt(src, i + 1), ByteAt(src, i + 2));
            Group(src[i..k], cs)
            == [cs.digits[c.c0], cs.digits[c.c1],
                if k > i + 1 then cs.digits[c.c2] else cs.padding, if k > i + 2 then cs.digits[c.c3] else cs.padding]
  {
    var s := src[i..k];
    assert s[0] == src[i] && ByteAt(s, 1) == ByteAt(src, i + 1) && ByteAt(s, 2) == ByteAt(src, i + 2);
    var c := CodesOf(src[i], ByteAt(src, i + 1), ByteAt(src, i + 2));
    assert c == cs.packing.codes(src[i], ByteAt(src, i + 1), ByteAt(src, i + 2));
  }

  method EncodeGroup(dst: array<Byte>, j: nat, src: seq<Byte>, i: nat, cs: RfcDigits) returns (i': nat)
    requires i < |src| && j + 4 <= dst.Length
    modifies dst
    ensures i' == Least(i + 3, |src|) && dst[j..j + 4] == Group(src[i..i'], cs)
    ensures dst[..j] == old(dst[..j]) && dst[j + 4..] == old(dst[j + 4..])
  {
    ghost var c := CodesOf(src[i], ByteAt(src, i + 1), ByteAt(src, i + 2));
    ShiftsAreCodes(src[i], ByteAt(src, i + 1), ByteAt(src, i + 2));
    GroupOf(src, i, Least(i + 3, |src|), cs);
    var n: nat := src[i];
    i' := i + 1;
    dst[j] := cs.digits[n / 4 % 64];
    n := 0x100 * n;
    if i' != |src| { n := n + src[i']; }
    assert n == TwoBytes(src[i], ByteAt(src, i + 1));
    dst[j + 1] := cs.digits[n / 16 % 64];
    if i' == |src| {
      dst[j + 2] := cs.padding;
      dst[j + 3] := cs.padding;
    } else {
      i' := i' + 1;
      n := 0x100 * n;
      if i' != |src| { n := n + src[i']; }
      assert n == ThreeBytes(src[i], ByteAt(src, i + 1), ByteAt(src, i + 2));
      dst[j + 2] := cs.digits[n / 64 % 64];
      if i' == |src| {
        dst[j + 3] := cs.padding;
      } else {
        i' := i' + 1;
        dst[j + 3] := cs.digits[n % 64];
      }
    }
    assert dst[j..j + 4] == [dst[j], dst[j + 1], dst[j + 2], dst[j + 3]];
  }

  /** Writes the encoding and a NUL, never past the advertised length, and nothing behind it. */
  method Encode(dst: array<Byte>, src: seq<Byte>, cs: RfcDigits) returns (size: nat)
    requires dst.Length >= EncodedLength(|src|)
    modifies dst
    ensures size < EncodedLength(|src|) && dst[..size] == Encoded(src, cs) && dst[size] == 0
    ensures dst[size + 1..] == old(dst[size + 1..])
  {
    EncodedFits(src, cs);
    size := EncodeGroups(dst, src, cs);
    dst[size] := 0;
  }

  method EncodeGroups(dst: array<Byte>, src: seq<Byte>, cs: RfcDigits) returns (j: nat)
    requires dst.Length >= |Encoded(src, cs)|
    modifies dst
    ensures j == |Encoded(src, cs)| && dst[..j] == Encoded(src, cs)
    ensures dst[j..] == old(dst[j..])
  {
    var i: nat := 0;
    j := 0;
    assert src[0..] == src;
    ghost var all := Encoded(src, cs);
    ghost var done, rest := [], all;
    while i != |src|
      invariant i <= |src| && rest == Encoded(src[i..], cs) && done + rest == all
      invariant j == |done| && dst[..j] == done && dst[j..] == old(dst[j..])
      decreases |src| - i
    {
      EncodedStep(src, i, cs);
      ghost var group := rest[..4];
      Regroup(done, rest, 4);
      i := EncodeGroup(dst, j, src, i, cs);
      assert dst[..j + 4] == done + group;
      j, done, rest := j + 4, done + group, rest[4..];
    }
    assert done + [] == done;
  }

  lemma {:induction false} Regroup(done: seq<Byte>, rest: seq<Byte>, n: nat)
    requires n <= |rest|
    ensures done + rest == (done + rest[..n]) + rest[n..]
  {
  }

  lemma {:induction false} EncodedStep(src: seq<Byte>, i: nat, cs: Digits)
    requires i < |src|
    ensures var k := Least(i + 3, |src|);
            var e := Encoded(src[i..], cs);
            |e| >= 4 && e[..4] == Group(src[i..k], cs) && e[4..] == Encoded(src[k..], cs)
  {
    var s := src[i..];
    var k := Least(i + 3, |src|);
    if |s| <= 3 {
      assert src[i..k] == s && src[k..] == [];
      assert Group(s, cs) + [] == Group(s, cs);
    } else {
      assert s[..3] == src[i..k] && s[3..] == src[k..];
    }
  }

  /** The string form: a buffer of the advertised length, read up to its first NUL. */
  method EncodeString(src: seq<Byte>, cs: RfcDigits) returns (r: seq<Byte>)
    requires Proper(cs)
    ensures r == CString(Encoded(src, cs)) && Decoded(r, cs) == Some(src)
  {
    var dst := new Byte[EncodedLength(|src|)](i => 0xff);
    var size := Encode(dst, src, cs);
    r := [];
    var k: nat := 0;
    while dst[k] != 0
      invariant k <= size && r == dst[..k] && 0 !in r && size < dst.Length && dst[size] == 0
      invariant dst[..size] == Encoded(src, cs)
      decreases size - k
    {
      assert dst[..k + 1] == dst[..k] + [dst[k]];
      r := r + [dst[k]];
      k := k + 1;
    }
    StoppedAt(Encoded(src, cs), r, k, dst[..size]);
    StringRoundTrip(src, cs);
  }

  lemma {:induction false} StoppedAt(s: seq<Byte>, r: seq<Byte>, k: nat, t: seq<Byte>)
    requires s == t && k <= |s| && r == s[..k] && 0 !in r && (k == |s| || s[k] == 0)
    ensures CString(s) == r
  {
    assert s == r + s[k..];
    CStringPasses(r, s[k..]);
    assert r + [] == r;
  }

  // ----- decoding -----

  lemma {:induction false} IndexInMore(digits: seq<Byte>, i: nat, c: Byte)
    requires i < |digits| <= 64
    ensures IndexIn(digits[..i + 1], c) == if c == digits[i] then i else IndexIn(digits[..i], c)
  {
    assert digits[..i + 1][..i] == digits[..i];
  }

  method ReverseMapping(cs: Digits) returns (reverse: array<Byte>)
    ensures fresh(reverse) && reverse.Length == 0x100
        && forall c: Byte {:trigger reverse[c]} :: reverse[c] == Reverse(cs, c)
  {
    reverse := new Byte[0x100](c => 0xff);
    for i := 0 to 64
      invariant forall c: Byte :: reverse[c] == IndexIn(cs.digits[..i], c)
    {
      forall c: Byte
        ensures IndexIn(cs.digits[..i + 1], c) == if c == cs.digits[i] then i else IndexIn(cs.digits[..i], c)
      {
        IndexInMore(cs.digits, i, c);
      }
      reverse[cs.digits[i]] := i;
    }
    assert cs.digits[..64] == cs.digits;
  }

  /** The bytes of one group, shifted together. */
  lemma {:induction false} BytesAreShifts(c0: Six, c1: Six, c2: Six, c3: Six)
    ensures var b := BytesOf(Codes(c0, c1, c2, c3));
            && b.0 == (4 * c0 + c1 / 16) % 0x100 && b.1 == (16 * (c1 % 16) + c2 / 4) % 0x100
              && b.2 == (64 * (c2 % 4) + c3) % 0x100
  {
    BytesAre(Codes(c0, c1, c2, c3));
  }

  /** A buffer with other bytes from position `j` on. */
  ghost function Overwritten(buffer: seq<Byte>, j: nat, bytes: seq<Byte>): (r: seq<Byte>)
    requires j + |bytes| <= |buffer|
    ensures |r| == |buffer|
  {
    buffer[..j] + bytes + buffer[j + |bytes|..]
  }

  lemma {:induction false} OverwrittenNow(was: seq<Byte>, now: seq<Byte>, j: nat, bytes: seq<Byte>)
    requires j + |bytes| <= |was| == |now| && now[..j] == was[..j] && now[j..j + |bytes|] == bytes
    requires now[j + |bytes|..] == was[j + |bytes|..]
    ensures now == Overwritten(was, j, bytes)
  {
    assert now == now[..j] + now[j..j + |bytes|] + now[j + |bytes|..];
  }

  lemma {:induction false} OverwrittenBefore(buffer: seq<Byte>, done: seq<Byte>, now: seq<Byte>, j: nat, k: nat)
    requires |done| <= j <= k <= |buffer| == |now| && now[j..] == Overwritten(buffer, 0, done)[j..]
    ensures now[k..] == buffer[k..]
  {
    forall i | k <= i < |now| ensures now[i] == buffer[i] { assert now[i] == now[j..][i - j]; }
  }

  lemma {:induction false} OverwrittenFurther(buffer: seq<Byte>, done: seq<Byte>, bytes: seq<Byte>)
    requires |done| + |bytes| <= |buffer|
    ensures Overwritten(Overwritten(buffer, 0, done), |done|, bytes) == Overwritten(buffer, 0, done + bytes)
  {
  }

  /** Decodes the group at `i`: `n` of its characters are there. */
  method DecodeGroup(dst: array<Byte>, j: nat, src: seq<Byte>, i: nat, reverse: array<Byte>, cs: RfcDigits)
      returns (ok: bool, n: nat)
    requires i < |src| && j + 3 <= dst.Length && dst != reverse
    requires reverse.Length == 0x100 && forall c: Byte {:trigger reverse[c]} :: reverse[c] == Reverse(cs, c)
    modifies dst
    ensures var s := src[i..]; ok <==> |s| > 1 && AllDigits(s, cs, Present(s, cs))
    ensures ok ==> n == Present(src[i..], cs) && dst[j..j + n - 1] == Bytes(src[i..], cs, n)
    ensures dst[..j] == old(dst[..j])
    ensures ok ==> dst[j + n - 1..] == old(dst[j + n - 1..])
    ensures dst[j + 3..] == old(dst[j + 3..])
  {
    ghost var s := src[i..];
    var c0 := reverse[src[i]];
    if c0 > 63 || i + 1 == |src| { return false, 0; }
    assert s[0] == src[i] && s[1] == src[i + 1];
    var c1 := reverse[src[i + 1]];
    if c1 > 63 { return false, 0; }
    dst[j] := (4 * c0 + c1 / 16) % 0x100;
    if i + 2 == |src| || src[i + 2] == cs.padding {
      BytesAreShifts(c0, c1, 0, 0);
      return true, 2;
    }
    assert s[2] == src[i + 2];
    var c2 := reverse[src[i + 2]];
    if c2 > 63 { return false, 0; }
    dst[j + 1] := (16 * (c1 % 16) + c2 / 4) % 0x100;
    if i + 3 == |src| || src[i + 3] == cs.padding {
      BytesAreShifts(c0, c1, c2, 0);
      return true, 3;
    }
    assert s[3] == src[i + 3];
    var c3 := reverse[src[i + 3]];
    if c3 > 63 { return false, 0; }
    dst[j + 2] := (64 * (c2 % 4) + c3) % 0x100;
    BytesAreShifts(c0, c1, c2, c3);
    return true, 4;
  }

  method OverwriteGroup(dst: array<Byte>, j: nat, src: seq<Byte>, i: nat, reverse: array<Byte>, cs: RfcDigits)
      returns (ok: bool, n: nat)
    requires i < |src| && j + 3 <= dst.Length && dst != reverse
    requires reverse.Length == 0x100 && forall c: Byte {:trigger reverse[c]} :: reverse[c] == Reverse(cs, c)
    modifies dst
    ensures var s := src[i..]; ok <==> |s| > 1 && AllDigits(s, cs, Present(s, cs))
    ensures ok ==> n == Present(src[i..], cs) && dst[..] == Overwritten(old(dst[..]), j, Bytes(src[i..], cs, n))
    ensures dst[j + 3..] == old(dst[j + 3..])
  {
    ok, n := DecodeGroup(dst, j, src, i, reverse, cs);
    if ok { OverwrittenNow(old(dst[..]), dst[..], j, Bytes(src[i..], cs, n)); }
  }

  ghost function After(before: seq<Byte>, rest: Option<seq<Byte>>): (r: Option<seq<Byte>>) {
    if rest.None? then None else Some(before + rest.value)
  }

  lemma {:induction false} DecodedStep(s: seq<Byte>, cs: Digits, before: seq<Byte>)
    requires |s| > 1 && AllDigits(s, cs, Present(s, cs))
    ensures var n := Present(s, cs);
            After(before, Decoded(s, cs))
                == After(before + Bytes(s, cs, n), if n < 4 then Some([]) else Decoded(s[n..], cs))
  {
    var n := Present(s, cs);
    var bytes := Bytes(s, cs, n);
    if n < 4 {
      assert before + bytes + [] == before + bytes;
    } else if Decoded(s[4..], cs).Some? {
      assert before + (bytes + Decoded(s[4..], cs).value) == before + bytes + Decoded(s[4..], cs).value;
    }
  }

  lemma {:induction false} RoomLeft(j: nat, left: int, groups: nat, rest: nat, room: nat)
    requires j + 3 * left <= 3 * groups <= room && 0 < rest <= 4 * left
    ensures j + 3 <= room && left >= 1
  {
  }

  lemma {:induction false} BehindGroup(src: seq<Byte>, i: nat, n: nat, left: int)
    requires i <= |src| && n <= |src[i..]| && n <= 4 && |src| - i <= 4 * left
    ensures i + n <= |src| && src[i..][n..] == src[i + n..] && (n == 4 ==> |src| - (i + n) <= 4 * (left - 1))
  {
  }

  lemma {:induction false} FailedGroup(s: seq<Byte>, cs: Digits)
    requires s != [] && !(|s| > 1 && AllDigits(s, cs, Present(s, cs)))
    ensures Decoded(s, cs) == None
  {
  }

  lemma {:induction false} AfterNothing(r: Option<seq<Byte>>)
    ensures After([], r) == r
  {
    if r.Some? { assert [] + r.value == r.value; }
  }

  /** Fails iff the string cannot be decoded.  Nothing behind the decoded bytes is written, and
      after a failure nothing behind the advertised length. */
  method Decode(dst: array<Byte>, src: seq<Byte>, cs: RfcDigits) returns (ok: bool, size: nat)
    requires dst.Length >= DecodedLength(|src|)
    modifies dst
    ensures ok <==> Decoded(src, cs).Some?
    ensures ok ==> size <= DecodedLength(|src|) && dst[..size] == Decoded(src, cs).value
    ensures ok ==> dst[size..] == old(dst[size..])
    ensures dst[DecodedLength(|src|)..] == old(dst[DecodedLength(|src|)..])
  {
    var reverse := ReverseMapping(cs);
    ok, size := DecodeGroups(dst, src, reverse, cs, (|src| + 3) / 4);
  }

  /** `groups` is the number of groups that the source may have, and the destination holds. */
  method DecodeGroups(dst: array<Byte>, src: seq<Byte>, reverse: array<Byte>, cs: RfcDigits, ghost groups: nat)
      returns (ok: bool, size: nat)
    requires dst.Length >= 3 * groups && |src| <= 4 * groups && dst != reverse
    requires reverse.Length == 0x100 && forall c: Byte {:trigger reverse[c]} :: reverse[c] == Reverse(cs, c)
    modifies dst
    ensures ok <==> Decoded(src, cs).Some?
    ensures ok ==> size <= 3 * groups && |Decoded(src, cs).value| == size
    ensures ok ==> dst[..] == Overwritten(old(dst[..]), 0, Decoded(src, cs).value)
    ensures dst[3 * groups..] == old(dst[3 * groups..])
  {
    var i: nat, j: nat := 0, 0;
    var last := false;
    assert src[0..] == src;
    AfterNothing(Decoded(src, cs));
    ghost var left, s, done, rest := groups, src, [], Decoded(src, cs);
    while !last && i != |src|
      invariant i <= |src| && j + 3 * left <= 3 * groups && (last || |src| - i <= 4 * left)
      invariant forall c: Byte {:trigger reverse[c]} :: reverse[c] == Reverse(cs, c)
      invariant j == |done| && dst[..] == Overwritten(old(dst[..]), 0, done) && After(done, rest) == Decoded(src, cs)
      invariant s == src[i..] && rest == if last then Some([]) else Decoded(s, cs)
      decreases !last, |src| - i
    {
      RoomLeft(j, left, groups, |src| - i, dst.Length);
      var n: nat;
      ok, n := OverwriteGroup(dst, j, src, i, reverse, cs);
      if !ok {
        FailedGroup(s, cs);
        assert rest == None;
        OverwrittenBefore(old(dst[..]), done, dst[..], j + 3, 3 * groups);
        return false, j;
      }
      ghost var bytes := Bytes(s, cs, n);
      OverwrittenFurther(old(dst[..]), done, bytes);
      DecodedStep(s, cs, done);
      BehindGroup(src, i, n, left);
      i, j, last, left := i + n, j + n - 1, n < 4, left - 1;
      s, done := s[n..], done + bytes;
      rest := if last then Some([]) else Decoded(s, cs);
    }
    ok, size := true, j;
    assert rest == Some([]) && done + [] == done;
    OverwrittenBefore(old(dst[..]), done, dst[..], j, 3 * groups);
  }
}
