/** Hexadecimal strings through the Hashids codec: twelve digits at a time behind a leading 1. */
module HashidsHex {
  import opened HashidsSpec
  import opened HashidsCodec
  import opened Hashids

  predicate IsHex(c: char) {
    '0' <= c <= '9' || 'a' <= c <= 'f' || 'A' <= c <= 'F'
  }

  predicate IsLowerHex(c: char) {
    '0' <= c <= '9' || 'a' <= c <= 'f'
  }

  ghost predicate LowerHex(s: string) {
    forall k :: 0 <= k < |s| ==> IsLowerHex(s[k])
  }

  function Lower(c: char): (r: char)
    requires IsHex(c)
    ensures IsLowerHex(r) && (IsLowerHex(c) ==> r == c)
  {
    if 'A' <= c <= 'F' then (c as int - 'A' as int + 'a' as int) as char else c
  }

  /** The hexadecimal digits of s, lower-cased; all other characters are skipped. */
  function HexDigits(s: string): (r: string)
    ensures LowerHex(r)
  {
    if s == "" then ""
    else
      var rest := HexDigits(s[..|s| - 1]);
      if IsHex(s[|s| - 1]) then rest + [Lower(s[|s| - 1])] else rest
  }

  function DigitValue(c: char): (n: nat)
    requires IsLowerHex(c)
    ensures n < 16 && (n == 0 <==> c == '0')
  {
    if c <= '9' then c as int - '0' as int else c as int - 'a' as int + 10
  }

  function HexChar(n: nat): (c: char)
    requires n < 16
    ensures IsLowerHex(c) && DigitValue(c) == n
  {
    if n < 10 then ('0' as int + n) as char else ('a' as int + n - 10) as char
  }

  /** std::stoull(s, nullptr, 16) for a string of lower-case digits. */
  function HexValue(s: string): (n: nat)
    requires LowerHex(s)
  {
    if s == "" then 0 else 16 * HexValue(s[..|s| - 1]) + DigitValue(s[|s| - 1])
  }

  /** The output of `<< std::hex`. */
  function HexText(n: nat): (r: string)
    ensures r != "" && LowerHex(r)
    decreases n
  {
    if n < 16 then [HexChar(n)] else HexText(n / 16) + [HexChar(n % 16)]
  }

  /** Printing undoes parsing when there is no leading zero. */
  lemma {:induction false} TextOfValue(s: string)
    requires LowerHex(s) && s != "" && s[0] != '0'
    ensures HexText(HexValue(s)) == s && HexValue(s) > 0
    decreases |s|
  {
    var init, last := s[..|s| - 1], s[|s| - 1];
    var d := DigitValue(last);
    CharOfValue(last);
    if |s| == 1 {
      assert init == "" && HexValue(init) == 0;
    } else {
      TextOfValue(init);
      assert HexValue(s) / 16 == HexValue(init) && HexValue(s) % 16 == d;
      assert s == init + [last];
    }
  }

  lemma {:induction false} CharOfValue(c: char)
    requires IsLowerHex(c)
    ensures HexChar(DigitValue(c)) == c
  {
  }

  function Pow16(k: nat): nat {
    if k == 0 then 1 else 16 * Pow16(k - 1)
  }

  lemma {:induction false} HexValueBelow(s: string, k: nat)
    requires LowerHex(s) && |s| <= k
    ensures HexValue(s) < Pow16(k)
    decreases k
  {
    if s != "" { HexValueBelow(s[..|s| - 1], k - 1); }
    else if k > 0 { HexValueBelow(s, k - 1); }
  }

  lemma {:induction false} Pow16Of13()
    ensures Pow16(13) == 0x10_0000_0000_0000
  {
    assert Pow16(13) == 16 * Pow16(12) == 256 * Pow16(11) == 0x1000 * Pow16(10) == 0x10000 * Pow16(9);
    assert Pow16(9) == 16 * Pow16(8) == 256 * Pow16(7) == 0x1000 * Pow16(6) == 0x10000 * Pow16(5);
    assert Pow16(5) == 16 * Pow16(4) == 256 * Pow16(3) == 0x1000 * Pow16(2) == 0x10000 * Pow16(1);
  }

  // ----- blocks of twelve digits -----

  /** The number for one block: its digits behind a 1. */
  function BlockValue(d: string): (n: nat)
    requires LowerHex(d)
  {
    HexValue("1" + d)
  }

  function Blocks(d: string): (r: seq<nat>)
    requires LowerHex(d)
    ensures d != "" ==> r != []
    decreases |d|
  {
    if d == "" then []
    else if |d| <= 12 then [BlockValue(d)]
    else [BlockValue(d[..12])] + Blocks(d[12..])
  }

  function Concat(ss: seq<string>): (r: string) {
    if ss == [] then "" else Concat(ss[..|ss| - 1]) + ss[|ss| - 1]
  }

  /** The text of each number without its leading digit. */
  function Tails(ns: seq<nat>): (r: seq<string>)
    ensures |r| == |ns| && forall k :: 0 <= k < |ns| ==> r[k] == HexText(ns[k])[1..]
  {
    seq(|ns|, k requires 0 <= k < |ns| => HexText(ns[k])[1..])
  }

  lemma {:induction false} TailsPrepend(n: nat, ns: seq<nat>)
    ensures Tails([n] + ns) == [HexText(n)[1..]] + Tails(ns)
  {
    var r, s := Tails([n] + ns), [HexText(n)[1..]] + Tails(ns);
    forall k | 0 <= k < |r| ensures r[k] == s[k] {
      if k > 0 { assert ([n] + ns)[k] == ns[k - 1]; }
    }
  }

  lemma {:induction false} ConcatPrepend(s: string, ss: seq<string>)
    ensures Concat([s] + ss) == s + Concat(ss)
    decreases |ss|
  {
    if ss == [] {
      assert [s] + ss == [s] && [s][..0] == [];
    } else {
      assert ([s] + ss)[..|ss|] == [s] + ss[..|ss| - 1];
      ConcatPrepend(s, ss[..|ss| - 1]);
    }
  }

  /** The number of a block is written as its digits behind a one. */
  lemma {:induction false} BlockText(d: string)
    requires LowerHex(d) && |d| <= 12
    ensures HexText(BlockValue(d)) == "1" + d
  {
    TextOfValue("1" + d);
  }

  lemma {:induction false} BlockRoundTrip(d: string)
    requires LowerHex(d) && |d| <= 12
    ensures HexText(BlockValue(d))[1..] == d && BlockValue(d) < WORD
  {
    BlockText(d);
    TextOfValue("1" + d);
    HexValueBelow("1" + d, 13);
    Pow16Of13();
  }

  lemma {:induction false} FirstBlock(d: string, first: string, rest: string)
    requires LowerHex(d) && d != ""
    requires if |d| <= 12 then first == d && rest == "" else first == d[..12] && rest == d[12..]
    ensures d == first + rest && LowerHex(first) && LowerHex(rest) && |first| <= 12 && |rest| < |d|
    ensures Blocks(d) == [BlockValue(first)] + Blocks(rest)
  {
  }

  lemma {:induction false} BlocksRoundTrip(d: string)
    requires LowerHex(d)
    ensures Concat(Tails(Blocks(d))) == d && Words(Blocks(d))
    decreases |d|
  {
    if d != "" {
      var first := if |d| <= 12 then d else d[..12];
      var rest := if |d| <= 12 then "" else d[12..];
      FirstBlock(d, first, rest);
      BlockRoundTrip(first);
      BlocksRoundTrip(rest);
      TailsPrepend(BlockValue(first), Blocks(rest));
      ConcatPrepend(first, Tails(Blocks(rest)));
    }
  }

  lemma {:induction false} BlocksAppend(done: string, d: string)
    requires LowerHex(done) && LowerHex(d) && |done| % 12 == 0 && 0 < |d| <= 12
    ensures LowerHex(done + d) && Blocks(done + d) == Blocks(done) + [BlockValue(d)]
    decreases |done|
  {
    if done == "" {
      assert done + d == d;
    } else if |done| == 12 {
      assert (done + d)[..12] == done && (done + d)[12..] == d;
    } else {
      assert (done + d)[..12] == done[..12] && (done + d)[12..] == done[12..] + d;
      BlocksAppend(done[12..], d);
    }
  }

  /** decodeHex undoes encodeHex up to the case of the digits, whenever there is a digit. */
  lemma {:induction false} HexRoundTrip(c: Config, s: string)
    requires Valid(c) && HexDigits(s) != ""
    ensures var e := Encode(c, Blocks(HexDigits(s)));
            e != "" && Concat(Tails(Decode(c, e))) == HexDigits(s)
  {
    BlocksRoundTrip(HexDigits(s));
    RoundTrip(c, Blocks(HexDigits(s)));
  }

  lemma {:induction false} BlocksAppendTo(done: string, d: string, blocks: nat)
    requires LowerHex(done) && LowerHex(d) && |done| == 12 * blocks && 0 < |d| <= 12
    ensures LowerHex(done + d) && Blocks(done + d) == Blocks(done) + [BlockValue(d)]
  {
    BlocksAppend(done, d);
  }

  // ----- the loops -----

  method EncodeHex(c: Config, input: string) returns (output: string)
    requires Valid(c)
    ensures output == Encode(c, Blocks(HexDigits(input)))
  {
    var numbers := CollectBlocks(input);
    output := EncodeNumbers(c, numbers);
  }

  /** Collects hexadecimal digits, twelve at a time. */
  method CollectBlocks(input: string) returns (numbers: seq<nat>)
    ensures numbers == Blocks(HexDigits(input))
  {
    numbers := [];
    var buffer := "";
    ghost var done := "";
    for i := 0 to |input|
      invariant HexDigits(input[..i]) == done + HexDigits(buffer)
      invariant |HexDigits(buffer)| == |buffer| < 12
      invariant |done| == 12 * |numbers| && LowerHex(done) && numbers == Blocks(done)
    {
      HexDigitsStep(input, i, done, buffer);
      if IsHex(input[i]) { buffer := buffer + [input[i]]; }
      if |buffer| == 12 {
        BlocksAppendTo(done, HexDigits(buffer), |numbers|);
        numbers := numbers + [BlockValue(HexDigits(buffer))];
        done := done + HexDigits(buffer);
        buffer := "";
        assert done + HexDigits("") == done;
      }
    }
    assert input[..|input|] == input;
    if buffer != "" {
      BlocksAppendTo(done, HexDigits(buffer), |numbers|);
      numbers := numbers + [BlockValue(HexDigits(buffer))];
    } else {
      assert done + HexDigits("") == done;
    }
  }

  lemma {:induction false} HexDigitsStep(input: string, i: nat, done: string, buffer: string)
    requires i < |input|
    requires HexDigits(input[..i]) == done + HexDigits(buffer) && |HexDigits(buffer)| == |buffer|
    ensures var b := if IsHex(input[i]) then buffer + [input[i]] else buffer;
            HexDigits(input[..i + 1]) == done + HexDigits(b) && |HexDigits(b)| == |b|
  {
    assert input[..i + 1][..i] == input[..i];
    if IsHex(input[i]) {
      assert (buffer + [input[i]])[..|buffer|] == buffer;
      assert done + (HexDigits(buffer) + [Lower(input[i])]) == done + HexDigits(buffer) + [Lower(input[i])];
    }
  }

  method DecodeHex(c: Config, input: string) returns (output: string)
    requires input != ""
    ensures output == Concat(Tails(Decode(c, input)))
  {
    output := "";
    var numbers := DecodeNumbers(c, input);
    for i := 0 to |numbers|
      invariant output == Concat(Tails(numbers)[..i])
    {
      assert Tails(numbers)[..i + 1][..i] == Tails(numbers)[..i];
      output := output + HexText(numbers[i])[1..];
    }
    assert Tails(numbers)[..|numbers|] == Tails(numbers);
  }
}
