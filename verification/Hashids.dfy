/** The loops of the Hashids codec, each proved against its function. */
module Hashids {
  import opened Wrappers
  import opened HashidsSpec
  import opened HashidsCodec

  method SwapAt(input: array<char>, i: nat, j: nat)
    requires i < input.Length && j < input.Length
    modifies input
    ensures input[..] == Swap(old(input[..]), i, j)
  {
    input[i], input[j] := input[j], input[i];
  }

  /** Shuffles the characters in place, keyed by the salt. */
  method Reorder(input: array<char>, salt: string)
    modifies input
    ensures input[..] == Shuffle(old(input[..]), salt)
    ensures multiset(input[..]) == old(multiset(input[..]))
  {
    ghost var start := input[..];
    ShufflePermutes(start, salt);
    if salt == "" || input.Length == 0 { return; }
    var i: nat, index: nat, sum: nat := input.Length - 1, 0, 0;
    ghost var now := start;
    while i > 0
      invariant now == input[..] && |now| == |start| && i < |start|
      invariant ShuffleFrom(now, salt, i, index, sum) == Shuffle(start, salt)
    {
      var k := Wrap(index, |salt|);
      var c := salt[k] as int;
      var j := Target(c, k, sum + c, i);
      SwapAt(input, i, j);
      now := Swap(now, i, j);
      i, index, sum := i - 1, k + 1, sum + c;
    }
  }

  /** Shuffles a copy. */
  method Reordered(s: string, salt: string) returns (r: string)
    ensures r == Shuffle(s, salt)
  {
    var a := new char[|s|](i requires 0 <= i < |s| => s[i]);
    assert a[..] == s;
    Reorder(a, salt);
    r := a[..];
  }

  method Construct(salt: string, minLength: nat, alphabet: string) returns (r: Option<Config>)
    ensures r == Configure(salt, minLength, alphabet)
  {
    var s := "";
    for i := 0 to |SEPARATORS|
      invariant s == Keep(SEPARATORS[..i], alphabet)
    {
      assert SEPARATORS[..i + 1][..i] == SEPARATORS[..i];
      if SEPARATORS[i] in alphabet { s := s + [SEPARATORS[i]]; }
    }
    assert SEPARATORS[..|SEPARATORS|] == SEPARATORS;
    var a := "";
    for i := 0 to |alphabet|
      invariant a == Drop(alphabet[..i], s)
    {
      assert alphabet[..i + 1][..i] == alphabet[..i];
      if alphabet[i] !in s { a := a + [alphabet[i]]; }
    }
    assert alphabet[..|alphabet|] == alphabet;
    if |a| + |s| < 16 { return None; }

    var m := Moved(|a|, |s|);
    s := Reordered(s, salt);
    if m > |a| { return None; }
    s, a := s + a[..m], a[m..];
    a := Reordered(a, salt);
    var g := GuardCount(|a|);
    if |a| < 3 {
      if g > |s| { return None; }
      return Some(Config(salt, a, s[g..], s[..g], minLength));
    }
    return Some(Config(salt, a[g..], s, a[..g], minLength));
  }

  /** Least significant digit first, then reversed. */
  method Hash(number: nat, alphabet: string) returns (r: string)
    requires |alphabet| >= 2
    ensures r == Digits(number, alphabet)
  {
    var n: nat, b := number, |alphabet|;
    var output := "";
    while true
      invariant Digits(number, alphabet) == Digits(n, alphabet) + Backwards(output)
      decreases n
    {
      DigitStep(n, alphabet, output);
      output := output + [alphabet[n % b]];
      if n / b == 0 { break; }
      n := n / b;
    }
    r := Backwards(output);
  }

  lemma {:induction false} DigitStep(n: nat, alphabet: string, output: string)
    requires |alphabet| >= 2
    ensures var b := |alphabet|;
            var o := output + [alphabet[n % b]];
            && Digits(n, alphabet) + Backwards(output)
              == (if n / b == 0 then "" else Digits(n / b, alphabet)) + Backwards(o)
            && (n / b != 0 ==> n / b < n)
  {
    var b := |alphabet|;
    var o := output + [alphabet[n % b]];
    DivisionFacts(n, b);
    assert o[..|output|] == output && Backwards(o) == [alphabet[n % b]] + Backwards(output);
    if n < b {
      assert n % b == n;
    } else {
      assert Digits(n, alphabet) == Digits(n / b, alphabet) + [alphabet[n % b]];
    }
  }

  function Backwards(s: string): (r: string)
    ensures |r| == |s|
  {
    if s == "" then "" else [s[|s| - 1]] + Backwards(s[..|s| - 1])
  }

  method SplitOn(input: string, splitters: string) returns (parts: seq<string>)
    ensures parts == Split(input, splitters)
  {
    parts := [];
    var tmp := "";
    for i := 0 to |input|
      invariant parts + SplitFrom(input[i..], splitters, tmp) == Split(input, splitters)
    {
      assert input[i..][1..] == input[i + 1..];
      if input[i] in splitters {
        parts, tmp := parts + [tmp], "";
      } else {
        tmp := tmp + [input[i]];
      }
    }
    if tmp != "" { parts := parts + [tmp]; }
  }

  method EnsureLength(c: Config, body: string, alphabet: string, valuesHash: nat) returns (output: string)
    requires c.guards != "" && |body| >= 2 && alphabet != ""
    ensures output == Pad(Guarded(c.guards, c.minLength, body, valuesHash), alphabet, c.minLength)
  {
    output := [c.guards[(valuesHash + body[0] as int) % |c.guards|]] + body;
    if |output| < c.minLength {
      output := output + [c.guards[(valuesHash + output[2] as int) % |c.guards|]];
    }
    assert output == Guarded(c.guards, c.minLength, body, valuesHash);
    var a := alphabet;
    while |output| < c.minLength
      invariant |a| == |alphabet|
      invariant Pad(output, a, c.minLength)
          == Pad(Guarded(c.guards, c.minLength, body, valuesHash), alphabet, c.minLength)
      decreases c.minLength - |output|
    {
      a := Reordered(a, a);
      output := PadRound(output, a, c.minLength);
    }
  }

  method PadRound(out: string, alphabet: string, minLength: nat) returns (output: string)
    requires |out| < minLength
    ensures output == PadOnce(out, alphabet, minLength)
  {
    var half := |alphabet| / 2;
    output := alphabet[half..] + out + alphabet[..half];
    if |output| > minLength {
      var from := (|output| - minLength) / 2;
      output := output[from..from + minLength];
    }
  }

  method EncodeNumbers(c: Config, ns: seq<nat>) returns (output: string)
    requires Valid(c)
    ensures output == Encode(c, ns)
  {
    if ns == [] { return ""; }
    var valuesHash := 0;
    for i := 0 to |ns|
      invariant valuesHash == ValuesHash(ns[..i])
    {
      assert ns[..i + 1][..i] == ns[..i];
      valuesHash := valuesHash + ns[i] % (i + 100);
    }
    assert ns[..|ns|] == ns;
    var lottery := c.alphabet[valuesHash % |c.alphabet|];
    var joined, alphabet := EncodePieces(c, ns, lottery);
    // The last separator is erased.
    output := [lottery] + joined[..|joined| - 1];
    if |output| < c.minLength {
      output := EnsureLength(c, output, alphabet, valuesHash);
    }
  }

  /** The main loop of the encoder. */
  method EncodePieces(c: Config, ns: seq<nat>, lottery: char) returns (output: string, alphabet: string)
    requires Valid(c) && lottery == Lottery(c, ns)
    ensures output == Joined(c.separators, PiecesOf(c, ns), ns, 0)
    ensures alphabet == AlphabetAfter(c.salt, lottery, c.alphabet, |ns|)
  {
    output, alphabet := "", c.alphabet;
    ghost var pieces := PiecesOf(c, ns);
    assert pieces[0..] == pieces && ns[0..] == ns;
    for i := 0 to |ns|
      invariant |alphabet| == |c.alphabet|
      invariant pieces[i..] == Pieces(c.salt, lottery, alphabet, ns[i..])
      invariant output + Joined(c.separators, pieces[i..], ns[i..], i) == Joined(c.separators, pieces, ns, 0)
      invariant AlphabetAfter(c.salt, lottery, alphabet, |ns| - i) == AlphabetAfter(c.salt, lottery, c.alphabet, |ns|)
    {
      PiecesStep(c.salt, lottery, alphabet, ns[i..]);
      JoinedStep(c.separators, pieces, ns, i, output);
      assert ns[i..][1..] == ns[i + 1..] && pieces[i..][1..] == pieces[i + 1..];
      alphabet := Reordered(alphabet, [lottery] + c.salt + alphabet);
      var last := Hash(ns[i], alphabet);
      assert last == pieces[i..][0] == pieces[i];
      output := output + last + [Separator(c.separators, ns[i], last[0], i)];
    }
    assert output + "" == output;
  }

  lemma {:induction false} JoinedStep(separators: string, pieces: seq<string>, ns: seq<nat>, i: nat, output: string)
    requires separators != "" && |pieces| == |ns| && i < |ns| && GoodPieces(pieces, separators)
    ensures output + Joined(separators, pieces[i..], ns[i..], i)
         == output + pieces[i] + [Separator(separators, ns[i], pieces[i][0], i)]
            + Joined(separators, pieces[i + 1..], ns[i + 1..], i + 1)
  {
    assert pieces[i..][1..] == pieces[i + 1..] && ns[i..][1..] == ns[i + 1..];
  }

  lemma {:induction false} PiecesStep(salt: string, lottery: char, alphabet: string, ns: seq<nat>)
    requires |alphabet| >= 2 && ns != []
    ensures var a := NextAlphabet(salt, lottery, alphabet);
            var ps := Pieces(salt, lottery, alphabet, ns);
            ps[0] == Digits(ns[0], a) && ps[1..] == Pieces(salt, lottery, a, ns[1..])
  {
  }

  method DecodeNumbers(c: Config, input: string) returns (output: seq<nat>)
    requires input != ""
    ensures output == Decode(c, input)
  {
    output := [];
    var parts := SplitOn(input, c.guards);
    SplitNonEmpty(input, c.guards, "");
    var hashid := parts[0];
    if |parts| >= 2 { hashid := parts[1]; }
    if hashid == "" { return; }
    var lottery := hashid[0];
    var alphabet := c.alphabet;
    var pieces := SplitOn(hashid[1..], c.separators);
    for i := 0 to |pieces|
      invariant output + Numbers(c.salt, lottery, alphabet, pieces[i..]) == Numbers(c.salt, lottery, c.alphabet, pieces)
    {
      alphabet := Reordered(alphabet, ([lottery] + c.salt + alphabet)[..|alphabet|]);
      assert pieces[i..][1..] == pieces[i + 1..];
      output := output + [Undigits(pieces[i], alphabet)];
    }
  }
}
