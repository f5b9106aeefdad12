/** The Hashids codec as a whole: the partition of the alphabet, encode and decode,
    and the round trips. */
module HashidsCodec {
  import opened Wrappers
  import opened HashidsSpec

  /** The fields of a constructed codec. */
  datatype Config = Config(salt: string, alphabet: string, separators: string, guards: string, minLength: nat)

  const SEPARATORS := "cfhistuCFHISTU"

  // ----- the partition of the alphabet -----

  function Keep(s: string, t: string): (r: string) {
    if s == "" then ""
    else Keep(s[..|s| - 1], t) + (if s[|s| - 1] in t then [s[|s| - 1]] else "")
  }

  function Drop(s: string, t: string): (r: string) {
    if s == "" then ""
    else Drop(s[..|s| - 1], t) + (if s[|s| - 1] in t then "" else [s[|s| - 1]])
  }

  /** ceil(length / 3.5) */
  function MinSeparators(length: nat): (r: nat) {
    (2 * length + 6) / 7
  }

  /** ceil(length / 12) */
  function GuardCount(length: nat): (r: nat) {
    (length + 11) / 12
  }

  /** How many characters move from the alphabet to the separators. */
  function Moved(alphabet: nat, separators: nat): (r: nat) {
    var least := MinSeparators(alphabet);
    if separators == 0 || separators < least then
      var least' := if least == 1 then 2 else least;
      if least' > separators then least' - separators else 0
    else 0
  }

  /** Moves characters to the separators if there are too few, shuffles, and cuts off the guards. */
  function Arrange(salt: string, minLength: nat, a0: string, s0: string): (r: Option<Config>) {
    var m := Moved(|a0|, |s0|);
    if m > |a0| then None  // std::string::substr throws
    else
      var s1 := Shuffle(s0, salt) + a0[..m];
      var a1 := Shuffle(a0[m..], salt);
      var g := GuardCount(|a1|);
      if |a1| < 3 then
        if g > |s1| then None else Some(Config(salt, a1, s1[g..], s1[..g], minLength))
      else
        Some(Config(salt, a1[g..], s1, a1[..g], minLength))
  }

  function Configure(salt: string, minLength: nat, alphabet: string): (r: Option<Config>) {
    var s0 := Keep(SEPARATORS, alphabet);
    var a0 := Drop(alphabet, s0);
    if |a0| + |s0| < 16 then None else Arrange(salt, minLength, a0, s0)
  }

  ghost predicate NoNul(s: string) {
    forall c :: c in s ==> c as int > 0
  }

  ghost predicate Valid(c: Config) {
    && |c.alphabet| >= 2 && c.separators != "" && c.guards != ""
    && Distinct(c.alphabet) && NoNul(c.alphabet)
    && Avoids(c.alphabet, c.separators) && Avoids(c.alphabet, c.guards) && Avoids(c.separators, c.guards)
  }

  lemma {:induction false} KeepMembers(s: string, t: string)
    ensures forall c :: c in Keep(s, t) <==> c in s && c in t
    ensures Distinct(s) ==> Distinct(Keep(s, t))
  {
    if s != "" {
      var n := |s| - 1;
      KeepMembers(s[..n], t);
      assert s == s[..n] + [s[n]];
      if Distinct(s) { assert s[n] !in s[..n]; }
    }
  }

  lemma {:induction false} DropMembers(s: string, t: string)
    ensures forall c :: c in Drop(s, t) <==> c in s && c !in t
    ensures Distinct(s) ==> Distinct(Drop(s, t))
  {
    if s != "" {
      var n := |s| - 1;
      DropMembers(s[..n], t);
      assert s == s[..n] + [s[n]];
      if Distinct(s) { assert s[n] !in s[..n]; }
    }
  }

  lemma {:induction false} DistinctCount(s: string, c: char)
    requires Distinct(s)
    ensures multiset(s)[c] == if c in s then 1 else 0
  {
    DistinctCountsOnce(s, c);
    if c in s { assert c in multiset(s); } else { assert c !in multiset(s); }
  }

  /** Separators and remaining alphabet together are the alphabet again. */
  lemma {:induction false} FirstPartition(alphabet: string)
    requires Distinct(alphabet)
    ensures var s0 := Keep(SEPARATORS, alphabet);
            var a0 := Drop(alphabet, s0);
            multiset(a0) + multiset(s0) == multiset(alphabet) && |s0| <= 14
  {
    var s0 := Keep(SEPARATORS, alphabet);
    var a0 := Drop(alphabet, s0);
    KeepMembers(SEPARATORS, alphabet);
    DropMembers(alphabet, s0);
    KeepLength(SEPARATORS, alphabet);
    forall c ensures (multiset(a0) + multiset(s0))[c] == multiset(alphabet)[c] {
      DistinctCount(a0, c);
      DistinctCount(s0, c);
      DistinctCount(alphabet, c);
    }
  }

  lemma {:induction false} KeepLength(s: string, t: string)
    ensures |Keep(s, t)| <= |s|
    decreases |s|
  {
    if s != "" { KeepLength(s[..|s| - 1], t); }
  }

  /** Every character of the given alphabet ends up in exactly one of the three parts. */
  lemma {:induction false} ConfigurePartitions(salt: string, minLength: nat, alphabet: string)
    requires Distinct(alphabet) && NoNul(alphabet)
    ensures var r := Configure(salt, minLength, alphabet);
            && (r.Some? <==> |alphabet| >= 16)
            && (r.Some? ==>
                  && Valid(r.value) && r.value.salt == salt && r.value.minLength == minLength
                  && multiset(r.value.alphabet + r.value.separators + r.value.guards) == multiset(alphabet))
  {
    var s0 := Keep(SEPARATORS, alphabet);
    var a0 := Drop(alphabet, s0);
    FirstPartition(alphabet);
    assert |alphabet| == |multiset(alphabet)| == |multiset(a0)| + |multiset(s0)| == |a0| + |s0|;
    if |alphabet| >= 16 {
      ArrangePartitions(salt, minLength, a0, s0);
      ThreePartsValid(Arrange(salt, minLength, a0, s0).value, alphabet);
    }
  }

  lemma {:induction false} ArrangePartitions(salt: string, minLength: nat, a0: string, s0: string)
    requires |a0| + |s0| >= 16 && |s0| <= 14
    ensures var r := Arrange(salt, minLength, a0, s0);
            && r.Some? && |r.value.alphabet| >= 2 && r.value.separators != "" && r.value.guards != ""
            && r.value.salt == salt && r.value.minLength == minLength
            && multiset(r.value.alphabet + r.value.separators + r.value.guards) == multiset(a0) + multiset(s0)
  {
    SizesSuffice(|a0|, |s0|);
    var m := Moved(|a0|, |s0|);
    var s1 := Shuffle(s0, salt) + a0[..m];
    var a1 := Shuffle(a0[m..], salt);
    SecondPartition(salt, a0, s0, m);
    CutKeeps(a1, GuardCount(|a1|));
    CutKeeps(s1, GuardCount(|a1|));
  }

  /** With at least 16 characters, at most 14 of them separators, no part comes out empty. */
  lemma {:induction false} SizesSuffice(a: nat, s: nat)
    requires a + s >= 16 && s <= 14
    ensures var m := Moved(a, s);
            var g := GuardCount(a - m);
            m <= a && a - m >= 2 && s + m >= 2 && g >= 1
            && (if a - m < 3 then g < s + m else g + 2 <= a - m)
  {
  }

  lemma {:induction false} SecondPartition(salt: string, a0: string, s0: string, m: nat)
    requires m <= |a0|
    ensures multiset(Shuffle(a0[m..], salt)) + multiset(Shuffle(s0, salt) + a0[..m]) == multiset(a0) + multiset(s0)
  {
    ShufflePermutes(s0, salt);
    ShufflePermutes(a0[m..], salt);
    assert a0 == a0[..m] + a0[m..];
  }

  lemma {:induction false} CutKeeps(s: string, g: nat)
    ensures g <= |s| ==> multiset(s[..g]) + multiset(s[g..]) == multiset(s)
  {
    if g <= |s| { assert s == s[..g] + s[g..]; }
  }

  lemma {:induction false} ThreePartsValid(c: Config, alphabet: string)
    requires Distinct(alphabet) && NoNul(alphabet)
    requires multiset(c.alphabet + c.separators + c.guards) == multiset(alphabet)
    requires |c.alphabet| >= 2 && c.separators != "" && c.guards != ""
    ensures Valid(c)
  {
    var all := c.alphabet + c.separators + c.guards;
    PermutationKeepsDistinct(alphabet, all);
    PermutationKeepsMembers(alphabet, all);
    var n, m := |c.alphabet|, |c.alphabet| + |c.separators|;
    assert all[..n] == c.alphabet && all[n..m] == c.separators && all[m..] == c.guards;
    forall x | x in c.alphabet ensures x as int > 0 { assert x in all; }
    DisjointRanges(all, 0, n, n, m);
    DisjointRanges(all, 0, n, m, |all|);
    DisjointRanges(all, n, m, m, |all|);
  }

  lemma {:induction false} DisjointRanges(s: string, i: nat, j: nat, k: nat, l: nat)
    requires Distinct(s) && i <= j <= k <= l <= |s|
    ensures Avoids(s[i..j], s[k..l])
  {
  }

  // ----- encode -----

  /** The checksum that picks the lottery character and the guards. */
  function ValuesHash(ns: seq<nat>): (h: nat) {
    if ns == [] then 0 else ValuesHash(ns[..|ns| - 1]) + ns[|ns| - 1] % (|ns| - 1 + 100)
  }

  function Lottery(c: Config, ns: seq<nat>): (r: char)
    requires c.alphabet != ""
    ensures r in c.alphabet
  {
    c.alphabet[ValuesHash(ns) % |c.alphabet|]
  }

  lemma {:induction false} WithinIsGood(pieces: seq<string>, alphabet: string, others: string)
    requires AllWithin(pieces, alphabet) && NoNul(alphabet) && Avoids(alphabet, others)
    ensures GoodPieces(pieces, others)
  {
    forall k | 0 <= k < |pieces|
      ensures pieces[k] != "" && pieces[k][0] as int > 0 && Avoids(pieces[k], others)
    {
      assert Within(pieces[k], alphabet) && pieces[k][0] in pieces[k];
    }
  }

  function PiecesOf(c: Config, ns: seq<nat>): (r: seq<string>)
    requires Valid(c)
    ensures |r| == |ns| && GoodPieces(r, c.separators) && GoodPieces(r, c.guards)
  {
    PiecesWithin(c.salt, Lottery(c, ns), c.alphabet, ns);
    WithinIsGood(Pieces(c.salt, Lottery(c, ns), c.alphabet, ns), c.alphabet, c.separators);
    WithinIsGood(Pieces(c.salt, Lottery(c, ns), c.alphabet, ns), c.alphabet, c.guards);
    Pieces(c.salt, Lottery(c, ns), c.alphabet, ns)
  }

  /** The encoding before padding. */
  function Body(c: Config, ns: seq<nat>): (r: string)
    requires Valid(c) && ns != []
    ensures |r| >= 2 && r[0] == Lottery(c, ns)
  {
    var j := Joined(c.separators, PiecesOf(c, ns), ns, 0);
    [Lottery(c, ns)] + j[..|j| - 1]
  }

  function Encode(c: Config, ns: seq<nat>): (r: string)
    requires Valid(c)
  {
    if ns == [] then ""
    else
      var body := Body(c, ns);
      if |body| < c.minLength then
        Pad(Guarded(c.guards, c.minLength, body, ValuesHash(ns)),
            AlphabetAfter(c.salt, Lottery(c, ns), c.alphabet, |ns|), c.minLength)
      else body
  }

  // ----- decode -----

  function Decode(c: Config, s: string): (r: seq<nat>)
    requires s != ""
  {
    var parts := Split(s, c.guards);
    SplitNonEmpty(s, c.guards, "");
    var hashid := if |parts| >= 2 then parts[1] else parts[0];
    if hashid == "" then []
    else Numbers(c.salt, hashid[0], c.alphabet, Split(hashid[1..], c.separators))
  }

  lemma {:induction false} SplitNonEmpty(s: string, splitters: string, tmp: string)
    requires s + tmp != ""
    ensures SplitFrom(s, splitters, tmp) != []
    decreases |s|
  {
    if s != "" && s[0] !in splitters { SplitNonEmpty(s[1..], splitters, tmp + [s[0]]); }
  }

  /** The body decodes to the numbers. */
  lemma {:induction false} BodyDecodes(c: Config, ns: seq<nat>)
    requires Valid(c) && ns != [] && Words(ns)
    ensures var b := Body(c, ns);
            Numbers(c.salt, b[0], c.alphabet, Split(b[1..], c.separators)) == ns
  {
    var pieces := PiecesOf(c, ns);
    var j := Joined(c.separators, pieces, ns, 0);
    assert Body(c, ns)[1..] == j[..|j| - 1];
    SplitJoined(c.separators, pieces, ns, 0);
    NumbersOfPieces(c.salt, Lottery(c, ns), c.alphabet, ns);
  }

  lemma {:induction false} BodyAvoidsGuards(c: Config, ns: seq<nat>)
    requires Valid(c) && ns != []
    ensures Avoids(Body(c, ns), c.guards)
  {
    JoinedAvoids(c.separators, PiecesOf(c, ns), ns, 0, c.guards);
  }

  lemma {:induction false} RoundTrip(c: Config, ns: seq<nat>)
    requires Valid(c) && ns != [] && Words(ns)
    ensures Encode(c, ns) != "" && Decode(c, Encode(c, ns)) == ns
    ensures |Encode(c, ns)| == if |Body(c, ns)| < c.minLength then c.minLength else |Body(c, ns)|
  {
    var body := Body(c, ns);
    BodyAvoidsGuards(c, ns);
    BodyDecodes(c, ns);
    if |body| < c.minLength {
      var a := AlphabetAfter(c.salt, Lottery(c, ns), c.alphabet, |ns|);
      AlphabetAfterPermutes(c.salt, Lottery(c, ns), c.alphabet, |ns|);
      PermutationKeepsMembers(c.alphabet, a);
      SplitPadded(c.guards, c.minLength, body, ValuesHash(ns), a);
    } else {
      assert body + "" == body && "" + body == body;
      SplitSkips(body, "", c.guards, "");
    }
  }

  /** From the constructor's arguments to the decoded numbers. */
  lemma {:induction false} HashidsRoundTrip(salt: string, minLength: nat, alphabet: string, ns: seq<nat>)
    requires Distinct(alphabet) && NoNul(alphabet) && |alphabet| >= 16
    requires ns != [] && Words(ns)
    ensures var r := Configure(salt, minLength, alphabet);
            && r.Some? && Valid(r.value)
            && Encode(r.value, ns) != "" && Decode(r.value, Encode(r.value, ns)) == ns
            && |Encode(r.value, ns)| == if |Body(r.value, ns)| < minLength then minLength else |Body(r.value, ns)|
  {
    ConfigurePartitions(salt, minLength, alphabet);
    RoundTrip(Configure(salt, minLength, alphabet).value, ns);
  }
}
