/** The characters that the Hashids codec writes, in closed form. */
module HashidsLaws {
  import opened Bits
  import opened HashidsSpec
  import opened HashidsCodec

  // ----- the swaps of the shuffle -----

  /** The sum of the first `n` salt characters, over and over. */
  function SaltSum(salt: string, n: nat): (r: nat)
    requires salt != ""
  {
    if n == 0 then 0 else SaltSum(salt, n - 1) + salt[(n - 1) % |salt|] as int
  }

  /** In the swap with number `n`, the last position that is left is swapped with this one. */
  function Partner(length: nat, salt: string, n: nat): (j: nat)
    requires salt != "" && n + 1 < length
  {
    (salt[n % |salt|] as int + n % |salt| + SaltSum(salt, n + 1)) % (length - 1 - n)
  }

  /** The string after the first `n` swaps, each of the last position that is left with its partner. */
  function Swapped(s: string, salt: string, n: nat): (r: string)
    requires salt != "" && (n == 0 || n < |s|)
    ensures |r| == |s|
  {
    if n == 0 then s
    else
      var before := Swapped(s, salt, n - 1);
      var i, j := |s| - n, Partner(|s|, salt, n - 1);
      before[i := before[j]][j := before[i]]
  }

  lemma {:induction false} NextIndex(n: nat, m: nat)
    requires m > 0
    ensures Wrap(n % m + 1, m) == (n + 1) % m
  {
    var q, r := n / m, n % m;
    Whole(n, m);
    if r + 1 < m {
      RemainderIs(n + 1, m, q, r + 1);
    } else {
      RemainderIs(m, m, 1, 0);
      assert m * (q + 1) == m * q + m;
      RemainderIs(n + 1, m, q + 1, 0);
    }
  }

  lemma {:induction false} ShuffleFromSwaps(s: string, salt: string, n: nat, index: nat)
    requires salt != "" && n < |s| && Wrap(index, |salt|) == n % |salt|
    ensures ShuffleFrom(Swapped(s, salt, n), salt, |s| - 1 - n, index, SaltSum(salt, n)) == Swapped(s, salt, |s| - 1)
    decreases |s| - n
  {
    if n < |s| - 1 {
      NextIndex(n, |salt|);
      ShuffleFromSwaps(s, salt, n + 1, n % |salt| + 1);
    }
  }

  /** The shuffle makes exactly these swaps; without a salt it makes none. */
  lemma {:induction false} ShuffleSwaps(s: string, salt: string)
    ensures Shuffle(s, salt) == if salt == "" || s == "" then s else Swapped(s, salt, |s| - 1)
  {
    if salt != "" && s != "" {
      Small(0, |salt|);
      ShuffleFromSwaps(s, salt, 0, 0);
    }
  }

  // ----- the parts of the alphabet -----

  /** `k` is the ceiling of `n / d`. */
  ghost predicate IsCeiling(k: int, n: int, d: real) {
    (k - 1) as real * d < n as real <= k as real * d
  }

  lemma {:induction false} SizesAreCeilings(n: nat)
    ensures IsCeiling(MinSeparators(n), n, 3.5) && IsCeiling(GuardCount(n), n, 12.0)
  {
    var k, g: int := MinSeparators(n), GuardCount(n);
    assert 7 * (k - 1) < 2 * n <= 7 * k;
    assert 12 * (g - 1) < n <= 12 * g;
    assert (7 * (k - 1)) as real < (2 * n) as real <= (7 * k) as real;
    assert (12 * (g - 1)) as real < n as real <= (12 * g) as real;
  }

  ghost predicate InOrderIn(s: string, x: char, y: char) {
    exists a, b :: 0 <= a < b < |s| && s[a] == x && s[b] == y
  }

  /** The characters of the default separators that the alphabet has, in their order. */
  ghost predicate DefaultSeparators(s: string, alphabet: string) {
    && (forall c :: c in s <==> c in alphabet && c in "cfhistuCFHISTU")
    && (forall i, j :: 0 <= i < j < |s| ==> InOrderIn("cfhistuCFHISTU", s[i], s[j]))
  }

  lemma {:induction false} KeepInOrder(s: string, t: string)
    ensures forall i, j :: 0 <= i < j < |Keep(s, t)| ==> InOrderIn(s, Keep(s, t)[i], Keep(s, t)[j])
    decreases |s|
  {
    if s != "" {
      var last := |s| - 1;
      var before, r := Keep(s[..last], t), Keep(s, t);
      KeepInOrder(s[..last], t);
      KeepMembers(s[..last], t);
      forall i, j | 0 <= i < j < |r| ensures InOrderIn(s, r[i], r[j]) {
        if j < |before| {
          assert InOrderIn(s[..last], before[i], before[j]);
          var a, b :| 0 <= a < b < last && s[..last][a] == before[i] && s[..last][b] == before[j];
          assert s[a] == r[i] && s[b] == r[j];
        } else {
          assert before[i] in s[..last];
          var a :| 0 <= a < last && s[..last][a] == before[i];
          assert s[a] == r[i] && s[last] == r[j];
        }
      }
    }
  }

  /** How many characters join the separators: at least a 3.5th as many separators as there are
      other characters are asked for, and never just one. */
  ghost predicate Joining(m: nat, others: nat, separators: nat, least: nat) {
    && IsCeiling(least, others, 3.5)
    && if separators > 0 && separators >= least then m == 0
       else
         var asked := if least == 1 then 2 else least;
         m == if asked > separators then asked - separators else 0
  }

  /** The default separators that the alphabet has are shuffled; if they are too few, the first
      other characters join them; the rest is shuffled, and a 12th is cut off as guards, from the
      separators if the rest is tiny. */
  lemma {:induction false} PartsOfAlphabet(salt: string, minLength: nat, alphabet: string)
      returns (s: string, others: string, m: nat, least: nat)
    requires Distinct(alphabet) && NoNul(alphabet) && |alphabet| >= 16
    ensures DefaultSeparators(s, alphabet) && others == Drop(alphabet, s)
    ensures Joining(m, |others|, |s|, least) && m <= |others|
    ensures Configure(salt, minLength, alphabet).Some?
    ensures var c := Configure(salt, minLength, alphabet).value;
            && IsCeiling(|c.guards|, |others| - m, 12.0)
            && CutFrom(c, Shuffle(s, salt) + others[..m], Shuffle(others[m..], salt))
  {
    ConfigurePartitions(salt, minLength, alphabet);
    s := Keep(SEPARATORS, alphabet);
    others := Drop(alphabet, s);
    m := Moved(|others|, |s|);
    least := MinSeparators(|others|);
    KeepMembers(SEPARATORS, alphabet);
    KeepInOrder(SEPARATORS, alphabet);
    SizesAreCeilings(|others|);
    SizesAreCeilings(|others| - m);
    ArrangedParts(salt, minLength, others, s);
  }

  /** The separators and the shuffled rest, of which guards are cut off. */
  ghost predicate CutFrom(c: Config, separators: string, rest: string) {
    if |rest| < 3 then c.guards + c.separators == separators && c.alphabet == rest
    else c.guards + c.alphabet == rest && c.separators == separators
  }

  lemma {:induction false} CutTogether(s: string, g: nat)
    requires g <= |s|
    ensures s[..g] + s[g..] == s
  {
  }

  lemma {:induction false} ArrangedParts(salt: string, minLength: nat, others: string, s: string)
    requires Arrange(salt, minLength, others, s).Some?
    ensures var c, m := Arrange(salt, minLength, others, s).value, Moved(|others|, |s|);
            && m <= |others| && |c.guards| == GuardCount(|others| - m)
            && CutFrom(c, Shuffle(s, salt) + others[..m], Shuffle(others[m..], salt))
  {
    var m := Moved(|others|, |s|);
    var s1, a1 := Shuffle(s, salt) + others[..m], Shuffle(others[m..], salt);
    var g := GuardCount(|a1|);
    if |a1| < 3 { CutTogether(s1, g); } else { CutTogether(a1, g); }
  }

  // ----- the encoding before padding -----

  /** The alphabet for the number at a place: shuffled once for each number so far, by the lottery
      character, the salt and the alphabet before. */
  function AlphabetFor(c: Config, lottery: char, k: nat): (r: string)
    ensures |r| == |c.alphabet|
  {
    var before := if k == 0 then c.alphabet else AlphabetFor(c, lottery, k - 1);
    Shuffle(before, [lottery] + c.salt + before)
  }

  /** The sum that chooses the lottery character. */
  function LotterySum(ns: seq<nat>): (r: nat) {
    if ns == [] then 0 else LotterySum(ns[..|ns| - 1]) + ns[|ns| - 1] % (|ns| - 1 + 100)
  }

  /** The pieces from place `k` on, with a separator behind all but the last: which one, its number,
      the first character of its piece and its place decide. */
  function TextFrom(separators: string, ps: seq<string>, ns: seq<nat>, k: nat): (r: string)
    requires separators != "" && |ps| == |ns| && k < |ns|
    requires forall i :: 0 <= i < |ps| ==> ps[i] != "" && ps[i][0] as int > 0
    decreases |ns| - k
  {
    if k + 1 == |ns| then ps[k]
    else
      ps[k] + [separators[ns[k] % (ps[k][0] as int + k) % |separators|]] + TextFrom(separators, ps, ns, k + 1)
  }

  function AlphabetBefore(c: Config, lottery: char, k: nat): (r: string)
    ensures |r| == |c.alphabet|
  {
    if k == 0 then c.alphabet else AlphabetFor(c, lottery, k - 1)
  }

  /** The pieces are the digits of the numbers from place `k` on, each in its alphabet. */
  ghost predicate PiecesFrom(c: Config, lottery: char, ns: seq<nat>, k: nat, ps: seq<string>)
    requires |c.alphabet| >= 2 && k <= |ns|
  {
    |ps| == |ns| - k && forall i :: 0 <= i < |ps| ==> ps[i] == Digits(ns[k + i], AlphabetFor(c, lottery, k + i))
  }

  lemma {:induction false} PiecesAre(c: Config, lottery: char, ns: seq<nat>, k: nat)
    requires |c.alphabet| >= 2 && k <= |ns|
    ensures PiecesFrom(c, lottery, ns, k, Pieces(c.salt, lottery, AlphabetBefore(c, lottery, k), ns[k..]))
    decreases |ns| - k
  {
    if k < |ns| {
      var ps := Pieces(c.salt, lottery, AlphabetBefore(c, lottery, k), ns[k..]);
      assert ns[k..][0] == ns[k] && ns[k..][1..] == ns[k + 1..];
      assert NextAlphabet(c.salt, lottery, AlphabetBefore(c, lottery, k)) == AlphabetFor(c, lottery, k);
      PiecesAre(c, lottery, ns, k + 1);
      forall i | 0 <= i < |ps| ensures ps[i] == Digits(ns[k + i], AlphabetFor(c, lottery, k + i)) {
        if i > 0 { assert ps[i] == ps[1..][i - 1]; }
      }
    }
  }

  lemma {:induction false} WithoutLast(a: string, c: char, rest: string)
    ensures var j := a + [c] + rest; j[..|j| - 1] == if rest == "" then a else a + [c] + rest[..|rest| - 1]
  {
  }

  lemma {:induction false} JoinedFrom(separators: string, ps: seq<string>, ns: seq<nat>, k: nat)
    requires separators != "" && |ps| == |ns| && k < |ns| && GoodPieces(ps, separators)
    ensures Joined(separators, ps[k..], ns[k..], k)
         == ps[k] + [Separator(separators, ns[k], ps[k][0], k)] + Joined(separators, ps[k + 1..], ns[k + 1..], k + 1)
    ensures k + 1 == |ns| <==> Joined(separators, ps[k + 1..], ns[k + 1..], k + 1) == ""
  {
    assert ns[k..][0] == ns[k] && ns[k..][1..] == ns[k + 1..];
    assert ps[k..][0] == ps[k] && ps[k..][1..] == ps[k + 1..];
  }

  /** The joined pieces without the last separator. */
  lemma {:induction false} TextIsJoined(separators: string, ps: seq<string>, ns: seq<nat>, k: nat)
    requires separators != "" && |ps| == |ns| && k < |ns| && GoodPieces(ps, separators)
    ensures var j := Joined(separators, ps[k..], ns[k..], k); TextFrom(separators, ps, ns, k) == j[..|j| - 1]
    decreases |ns| - k
  {
    JoinedFrom(separators, ps, ns, k);
    WithoutLast(ps[k], Separator(separators, ns[k], ps[k][0], k), Joined(separators, ps[k + 1..], ns[k + 1..], k + 1));
    if k + 1 < |ns| { TextIsJoined(separators, ps, ns, k + 1); }
  }

  lemma {:induction false} LotterySumIs(ns: seq<nat>)
    ensures LotterySum(ns) == ValuesHash(ns)
    decreases |ns|
  {
    if ns != [] { LotterySumIs(ns[..|ns| - 1]); }
  }

  /** An encoding that needs no padding: the lottery character, and the text of the pieces, which
      are the digits of the numbers, each in the alphabet of its place. */
  lemma {:induction false} EncodedCharacters(c: Config, ns: seq<nat>) returns (ps: seq<string>)
    requires Valid(c) && ns != []
    ensures |ps| == |ns| && GoodPieces(ps, c.separators)
    ensures var lottery := c.alphabet[LotterySum(ns) % |c.alphabet|];
            && Body(c, ns) == [lottery] + TextFrom(c.separators, ps, ns, 0)
            && forall k :: 0 <= k < |ns| ==> ps[k] == Digits(ns[k], AlphabetFor(c, lottery, k))
    ensures |Body(c, ns)| >= c.minLength ==> Encode(c, ns) == Body(c, ns)
  {
    ps := PiecesOf(c, ns);
    LotterySumIs(ns);
    assert ns[0..] == ns && ps[0..] == ps;
    PiecesAre(c, Lottery(c, ns), ns, 0);
    TextIsJoined(c.separators, ps, ns, 0);
  }

  // ----- digits -----

  /** One digit more: the alphabet is that of a positional system, lowest digit last. */
  lemma {:induction false} DigitsInOrder(n: nat, alphabet: string, k: nat)
    requires |alphabet| >= 2
    ensures Digits(n * |alphabet| + k % |alphabet|, alphabet)
         == (if n == 0 then "" else Digits(n, alphabet)) + [alphabet[k % |alphabet|]]
  {
    var b, r := |alphabet|, k % |alphabet|;
    Whole(k, b);
    assert b * n == n * b;
    RemainderIs(n * b + r, b, n, r);
    if n >= 1 { ProductBounds(n, b); } else { assert n * b == 0; }
  }
}
