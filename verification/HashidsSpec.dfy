/** What the Hashids codec computes, as functions on strings, and the proofs about
    those functions.  The loops of the codec are in module Hashids. */
module HashidsSpec {

  const WORD: nat := 0x1_0000_0000_0000_0000

  ghost predicate Distinct(s: string) {
    forall i, j :: 0 <= i < j < |s| ==> s[i] != s[j]
  }

  /** No character of s belongs to t. */
  ghost predicate Avoids(s: string, t: string) {
    forall c :: c in s ==> c !in t
  }

  ghost predicate Within(s: string, t: string) {
    forall c :: c in s ==> c in t
  }

  // ----- the keyed shuffle -----

  function Swap(s: string, i: nat, j: nat): (r: string)
    requires i < |s| && j < |s|
    ensures |r| == |s|
  {
    s[i := s[j]][j := s[i]]
  }

  /** index modulo the salt length, written so that an index in range is plainly itself. */
  function Wrap(index: nat, length: nat): (k: nat)
    requires length > 0
    ensures k < length && (index < length ==> k == index)
  {
    index % length
  }

  /** The position that position i is swapped with. */
  function Target(c: nat, k: nat, sum: nat, i: nat): (j: nat)
    requires i > 0
    ensures j < i
  {
    (c + k + sum) % i
  }

  function ShuffleFrom(s: string, salt: string, i: nat, index: nat, sum: nat): (r: string)
    requires salt != "" && (i == 0 || i < |s|)
    ensures |r| == |s|
    decreases i
  {
    if i == 0 then s
    else
      var k := Wrap(index, |salt|);
      var c := salt[k] as int;
      ShuffleFrom(Swap(s, i, Target(c, k, sum + c, i)), salt, i - 1, k + 1, sum + c)
  }

  function Shuffle(s: string, salt: string): (r: string)
    ensures |r| == |s|
  {
    if salt == "" || s == "" then s else ShuffleFrom(s, salt, |s| - 1, 0, 0)
  }

  lemma {:induction false} SwapPermutes(s: string, i: nat, j: nat)
    requires i < |s| && j < |s|
    ensures multiset(Swap(s, i, j)) == multiset(s)
  {
  }

  lemma {:induction false} ShuffleFromPermutes(s: string, salt: string, i: nat, index: nat, sum: nat)
    requires salt != "" && (i == 0 || i < |s|)
    ensures multiset(ShuffleFrom(s, salt, i, index, sum)) == multiset(s)
    decreases i
  {
    if i > 0 {
      var k := Wrap(index, |salt|);
      var c := salt[k] as int;
      var j := Target(c, k, sum + c, i);
      SwapPermutes(s, i, j);
      ShuffleFromPermutes(Swap(s, i, j), salt, i - 1, k + 1, sum + c);
    }
  }

  lemma {:induction false} ShufflePermutes(s: string, salt: string)
    ensures multiset(Shuffle(s, salt)) == multiset(s)
  {
    if salt != "" && s != "" {
      ShuffleFromPermutes(s, salt, |s| - 1, 0, 0);
    }
  }

  /** The shuffle of s reads only the first |s| - 1 salt characters. */
  lemma {:induction false} ShuffleFromReadsPrefix(s: string, salt: string, salt': string, i: nat, index: nat, sum: nat)
    requires i == 0 || i < |s|
    requires salt != "" && salt' != ""
    requires index + i <= |salt| && index + i <= |salt'|
    requires salt[..index + i] == salt'[..index + i]
    ensures ShuffleFrom(s, salt, i, index, sum) == ShuffleFrom(s, salt', i, index, sum)
    decreases i
  {
    if i > 0 {
      assert salt[index] == salt[..index + i][index] == salt'[..index + i][index] == salt'[index];
      var c := salt[index] as int;
      ShuffleFromReadsPrefix(Swap(s, i, Target(c, index, sum + c, i)), salt, salt', i - 1, index + 1, sum + c);
    }
  }

  lemma {:induction false} SaltTruncationIsHarmless(s: string, salt: string)
    requires |s| <= |salt|
    ensures Shuffle(s, salt[..|s|]) == Shuffle(s, salt)
  {
    if s != "" {
      ShuffleFromReadsPrefix(s, salt[..|s|], salt, |s| - 1, 0, 0);
    }
  }

  lemma {:induction false} PermutationKeepsDistinct(s: string, t: string)
    requires multiset(s) == multiset(t) && Distinct(s)
    ensures Distinct(t)
  {
    forall i, j | 0 <= i < j < |t| ensures t[i] != t[j] {
      if t[i] == t[j] {
        CountTwice(t, i, j);
        assert multiset(t)[t[i]] >= 2;
        DistinctCountsOnce(s, t[i]);
      }
    }
  }

  lemma {:induction false} CountTwice(t: string, i: nat, j: nat)
    requires i < j < |t| && t[i] == t[j]
    ensures multiset(t)[t[i]] >= 2
  {
    assert t == t[..j] + [t[j]] + t[j + 1..];
    assert t[i] == t[..j][i] && t[i] in t[..j];
    assert multiset(t) == multiset(t[..j]) + multiset([t[j]]) + multiset(t[j + 1..]);
  }

  lemma {:induction false} DistinctCountsOnce(s: string, c: char)
    requires Distinct(s)
    ensures multiset(s)[c] <= 1
  {
    if s != "" {
      var n := |s| - 1;
      assert s == s[..n] + [s[n]];
      DistinctCountsOnce(s[..n], c);
      assert s[n] !in s[..n];
      assert multiset(s) == multiset(s[..n]) + multiset([s[n]]);
    }
  }

  lemma {:induction false} PermutationKeepsMembers(s: string, t: string)
    requires multiset(s) == multiset(t)
    ensures |s| == |t| && Within(s, t) && Within(t, s)
  {
    assert |multiset(s)| == |s| && |multiset(t)| == |t|;
    forall c | c in s ensures c in t { assert c in multiset(s); }
    forall c | c in t ensures c in s { assert c in multiset(t); }
  }

  // ----- one number in positional notation -----

  lemma {:induction false} DivisionFacts(n: nat, b: nat)
    requires b >= 2
    ensures n / b * b + n % b == n && n % b < b && (n > 0 ==> n / b < n)
    ensures n / b == 0 <==> n < b
  {
    var q := n / b;
    assert n == q * b + n % b;
    if q >= 1 { ProductBounds(q, b); }
  }

  lemma {:induction false} ProductBounds(q: nat, b: nat)
    requires q >= 1 && b >= 2
    ensures q * b >= b && q * b >= 2 * q
  {
    assert (q - 1) * b >= 0 && q * (b - 2) >= 0;
  }

  /** The digits of n, most significant first, with the alphabet as digit set. */
  function Digits(n: nat, alphabet: string): (r: string)
    requires |alphabet| >= 2
    ensures r != ""
    decreases n
  {
    if n < |alphabet| then [alphabet[n]]
    else
      DivisionFacts(n, |alphabet|);
      Digits(n / |alphabet|, alphabet) + [alphabet[n % |alphabet|]]
  }

  /** std::string::find on one character; npos is the largest word. */
  function Find(alphabet: string, c: char): (k: nat)
    ensures c in alphabet ==> k < |alphabet| && alphabet[k] == c && c !in alphabet[..k]
    ensures c !in alphabet ==> k == WORD - 1
  {
    if c in alphabet then FindFrom(alphabet, c, 0) else WORD - 1
  }

  function FindFrom(alphabet: string, c: char, i: nat): (k: nat)
    requires i <= |alphabet| && c in alphabet[i..] && c !in alphabet[..i]
    ensures k < |alphabet| && alphabet[k] == c && c !in alphabet[..k]
    decreases |alphabet| - i
  {
    assert alphabet[i..] == [alphabet[i]] + alphabet[i + 1..];
    assert alphabet[..i + 1] == alphabet[..i] + [alphabet[i]];
    if alphabet[i] == c then i else FindFrom(alphabet, c, i + 1)
  }

  /** The left fold of the decoder, in 64-bit unsigned arithmetic. */
  function Undigits(s: string, alphabet: string): (n: nat)
    ensures n < WORD
  {
    if s == "" then 0
    else (Undigits(s[..|s| - 1], alphabet) * |alphabet| + Find(alphabet, s[|s| - 1])) % WORD
  }

  lemma {:induction false} FindInDistinct(alphabet: string, k: nat)
    requires Distinct(alphabet) && k < |alphabet|
    ensures Find(alphabet, alphabet[k]) == k
  {
    var j := Find(alphabet, alphabet[k]);
    assert alphabet[k] in alphabet && alphabet[j] == alphabet[k];
    if j < k { assert false; }
    if k < j { assert false; }
  }

  lemma {:induction false} UndigitsDigits(n: nat, alphabet: string)
    requires |alphabet| >= 2 && Distinct(alphabet) && n < WORD
    ensures Undigits(Digits(n, alphabet), alphabet) == n
    decreases n
  {
    var b := |alphabet|;
    var d := Digits(n, alphabet);
    DivisionFacts(n, b);
    if n < b {
      FindInDistinct(alphabet, n);
      assert d[..0] == "" && Undigits("", alphabet) == 0;
    } else {
      FindInDistinct(alphabet, n % b);
      UndigitsDigits(n / b, alphabet);
      assert d[..|d| - 1] == Digits(n / b, alphabet) && d[|d| - 1] == alphabet[n % b];
    }
  }

  lemma {:induction false} DigitsWithin(n: nat, alphabet: string)
    requires |alphabet| >= 2
    ensures Within(Digits(n, alphabet), alphabet)
    decreases n
  {
    if n >= |alphabet| {
      DivisionFacts(n, |alphabet|);
      DigitsWithin(n / |alphabet|, alphabet);
    }
  }

  // ----- the body: lottery character, digits and separators -----

  function NextAlphabet(salt: string, lottery: char, alphabet: string): (r: string)
    ensures |r| == |alphabet|
  {
    Shuffle(alphabet, [lottery] + salt + alphabet)
  }

  lemma {:induction false} NextAlphabetPermutes(salt: string, lottery: char, alphabet: string)
    ensures multiset(NextAlphabet(salt, lottery, alphabet)) == multiset(alphabet)
    ensures NextAlphabet(salt, lottery, alphabet)
         == Shuffle(alphabet, ([lottery] + salt + alphabet)[..|alphabet|])
    ensures Distinct(alphabet) ==> Distinct(NextAlphabet(salt, lottery, alphabet))
    ensures Within(NextAlphabet(salt, lottery, alphabet), alphabet)
  {
    var full := [lottery] + salt + alphabet;
    var next := NextAlphabet(salt, lottery, alphabet);
    ShufflePermutes(alphabet, full);
    SaltTruncationIsHarmless(alphabet, full);
    PermutationKeepsMembers(alphabet, next);
    if Distinct(alphabet) {
      PermutationKeepsDistinct(alphabet, next);
    }
  }

  function Separator(separators: string, number: nat, first: char, i: nat): (c: char)
    requires separators != "" && first as int > 0
    ensures c in separators
  {
    separators[number % (first as int + i) % |separators|]
  }

  /** The pieces that encode appends, one per number. */
  function Pieces(salt: string, lottery: char, alphabet: string, ns: seq<nat>): (r: seq<string>)
    requires |alphabet| >= 2
    ensures |r| == |ns|
    decreases |ns|
  {
    if ns == [] then []
    else
      var a := NextAlphabet(salt, lottery, alphabet);
      [Digits(ns[0], a)] + Pieces(salt, lottery, a, ns[1..])
  }

  function AlphabetAfter(salt: string, lottery: char, alphabet: string, count: nat): (r: string)
    ensures |r| == |alphabet|
    decreases count
  {
    if count == 0 then alphabet
    else AlphabetAfter(salt, lottery, NextAlphabet(salt, lottery, alphabet), count - 1)
  }

  /** Every piece is non-empty, starts with a character other than NUL, and avoids `others`. */
  ghost predicate GoodPieces(pieces: seq<string>, others: string) {
    forall k :: 0 <= k < |pieces| ==> pieces[k] != "" && pieces[k][0] as int > 0 && Avoids(pieces[k], others)
  }

  ghost predicate AllWithin(pieces: seq<string>, alphabet: string) {
    forall k :: 0 <= k < |pieces| ==> pieces[k] != "" && Within(pieces[k], alphabet)
  }

  ghost predicate Words(ns: seq<nat>) {
    forall k :: 0 <= k < |ns| ==> ns[k] < WORD
  }

  /** Joins pieces, each followed by its separator. */
  function Joined(separators: string, pieces: seq<string>, ns: seq<nat>, i: nat): (r: string)
    requires separators != "" && |pieces| == |ns|
    requires forall k :: 0 <= k < |pieces| ==> pieces[k] != "" && pieces[k][0] as int > 0
    ensures |r| >= 2 * |ns|
    decreases |ns|
  {
    if ns == [] then ""
    else
      pieces[0] + [Separator(separators, ns[0], pieces[0][0], i)] + Joined(separators, pieces[1..], ns[1..], i + 1)
  }

  /** The decoder's fold over the pieces. */
  function Numbers(salt: string, lottery: char, alphabet: string, pieces: seq<string>): (r: seq<nat>)
    ensures |r| == |pieces|
    decreases |pieces|
  {
    if pieces == [] then []
    else
      var a := Shuffle(alphabet, ([lottery] + salt + alphabet)[..|alphabet|]);
      [Undigits(pieces[0], a)] + Numbers(salt, lottery, a, pieces[1..])
  }

  lemma {:induction false} NumbersOfPieces(salt: string, lottery: char, alphabet: string, ns: seq<nat>)
    requires |alphabet| >= 2 && Distinct(alphabet)
    requires Words(ns)
    ensures Numbers(salt, lottery, alphabet, Pieces(salt, lottery, alphabet, ns)) == ns
    decreases |ns|
  {
    if ns != [] {
      NextAlphabetPermutes(salt, lottery, alphabet);
      var a := NextAlphabet(salt, lottery, alphabet);
      UndigitsDigits(ns[0], a);
      NumbersOfPieces(salt, lottery, a, ns[1..]);
      assert Pieces(salt, lottery, alphabet, ns)[1..] == Pieces(salt, lottery, a, ns[1..]);
    }
  }

  lemma {:induction false} PiecesWithin(salt: string, lottery: char, alphabet: string, ns: seq<nat>)
    requires |alphabet| >= 2
    ensures AllWithin(Pieces(salt, lottery, alphabet, ns), alphabet)
    decreases |ns|
  {
    if ns != [] {
      NextAlphabetPermutes(salt, lottery, alphabet);
      var a := NextAlphabet(salt, lottery, alphabet);
      DigitsWithin(ns[0], a);
      PiecesWithin(salt, lottery, a, ns[1..]);
    }
  }

  lemma {:induction false} AlphabetAfterPermutes(salt: string, lottery: char, alphabet: string, count: nat)
    ensures multiset(AlphabetAfter(salt, lottery, alphabet, count)) == multiset(alphabet)
    decreases count
  {
    if count > 0 {
      NextAlphabetPermutes(salt, lottery, alphabet);
      AlphabetAfterPermutes(salt, lottery, NextAlphabet(salt, lottery, alphabet), count - 1);
    }
  }

  // ----- splitting -----

  function SplitFrom(s: string, splitters: string, tmp: string): (r: seq<string>) {
    if s == "" then (if tmp == "" then [] else [tmp])
    else if s[0] in splitters then [tmp] + SplitFrom(s[1..], splitters, "")
    else SplitFrom(s[1..], splitters, tmp + [s[0]])
  }

  function Split(s: string, splitters: string): (r: seq<string>) {
    SplitFrom(s, splitters, "")
  }

  lemma {:induction false} SplitSkips(p: string, s: string, splitters: string, tmp: string)
    requires Avoids(p, splitters)
    ensures SplitFrom(p + s, splitters, tmp) == SplitFrom(s, splitters, tmp + p)
    decreases |p|
  {
    if p == "" {
      assert p + s == s && tmp + p == tmp;
    } else {
      assert (p + s)[1..] == p[1..] + s;
      assert p[0] in p;
      SplitSkips(p[1..], s, splitters, tmp + [p[0]]);
      assert tmp + [p[0]] + p[1..] == tmp + p;
    }
  }

  lemma {:induction false} SplitJoined(separators: string, pieces: seq<string>, ns: seq<nat>, i: nat)
    requires separators != "" && |pieces| == |ns| && ns != []
    requires GoodPieces(pieces, separators)
    ensures var j := Joined(separators, pieces, ns, i); Split(j[..|j| - 1], separators) == pieces
    decreases |ns|
  {
    var p := pieces[0];
    var sep := Separator(separators, ns[0], p[0], i);
    var rest := Joined(separators, pieces[1..], ns[1..], i + 1);
    var j := Joined(separators, pieces, ns, i);
    if |ns| == 1 {
      assert j[..|j| - 1] == p + "";
      SplitSkips(p, "", separators, "");
      assert "" + p == p;
    } else {
      var tail := rest[..|rest| - 1];
      assert j[..|j| - 1] == p + ([sep] + tail);
      SplitSkips(p, [sep] + tail, separators, "");
      assert "" + p == p;
      assert ([sep] + tail)[1..] == tail;
      SplitJoined(separators, pieces[1..], ns[1..], i + 1);
      assert pieces == [p] + pieces[1..];
    }
  }

  lemma {:induction false} JoinedAvoids(separators: string, pieces: seq<string>, ns: seq<nat>, i: nat, guards: string)
    requires separators != "" && |pieces| == |ns|
    requires GoodPieces(pieces, guards)
    requires Avoids(separators, guards)
    ensures Avoids(Joined(separators, pieces, ns, i), guards)
    decreases |ns|
  {
    if ns != [] {
      JoinedAvoids(separators, pieces[1..], ns[1..], i + 1, guards);
    }
  }

  // ----- padding to the minimum length -----

  /** One guard in front; a second at the back if the result is still too short. */
  function Guarded(guards: string, minLength: nat, body: string, valuesHash: nat): (r: string)
    requires guards != "" && |body| >= 2
  {
    var o := [guards[(valuesHash + body[0] as int) % |guards|]] + body;
    if |o| < minLength then o + [guards[(valuesHash + o[2] as int) % |guards|]] else o
  }

  /** One round of padding: half an alphabet on each side, trimmed evenly if too long. */
  function PadOnce(out: string, alphabet: string, minLength: nat): (r: string)
    requires |out| < minLength
    ensures |r| == if |out| + |alphabet| <= minLength then |out| + |alphabet| else minLength
  {
    var half := |alphabet| / 2;
    var o := alphabet[half..] + out + alphabet[..half];
    if |o| > minLength then
      var from := (|o| - minLength) / 2;
      o[from..from + minLength]
    else o
  }

  function Pad(out: string, alphabet: string, minLength: nat): (r: string)
    requires alphabet != ""
    ensures |r| == if |out| < minLength then minLength else |out|
    decreases minLength - |out|
  {
    if |out| >= minLength then out
    else
      var a := Shuffle(alphabet, alphabet);
      Pad(PadOnce(out, a, minLength), a, minLength)
  }

  /** r is out with characters of the alphabet added on both sides. */
  ghost predicate Wraps(r: string, out: string, alphabet: string) {
    exists p: nat :: WrapsAt(r, out, alphabet, p)
  }

  ghost predicate WrapsAt(r: string, out: string, alphabet: string, p: nat) {
    && p + |out| <= |r|
    && r[p..p + |out|] == out
    && Within(r[..p], alphabet)
    && Within(r[p + |out|..], alphabet)
  }

  lemma {:induction false} WrapsCompose(r: string, mid: string, out: string, alphabet: string, p: nat, q: nat)
    requires WrapsAt(r, mid, alphabet, p) && WrapsAt(mid, out, alphabet, q)
    ensures WrapsAt(r, out, alphabet, p + q)
  {
    assert r == r[..p] + mid + r[p + |mid|..];
    assert mid == mid[..q] + out + mid[q + |out|..];
    assert r[..p + q] == r[..p] + mid[..q];
    assert r[p + q + |out|..] == mid[q + |out|..] + r[p + |mid|..];
    assert r[p + q..p + q + |out|] == out;
  }

  lemma {:induction false} SliceWraps(left: string, out: string, right: string, alphabet: string, from: nat, n: nat)
    requires Within(left, alphabet) && Within(right, alphabet)
    requires from <= |left| && |left| + |out| <= from + n <= |left| + |out| + |right|
    ensures WrapsAt((left + out + right)[from..from + n], out, alphabet, |left| - from)
  {
    var o := left + out + right;
    var r := o[from..from + n];
    var p := |left| - from;
    assert o[|left|..|left| + |out|] == out;
    assert r[p..p + |out|] == o[from + p..from + p + |out|];
    assert r[..p] == left[from..];
    assert r[p + |out|..] == right[..n - p - |out|];
  }

  /** Trimming removes only padding: the cut on each side is at most the half just added. */
  lemma {:induction false} PadOnceWraps(out: string, alphabet: string, minLength: nat)
    requires |out| < minLength
    ensures Wraps(PadOnce(out, alphabet, minLength), out, alphabet)
  {
    var half := |alphabet| / 2;
    var left, right := alphabet[half..], alphabet[..half];
    var o := left + out + right;
    if |o| > minLength {
      var from := (|o| - minLength) / 2;
      SliceWraps(left, out, right, alphabet, from, minLength);
    } else {
      SliceWraps(left, out, right, alphabet, 0, |o|);
      assert o[0..|o|] == o;
    }
  }

  lemma {:induction false} PadWraps(out: string, alphabet: string, minLength: nat)
    requires alphabet != ""
    ensures Wraps(Pad(out, alphabet, minLength), out, alphabet)
    decreases minLength - |out|
  {
    if |out| >= minLength {
      assert out[0..|out|] == out;
      assert WrapsAt(out, out, alphabet, 0);
    } else {
      var a := Shuffle(alphabet, alphabet);
      ShufflePermutes(alphabet, alphabet);
      PermutationKeepsMembers(alphabet, a);
      var mid := PadOnce(out, a, minLength);
      PadOnceWraps(out, a, minLength);
      var q: nat :| WrapsAt(mid, out, a, q);
      PadWraps(mid, a, minLength);
      var r := Pad(mid, a, minLength);
      var p: nat :| WrapsAt(r, mid, a, p);
      WrapsCompose(r, mid, out, a, p, q);
      assert WrapsAt(r, out, alphabet, p + q);
    }
  }

  /** A string of the form padding, guard, body, and then nothing or a guard and more padding. */
  lemma {:induction false} SplitAroundBody(left: string, guard: char, body: string, tail: string, guards: string)
    requires guard in guards && Avoids(left, guards) && Avoids(body, guards) && body != ""
    requires tail == "" || tail[0] in guards
    ensures var parts := Split(left + ([guard] + (body + tail)), guards);
            |parts| >= 2 && parts[1] == body
  {
    SplitSkips(left, [guard] + (body + tail), guards, "");
    assert ([guard] + (body + tail))[1..] == body + tail;
    SplitSkips(body, tail, guards, "");
    assert "" + body == body;
  }

  /** Splitting a padded string on the guards finds the body second, whatever the padding. */
  lemma {:induction false} SplitPadded(guards: string, minLength: nat, body: string, valuesHash: nat, alphabet: string)
    requires guards != "" && |body| >= 2 && alphabet != ""
    requires Avoids(body, guards) && Avoids(alphabet, guards)
    ensures var parts := Split(Pad(Guarded(guards, minLength, body, valuesHash), alphabet, minLength), guards);
            |parts| >= 2 && parts[1] == body
  {
    var g := Guarded(guards, minLength, body, valuesHash);
    var r := Pad(g, alphabet, minLength);
    PadWraps(g, alphabet, minLength);
    GuardedShape(guards, minLength, body, valuesHash);
    var p: nat :| WrapsAt(r, g, alphabet, p);
    SplitWrapped(r, g, body, alphabet, guards, p);
  }

  lemma {:induction false} SplitWrapped(r: string, g: string, body: string, alphabet: string, guards: string, p: nat)
    requires WrapsAt(r, g, alphabet, p) && Avoids(alphabet, guards) && Avoids(body, guards) && body != ""
    requires |body| < |g| && g[0] in guards && g[1..|body| + 1] == body
    requires if |g| == |body| + 1 then |r| == |g| else g[|body| + 1] in guards
    ensures var parts := Split(r, guards); |parts| >= 2 && parts[1] == body
  {
    Regroup(r, g, body, p);
    var left, tail := r[..p], g[|body| + 1..] + r[p + |g|..];
    if |g| > |body| + 1 { assert tail[0] == g[|body| + 1]; }
    SplitAroundBody(left, g[0], body, tail, guards);
  }

  lemma {:induction false} Regroup(r: string, g: string, body: string, p: nat)
    requires p + |g| <= |r| && r[p..p + |g|] == g
    requires |body| < |g| && g[1..|body| + 1] == body
    ensures r == r[..p] + ([g[0]] + (body + (g[|body| + 1..] + r[p + |g|..])))
  {
    var right := r[p + |g|..];
    assert r == r[..p] + (g + right);
    assert g == [g[0]] + body + g[|body| + 1..];
    assert g + right == [g[0]] + (body + (g[|body| + 1..] + right));
  }

  lemma {:induction false} GuardedShape(guards: string, minLength: nat, body: string, valuesHash: nat)
    requires guards != "" && |body| >= 2
    ensures var g := Guarded(guards, minLength, body, valuesHash);
            && |body| + 1 <= |g| <= |body| + 2
            && g[0] in guards && g[1..|body| + 1] == body
            && (if |g| == |body| + 1 then |g| >= minLength else g[|body| + 1] in guards)
  {
  }
}
