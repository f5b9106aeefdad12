/** Strings of components between slashes, decimal counts, and the account placeholder. */
module UrlSyntax {
  import opened Wrappers

  /** A component that survives being joined and split. */
  predicate Clean(s: string) {
    s != [] && '/' !in s
  }

  ghost predicate AllClean(ts: seq<string>) {
    forall k :: 0 <= k < |ts| ==> Clean(ts[k])
  }

  // ----- joining and splitting -----

  function Join(ts: seq<string>): (r: string) {
    if ts == [] then [] else if |ts| == 1 then ts[0] else ts[0] + ['/'] + Join(ts[1..])
  }

  /** The characters before the first slash. */
  function Head(s: string): (r: string)
    ensures |r| <= |s| && s[..|r|] == r && '/' !in r && (|r| < |s| ==> s[|r|] == '/')
  {
    if s == [] || s[0] == '/' then [] else [s[0]] + Head(s[1..])
  }

  /** The components of a string; empty ones are dropped. */
  function Split(s: string): (r: seq<string>)
    ensures AllClean(r)
    decreases |s|
  {
    if s == [] then []
    else
      var h := Head(s);
      if h == [] then Split(s[1..])
      else [h] + Split(if |h| < |s| then s[|h| + 1..] else [])
  }

  lemma {:induction false} HeadPasses(t: string, rest: string)
    requires '/' !in t && (rest == [] || rest[0] == '/')
    ensures Head(t + rest) == t
    decreases |t|
  {
    if t == [] {
      assert t + rest == rest;
    } else {
      assert (t + rest)[1..] == t[1..] + rest;
      HeadPasses(t[1..], rest);
    }
  }

  lemma {:induction false} SplitFirst(t: string, rest: string)
    requires Clean(t)
    ensures Split(t + ['/'] + rest) == [t] + Split(rest)
  {
    var s := t + ['/'] + rest;
    assert s == t + (['/'] + rest);
    HeadPasses(t, ['/'] + rest);
    assert s[|t| + 1..] == rest;
  }

  lemma {:induction false} SplitOne(t: string)
    requires Clean(t)
    ensures Split(t) == [t]
  {
    HeadPasses(t, []);
    assert t + [] == t && Split([]) == [];
  }

  lemma {:induction false} SplitJoin(ts: seq<string>)
    requires AllClean(ts)
    ensures Split(Join(ts)) == ts
    decreases |ts|
  {
    if |ts| == 1 {
      SplitOne(ts[0]);
      assert ts == [ts[0]];
    } else if |ts| > 1 {
      SplitFirst(ts[0], Join(ts[1..]));
      SplitJoin(ts[1..]);
      assert ts == [ts[0]] + ts[1..];
    }
  }

  // ----- decimal counts -----

  function DecimalChar(d: nat): (c: char)
    requires d < 10
  {
    '0' + d as char
  }

  function Decimal(n: nat): (r: string)
    ensures r != []
  {
    if n < 10 then [DecimalChar(n)] else Decimal(n / 10) + [DecimalChar(n % 10)]
  }

  function DigitValue(c: char): (r: Option<nat>)
    ensures r.Some? ==> r.value < 10
  {
    if '0' <= c <= '9' then Some(c as int - '0' as int) else None
  }

  /** The number that a string of digits stands for. */
  function FromDecimal(s: string): (r: Option<nat>) {
    if s == [] then None
    else
      var d := DigitValue(s[|s| - 1]);
      if |s| == 1 || d.None? then d
      else
        var high := FromDecimal(s[..|s| - 1]);
        if high.None? then None else Some(10 * high.value + d.value)
  }

  /** A count of 64 bits. */
  function ToCount(s: string): (r: Option<nat>) {
    var n := FromDecimal(s);
    if n.Some? && n.value < 0x1_0000_0000_0000_0000 then n else None
  }

  lemma {:induction false} DecimalRoundTrip(n: nat)
    ensures FromDecimal(Decimal(n)) == Some(n)
    ensures forall c :: c in Decimal(n) ==> '0' <= c <= '9'
  {
    if n >= 10 {
      DecimalRoundTrip(n / 10);
      var s := Decimal(n);
      assert s[..|s| - 1] == Decimal(n / 10) && s[|s| - 1] == DecimalChar(n % 10);
    }
  }

  lemma {:induction false} DecimalClean(n: nat)
    ensures Clean(Decimal(n)) && '{' !in Decimal(n)
  {
    DecimalRoundTrip(n);
  }

  // ----- replacing a placeholder -----

  /** Replaces every occurrence of `hole`, from left to right. */
  function Fill(hole: string, s: string, value: string): (r: string)
    requires hole != []
    decreases |s|
  {
    if s == [] then []
    else if hole <= s then value + Fill(hole, s[|hole|..], value)
    else [s[0]] + Fill(hole, s[1..], value)
  }

  /** A character that is not in the placeholder is a border that no replacement crosses. */
  lemma {:induction false} FillAcross(hole: string, x: string, c: char, y: string, value: string)
    requires hole != [] && c !in hole
    ensures Fill(hole, x + [c] + y, value) == Fill(hole, x, value) + [c] + Fill(hole, y, value)
    decreases |x|
  {
    var s := x + [c] + y;
    HoleWithin(hole, x, c, y);
    if x == [] {
      assert s == [c] + y && s[1..] == y;
    } else if hole <= x {
      assert s[|hole|..] == x[|hole|..] + [c] + y;
      FillAcross(hole, x[|hole|..], c, y, value);
      Regroup(value, Fill(hole, x[|hole|..], value), c, Fill(hole, y, value));
    } else {
      assert s[1..] == x[1..] + [c] + y;
      FillAcross(hole, x[1..], c, y, value);
      Regroup([x[0]], Fill(hole, x[1..], value), c, Fill(hole, y, value));
    }
  }

  lemma {:induction false} Regroup(a: string, b: string, c: char, d: string)
    ensures a + (b + [c] + d) == a + b + [c] + d
  {
  }

  lemma {:induction false} HoleWithin(hole: string, x: string, c: char, y: string)
    requires c !in hole
    ensures hole <= x + [c] + y <==> hole <= x
  {
    var s := x + [c] + y;
    if hole <= s {
      assert forall k :: 0 <= k < |hole| ==> hole[k] == s[k] && hole[k] != c;
      assert s[|x|] == c;
      assert hole == s[..|hole|] == x[..|hole|];
    }
  }

  /** A string without the first character of the placeholder stays as it is. */
  lemma {:induction false} FillNothing(hole: string, s: string, value: string)
    requires hole != [] && hole[0] !in s
    ensures Fill(hole, s, value) == s
    decreases |s|
  {
    if s != [] {
      assert s[0] != hole[0];
      FillNothing(hole, s[1..], value);
      assert s == [s[0]] + s[1..];
    }
  }

  lemma {:induction false} FillHole(hole: string, value: string)
    requires hole != []
    ensures Fill(hole, hole, value) == value
  {
    assert hole[|hole|..] == [];
  }

  function FillEach(hole: string, ts: seq<string>, value: string): (r: seq<string>)
    requires hole != []
    ensures |r| == |ts|
  {
    seq(|ts|, k requires 0 <= k < |ts| => Fill(hole, ts[k], value))
  }

  /** Filling a joined string fills each component. */
  lemma {:induction false} FillJoin(hole: string, ts: seq<string>, value: string)
    requires hole != [] && '/' !in hole
    ensures Fill(hole, Join(ts), value) == Join(FillEach(hole, ts, value))
    decreases |ts|
  {
    var us := FillEach(hole, ts, value);
    if |ts| > 1 {
      FillAcross(hole, ts[0], '/', Join(ts[1..]), value);
      FillJoin(hole, ts[1..], value);
      assert us[1..] == FillEach(hole, ts[1..], value);
    }
  }
}
