/** The order of strings as keys of a map. */
module TextOrder {

  /** Strictly before, comparing the first characters that differ. */
  predicate Less(a: string, b: string) {
    b != [] && (a == [] || a[0] < b[0] || (a[0] == b[0] && Less(a[1..], b[1..])))
  }

  /** The strings agree up to position `k`, where the first one ends or has the smaller character. */
  ghost predicate LessAt(a: string, b: string, k: nat) {
    k <= |a| && k < |b| && a[..k] == b[..k] && (k == |a| || a[k] < b[k])
  }

  lemma {:induction false} LessIsLexicographic(a: string, b: string)
    ensures Less(a, b) <==> exists k: nat :: LessAt(a, b, k)
  {
    if b != [] && a != [] && a[0] == b[0] {
      LessIsLexicographic(a[1..], b[1..]);
      if k: nat :| LessAt(a[1..], b[1..], k) {
        assert a[..k + 1] == [a[0]] + a[1..][..k] && b[..k + 1] == [b[0]] + b[1..][..k];
        assert LessAt(a, b, k + 1);
      }
      if k: nat :| LessAt(a, b, k) {
        assert a[1..][..k - 1] == a[..k][1..] && b[1..][..k - 1] == b[..k][1..];
        assert LessAt(a[1..], b[1..], k - 1);
      }
    } else if Less(a, b) {
      assert LessAt(a, b, 0);
    } else {
      forall k: nat | 0 < k <= |a| && k <= |b| && a[..k] == b[..k] ensures a[0] == b[0] {
        assert a[..k][0] == b[..k][0];
      }
    }
  }

  lemma {:induction false} LessIrreflexive(a: string)
    ensures !Less(a, a)
  {
    if a != [] { LessIrreflexive(a[1..]); }
  }

  lemma {:induction false} LessTransitive(a: string, b: string, c: string)
    requires Less(a, b) && Less(b, c)
    ensures Less(a, c)
  {
    if a != [] && a[0] == b[0] && b[0] == c[0] { LessTransitive(a[1..], b[1..], c[1..]); }
  }

  lemma {:induction false} LessTotal(a: string, b: string)
    ensures a == b || Less(a, b) || Less(b, a)
  {
    if a != [] && b != [] && a[0] == b[0] {
      LessTotal(a[1..], b[1..]);
      assert a == [a[0]] + a[1..] && b == [b[0]] + b[1..];
    }
  }

  ghost predicate Ascending(s: seq<string>) {
    forall i, j :: 0 <= i < j < |s| ==> Less(s[i], s[j])
  }

  ghost predicate Least(s: set<string>, a: string) {
    a in s && forall b :: b in s && b != a ==> Less(a, b)
  }

  lemma {:induction false} LeastExists(s: set<string>) returns (a: string)
    requires s != {}
    ensures Least(s, a)
    decreases s
  {
    var x :| x in s;
    if s == {x} {
      a := x;
    } else {
      var y := LeastExists(s - {x});
      LessTotal(x, y);
      a := if Less(x, y) then x else y;
      if a == x {
        forall b | b in s && b != a ensures Less(a, b) {
          if b != y { LessTransitive(x, y, b); }
        }
      }
    }
  }

  /** The strings of a set in ascending order. */
  method Sorted(s: set<string>) returns (r: seq<string>)
    ensures Ascending(r) && forall x :: x in r <==> x in s
  {
    r := [];
    var rest := s;
    while rest != {}
      invariant rest <= s && Ascending(r)
      invariant forall x :: x in s <==> x in r || x in rest
      invariant forall x, y :: x in r && y in rest ==> Less(x, y)
      decreases rest
    {
      ghost var least := LeastExists(rest);
      var a :| a in rest && forall b :: b in rest && b != a ==> Less(a, b);
      forall x | x in r + [a] ensures x in r || x == a {}
      r := r + [a];
      rest := rest - {a};
    }
  }
}
