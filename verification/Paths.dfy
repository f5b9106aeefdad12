/** Depth-first search over a graph that is given by its successors: what a search that marks
    the nodes it enters has explored. */
module Paths {

  ghost predicate IsPath<T(!new)>(next: T -> seq<T>, p: seq<T>) {
    p != [] && forall i :: 0 <= i < |p| - 1 ==> p[i + 1] in next(p[i])
  }

  ghost predicate Avoids<T(!new)>(p: seq<T>, avoided: set<T>) {
    forall i :: 0 <= i < |p| ==> p[i] !in avoided
  }

  /** There is a path from `a` to `b` that meets no avoided node. */
  ghost predicate Leads<T(!new)>(next: T -> seq<T>, avoided: set<T>, a: T, b: T) {
    exists p: seq<T> :: IsPath(next, p) && p[0] == a && p[|p| - 1] == b && Avoids(p, avoided)
  }

  /** A search from the roots that may not enter `before` has entered `after - before`. */
  ghost predicate Explored<T(!new)>(next: T -> seq<T>, before: set<T>, after: set<T>, roots: seq<T>) {
    && before <= after
    && (forall r :: r in roots ==> r in after)
    && (forall n, m :: n in after - before && m in next(n) ==> m in after)
    && (forall n :: n in after - before ==> LedTo(next, before, roots, n))
  }

  ghost predicate LedTo<T(!new)>(next: T -> seq<T>, avoided: set<T>, roots: seq<T>, n: T) {
    exists r :: r in roots && Leads(next, avoided, r, n)
  }

  lemma {:induction false} LeadsToItself<T(!new)>(next: T -> seq<T>, avoided: set<T>, a: T)
    requires a !in avoided
    ensures Leads(next, avoided, a, a)
  {
    var p := [a];
    assert IsPath(next, p) && Avoids(p, avoided) && p[0] == a && p[|p| - 1] == a;
  }

  lemma {:induction false} LeadsAvoidingLess<T(!new)>(next: T -> seq<T>, V: set<T>, V': set<T>, a: T, b: T)
    requires V <= V' && Leads(next, V', a, b)
    ensures Leads(next, V, a, b)
  {
    var p: seq<T> :| IsPath(next, p) && p[0] == a && p[|p| - 1] == b && Avoids(p, V');
    assert Avoids(p, V);
  }

  lemma {:induction false} LeadsFurther<T(!new)>(next: T -> seq<T>, V: set<T>, a: T, b: T, c: T)
    requires a !in V && b in next(a) && Leads(next, V, b, c)
    ensures Leads(next, V, a, c)
  {
    var p: seq<T> :| IsPath(next, p) && p[0] == b && p[|p| - 1] == c && Avoids(p, V);
    var q := [a] + p;
    forall i | 0 <= i < |q| - 1 ensures q[i + 1] in next(q[i]) {
      if i > 0 { assert q[i] == p[i - 1] && q[i + 1] == p[i]; }
    }
    assert IsPath(next, q) && Avoids(q, V) && q[0] == a && q[|q| - 1] == c;
  }

  /** A path may be continued by another. */
  lemma {:induction false} LeadsVia<T(!new)>(next: T -> seq<T>, V: set<T>, a: T, b: T, c: T)
    requires Leads(next, V, a, b) && Leads(next, V, b, c)
    ensures Leads(next, V, a, c)
  {
    var p: seq<T> :| IsPath(next, p) && p[0] == a && p[|p| - 1] == b && Avoids(p, V);
    PathVia(next, V, p, c);
  }

  lemma {:induction false} PathVia<T(!new)>(next: T -> seq<T>, V: set<T>, p: seq<T>, c: T)
    requires IsPath(next, p) && Avoids(p, V) && Leads(next, V, p[|p| - 1], c)
    ensures Leads(next, V, p[0], c)
    decreases |p|
  {
    if |p| > 1 {
      var q := p[1..];
      forall i | 0 <= i < |q| - 1 ensures q[i + 1] in next(q[i]) {
        assert q[i] == p[i + 1] && q[i + 1] == p[i + 2];
      }
      PathVia(next, V, q, c);
      LeadsFurther(next, V, p[0], p[1], c);
    }
  }

  // ----- how explorations are put together -----

  lemma {:induction false} ExploreNothing<T(!new)>(next: T -> seq<T>, V: set<T>)
    ensures Explored(next, V, V, [])
  {
  }

  lemma {:induction false} ExploreVisited<T(!new)>(next: T -> seq<T>, V: set<T>, a: T)
    requires a in V
    ensures Explored(next, V, V, [a])
  {
  }

  /** Entering a node and then exploring its successors. */
  lemma {:induction false} ExploreNode<T(!new)>(next: T -> seq<T>, V: set<T>, W: set<T>, a: T)
    requires a !in V && Explored(next, V + {a}, W, next(a))
    ensures Explored(next, V, W, [a])
  {
    forall n | n in W - V ensures LedTo(next, V, [a], n) {
      if n == a {
        LeadsToItself(next, V, a);
      } else {
        assert LedTo(next, V + {a}, next(a), n);
        var r :| r in next(a) && Leads(next, V + {a}, r, n);
        LeadsAvoidingLess(next, V, V + {a}, r, n);
        LeadsFurther(next, V, a, r, n);
      }
      assert a in [a];
    }
  }

  /** Exploring one root after others. */
  lemma {:induction false} ExploreMore<T(!new)>(
      next: T -> seq<T>, V: set<T>, W: set<T>, X: set<T>, rs: seq<T>, ss: seq<T>)
    requires Explored(next, V, W, rs) && Explored(next, W, X, ss)
    ensures Explored(next, V, X, rs + ss)
  {
    forall n | n in X - V ensures LedTo(next, V, rs + ss, n) {
      if n in W {
        assert n in W - V && LedTo(next, V, rs, n);
        var r :| r in rs && Leads(next, V, r, n);
        assert r in rs + ss;
      } else {
        assert n in X - W && LedTo(next, W, ss, n);
        var r :| r in ss && Leads(next, W, r, n);
        LeadsAvoidingLess(next, V, W, r, n);
        assert r in rs + ss;
      }
    }
    forall n, m | n in X - V && m in next(n) ensures m in X {
      if n in W { assert n in W - V; } else { assert n in X - W; }
    }
  }

  /** An exploration enters exactly the nodes that a path from the roots leads to. */
  lemma {:induction false} ExploredExactly<T(!new)>(next: T -> seq<T>, V: set<T>, W: set<T>, a: T, n: T)
    requires Explored(next, V, W, [a])
    ensures n in W - V <==> Leads(next, V, a, n)
  {
    if Leads(next, V, a, n) {
      var p: seq<T> :| IsPath(next, p) && p[0] == a && p[|p| - 1] == n && Avoids(p, V);
      assert a in [a];
      PathStaysInside(next, V, W, p, |p| - 1);
    }
    if n in W - V {
      assert LedTo(next, V, [a], n);
    }
  }

  lemma {:induction false} PathStaysInside<T(!new)>(next: T -> seq<T>, V: set<T>, W: set<T>, p: seq<T>, k: nat)
    requires IsPath(next, p) && Avoids(p, V) && p[0] in W && k < |p|
    requires forall n, m :: n in W - V && m in next(n) ==> m in W
    ensures p[k] in W
    decreases k
  {
    if k > 0 {
      PathStaysInside(next, V, W, p, k - 1);
      assert p[k - 1] in W - V && p[k - 1 + 1] in next(p[k - 1]);
    }
  }

  /** A set that contains the successors of its members contains all that they lead to. */
  lemma {:induction false} ClosedContains<T(!new)>(next: T -> seq<T>, U: set<T>, V: set<T>, a: T, b: T)
    requires a in U && Leads(next, V, a, b)
    requires forall n, m :: n in U && m in next(n) ==> m in U
    ensures b in U
  {
    var p: seq<T> :| IsPath(next, p) && p[0] == a && p[|p| - 1] == b && Avoids(p, V);
    PathStaysInside(next, V, U, p, |p| - 1);
  }

  // ----- finite graphs -----

  ghost predicate ClosedUnder<T(!new)>(next: T -> seq<T>, U: set<T>) {
    forall a, b :: a in U && b in next(a) ==> b in U
  }

  /** Marking more leaves less to mark. */
  lemma {:induction false} FewerLeft<T>(U: set<T>, V: set<T>, W: set<T>)
    requires V <= W
    ensures |U - W| <= |U - V|
    ensures (exists t :: t in U && t in W - V) ==> |U - W| < |U - V|
  {
    assert U - V == (U - W) + (U * (W - V));
    assert |U - V| == |U - W| + |U * (W - V)|;
  }

  // ----- paths inside a set -----

  ghost predicate LeadsInside<T(!new)>(next: T -> seq<T>, V: set<T>, a: T, b: T) {
    exists p: seq<T> :: IsPath(next, p) && p[0] == a && p[|p| - 1] == b && forall i :: 0 <= i < |p| ==> p[i] in V
  }

  /** Every member of the set is reached from the root without leaving the set. */
  ghost predicate Inside<T(!new)>(next: T -> seq<T>, V: set<T>, root: T) {
    forall x :: x in V ==> LeadsInside(next, V, root, x)
  }

  lemma {:induction false} PathAppend<T(!new)>(next: T -> seq<T>, p: seq<T>, q: seq<T>)
    requires IsPath(next, p) && IsPath(next, q) && q[0] in next(p[|p| - 1])
    ensures IsPath(next, p + q)
  {
    var r := p + q;
    forall i | 0 <= i < |r| - 1 ensures r[i + 1] in next(r[i]) {
      if i < |p| - 1 {
        assert r[i] == p[i] && r[i + 1] == p[i + 1];
      } else if i >= |p| {
        assert r[i] == q[i - |p|] && r[i + 1] == q[i - |p| + 1];
      }
    }
  }

  /** What a search enters from a successor of a member is reached inside what is then marked. */
  lemma {:induction false} ExploredInside<T(!new)>(next: T -> seq<T>, V: set<T>, W: set<T>, root: T, parent: T, a: T)
    requires Inside(next, V, root) && parent in V && a in next(parent) && Explored(next, V, W, [a])
    ensures Inside(next, W, root)
  {
    forall x | x in W ensures LeadsInside(next, W, root, x) {
      if x in V {
        assert LeadsInside(next, V, root, x);
      } else {
        var p: seq<T> :| IsPath(next, p) && p[0] == root && p[|p| - 1] == parent && forall i :: 0 <= i < |p| ==>
            p[i] in V;
        var q := EnteredPath(next, V, W, a, x);
        PathAppend(next, p, q);
        assert (p + q)[0] == root && (p + q)[|p + q| - 1] == x;
      }
    }
  }

  lemma {:induction false} EnteredPath<T(!new)>(next: T -> seq<T>, V: set<T>, W: set<T>, a: T, x: T) returns (q: seq<T>)
    requires Explored(next, V, W, [a]) && x in W - V
    ensures IsPath(next, q) && q[0] == a && q[|q| - 1] == x && forall i :: 0 <= i < |q| ==> q[i] in W
  {
    assert LedTo(next, V, [a], x);
    q :| IsPath(next, q) && q[0] == a && q[|q| - 1] == x && Avoids(q, V);
    assert a in [a];
    forall i | 0 <= i < |q| ensures q[i] in W { PathStaysInside(next, V, W, q, i); }
  }

  /** A path to `b` from its last visit of `a`. */
  lemma {:induction false} LastVisit<T(!new)>(next: T -> seq<T>, p: seq<T>) returns (q: seq<T>)
    requires IsPath(next, p)
    ensures IsPath(next, q) && q[0] == p[0] && q[|q| - 1] == p[|p| - 1]
    ensures forall i :: 0 < i < |q| ==> q[i] != p[0]
    decreases |p|
  {
    if k :| 0 < k < |p| && p[k] == p[0] {
      SuffixIsPath(next, p, k);
      q := LastVisit(next, p[k..]);
    } else {
      q := p;
    }
  }

  lemma {:induction false} SuffixIsPath<T(!new)>(next: T -> seq<T>, p: seq<T>, k: nat)
    requires IsPath(next, p) && k < |p|
    ensures IsPath(next, p[k..]) && p[k..][|p| - k - 1] == p[|p| - 1]
  {
    var q := p[k..];
    forall i | 0 <= i < |q| - 1 ensures q[i + 1] in next(q[i]) {
      assert q[i] == p[k + i] && q[i + 1] == p[k + i + 1];
    }
  }
}
