/** When the cache of the type search stays right: types that own a reference type. */
module TypeOwners {
  import opened Wrappers
  import opened Types
  import opened Paths
  import opened TypeGraph
  import opened TypeCache

  /** The type `n` leads to a reference type that `t` leads to only through `n`. */
  ghost predicate Owns(names: Names, t: Type, n: Type) {
    exists r :: Owned(names, t, n, r)
  }

  ghost predicate Owned(names: Names, t: Type, n: Type, r: Type) {
    r.ReferenceType? && Leads(Next(names), {}, n, r) && !Leads(Next(names), {n}, t, r)
  }

  lemma {:induction false} OwnsItself(names: Names, t: Type)
    requires Carries(names, t)
    ensures Owns(names, t, t)
  {
    var r :| Leads(Next(names), {}, t, r) && r.ReferenceType?;
    assert Owned(names, t, t, r);
  }

  /** The answers of the cache for the types below `t` are right. */
  ghost predicate RightBelow(names: Names, cache: map<Type, bool>, t: Type) {
    forall n :: n in cache && Leads(Next(names), {}, t, n) ==> cache[n] == Carries(names, n)
  }

  // ----- an owner finds a hit -----

  /** When a type is entered that owns a reference type, no mark is in its way to it. */
  lemma {:induction false} WayIsFree(names: Names, V: set<Type>, root: Type, n: Type, r: Type, p: seq<Type>)
    requires Inside(Next(names), V, root) && n !in V && Owned(names, root, n, r)
    requires IsPath(Next(names), p) && p[0] == n && p[|p| - 1] == r && forall i :: 0 < i < |p| ==> p[i] != n
    ensures Avoids(p, V)
  {
    forall i | 0 <= i < |p| ensures p[i] !in V {
      if i > 0 {
        SuffixIsPath(Next(names), p, i);
        assert Avoids(p[i..], {n});
        assert Leads(Next(names), {n}, p[i], r);
        if p[i] in V {
          InsideAvoids(names, V, root, n, p[i]);
          LeadsVia(Next(names), {n}, root, p[i], r);
        }
      }
    }
  }

  lemma {:induction false} InsideAvoids(names: Names, V: set<Type>, root: Type, n: Type, x: Type)
    requires Inside(Next(names), V, root) && n !in V && x in V
    ensures Leads(Next(names), {n}, root, x)
  {
    assert LeadsInside(Next(names), V, root, x);
    var q: seq<Type> :| IsPath(Next(names), q) && q[0] == root && q[|q| - 1] == x && forall j :: 0 <= j < |q| ==>
        q[j] in V;
    assert Avoids(q, {n});
  }

  lemma {:induction false} OwnerFindsHit(names: Names, cache: map<Type, bool>, V: set<Type>, root: Type, n: Type)
      returns (h: Type)
    requires Inside(Next(names), V, root) && n !in V && Owns(names, root, n)
    requires RightBelow(names, cache, root) && Leads(Next(names), {}, root, n)
    ensures Leads(Cut(names, cache), V, n, h) && Hit(cache, h)
  {
    var r :| Owned(names, root, n, r);
    var p: seq<Type> :| IsPath(Next(names), p) && p[0] == n && p[|p| - 1] == r && Avoids(p, {});
    var q := LastVisit(Next(names), p);
    WayIsFree(names, V, root, n, r, q);
    h := FirstCut(names, cache, V, q);
    CutLeads(names, cache, V, n, h);
    LeadsVia(Next(names), {}, root, n, h);
    ReferenceCarries(names, r);
    CarriesVia(names, h, r);
  }

  // ----- the search leaves right answers for owners -----

  /** Answers given since the search began are right for owners. */
  ghost predicate OwnersRight(names: Names, cache: map<Type, bool>, root: Type, after: map<Type, bool>) {
    forall n :: n in after && n !in cache && Owns(names, root, n) ==> after[n] == Carries(names, n)
  }

  /** The search that began at `root` is about to look into a marked type. */
  ghost predicate Underway(names: Names, U: set<Type>, cache: map<Type, bool>, root: Type, m: Memo, parent: Type) {
    && ClosedUnder(Next(names), U) && Agrees(cache, m) && Sound(names, m.cache) && RightBelow(names, cache, root)
    && Inside(Cut(names, cache), m.visited, root) && parent in m.visited && OwnersRight(names, cache, root, m.cache)
  }

  lemma {:induction false} InsideUncut(names: Names, cache: map<Type, bool>, V: set<Type>, root: Type)
    requires Inside(Cut(names, cache), V, root)
    ensures Inside(Next(names), V, root)
  {
    forall x | x in V ensures LeadsInside(Next(names), V, root, x) {
      assert LeadsInside(Cut(names, cache), V, root, x);
      var p: seq<Type> :| IsPath(Cut(names, cache), p) && p[0] == root && p[|p| - 1] == x
          && forall i :: 0 <= i < |p| ==> p[i] in V;
      assert IsPath(Next(names), p);
    }
  }

  lemma {:induction false} EnteredLeads(names: Names, V: set<Type>, root: Type, parent: Type, t: Type)
    requires Inside(Next(names), V, root) && parent in V && t in Successors(names, parent)
    ensures Leads(Next(names), {}, root, t)
  {
    assert LeadsInside(Next(names), V, root, parent);
    var p: seq<Type> :| IsPath(Next(names), p) && p[0] == root && p[|p| - 1] == parent && forall i :: 0 <= i < |p| ==>
        p[i] in V;
    assert Avoids(p, {});
    assert t in Next(names)(parent);
    LeadsToItself(Next(names), {}, t);
    LeadsFurther(Next(names), {}, parent, t, t);
    LeadsVia(Next(names), {}, root, parent, t);
  }

  /** The answer for an owner is `true`. */
  lemma {:induction false} OwnerAnswered(
      names: Names, U: set<Type>, cache: map<Type, bool>, root: Type, m: Memo, t: Type)
    requires ClosedUnder(Next(names), U) && t in U && Agrees(cache, m) && RightBelow(names, cache, root)
    requires Inside(Next(names), m.visited, root) && t !in m.visited && Leads(Next(names), {}, root, t)
    requires Owns(names, root, t)
    ensures Contains(names, U, m, t).result.Some? ==> Contains(names, U, m, t).result.value
    ensures Carries(names, t)
  {
    var r :| Owned(names, root, t, r);
    var h := OwnerFindsHit(names, cache, m.visited, root, t);
    ContainsSearches(names, U, cache, m, t);
    ExploredExactly(Cut(names, cache), m.visited, Contains(names, U, m, t).memo.visited, t, h);
  }

  lemma {:induction false} ContainsOwners(
      names: Names, U: set<Type>, cache: map<Type, bool>, root: Type, m: Memo, parent: Type, t: Type)
    requires Underway(names, U, cache, root, m, parent) && t in U && t in Cut(names, cache)(parent)
    ensures Underway(names, U, cache, root, Contains(names, U, m, t).memo, parent)
    decreases |U - m.visited|, 0
  {
    var r := Contains(names, U, m, t);
    ContainsSearches(names, U, cache, m, t);
    ContainsKeepsSound(names, U, m, t);
    ExploredInside(Cut(names, cache), m.visited, r.memo.visited, root, parent, t);
    if t !in m.visited && t !in m.cache {
      if t.ReferenceType? {
        ReferenceCarries(names, t);
      } else if !Unresolved(names, t) {
        ContainsNode(names, U, m, t);
        NodeAnswer(names, U, cache, root, m, parent, t);
        NodeOwners(names, U, cache, root, m, parent, t, ContainsAny(names, U, Enter(m, t), Successors(names, t)));
      }
    }
  }

  lemma {:induction false} NodeOwners(
      names: Names, U: set<Type>, cache: map<Type, bool>, root: Type, m: Memo, parent: Type, t: Type, r: Answer)
    requires Underway(names, U, cache, root, m, parent) && t in U && t in Cut(names, cache)(parent)
    requires t !in m.visited && t !in cache && forall x :: x in Successors(names, t) ==> x in U
    requires r == ContainsAny(names, U, Enter(m, t), Successors(names, t))
    requires r.result.Some? && Owns(names, root, t) ==> r.result.value == Carries(names, t)
    ensures OwnersRight(names, cache, root, Remember(r, t).memo.cache)
    decreases |U - m.visited|, 0, 0
  {
    Entering(names, U, cache, root, m, parent, t);
    FewerLeft(U, m.visited, Enter(m, t).visited);
    assert Cut(names, cache)(t) == Successors(names, t);
    ContainsAnyOwners(names, U, cache, root, Enter(m, t), t, Successors(names, t));
    RememberOwners(names, cache, root, r, t);
  }

  lemma {:induction false} NodeAnswer(
      names: Names, U: set<Type>, cache: map<Type, bool>, root: Type, m: Memo, parent: Type, t: Type)
    requires Underway(names, U, cache, root, m, parent) && t in U && t in Cut(names, cache)(parent) && t !in m.visited
    ensures Contains(names, U, m, t).result.Some? && Owns(names, root, t)
            ==> Contains(names, U, m, t).result.value == Carries(names, t)
  {
    InsideUncut(names, cache, m.visited, root);
    EnteredLeads(names, m.visited, root, parent, t);
    if Owns(names, root, t) { OwnerAnswered(names, U, cache, root, m, t); }
  }

  lemma {:induction false} RememberOwners(names: Names, cache: map<Type, bool>, root: Type, r: Answer, t: Type)
    requires OwnersRight(names, cache, root, r.memo.cache)
    requires r.result.Some? && Owns(names, root, t) ==> r.result.value == Carries(names, t)
    ensures OwnersRight(names, cache, root, Remember(r, t).memo.cache)
  {
  }

  lemma {:induction false} Entering(
      names: Names, U: set<Type>, cache: map<Type, bool>, root: Type, m: Memo, parent: Type, t: Type)
    requires Underway(names, U, cache, root, m, parent) && t in Cut(names, cache)(parent) && t !in m.visited
    ensures Underway(names, U, cache, root, Enter(m, t), t)
  {
    var V, W := m.visited, Enter(m, t).visited;
    forall x | x in W ensures LeadsInside(Cut(names, cache), W, root, x) {
      if x in V {
        assert LeadsInside(Cut(names, cache), V, root, x);
      } else {
        assert LeadsInside(Cut(names, cache), V, root, parent);
        var p: seq<Type> :| IsPath(Cut(names, cache), p) && p[0] == root && p[|p| - 1] == parent
            && forall i :: 0 <= i < |p| ==> p[i] in V;
        PathAppend(Cut(names, cache), p, [t]);
        assert (p + [t])[0] == root && (p + [t])[|p|] == t;
      }
    }
  }

  lemma {:induction false} ContainsAnyOwners(
      names: Names, U: set<Type>, cache: map<Type, bool>, root: Type, m: Memo, parent: Type, ts: seq<Type>)
    requires Underway(names, U, cache, root, m, parent) && forall t :: t in ts ==>
        t in U && t in Cut(names, cache)(parent)
    ensures Underway(names, U, cache, root, ContainsAny(names, U, m, ts).memo, parent)
    decreases |U - m.visited|, 1 + |ts|
  {
    if ts != [] {
      var a := Contains(names, U, m, ts[0]);
      FewerLeft(U, m.visited, a.memo.visited);
      ContainsOwners(names, U, cache, root, m, parent, ts[0]);
      ContainsAnyOwners(names, U, cache, root, a.memo, parent, ts[1..]);
    }
  }

  // ----- queries -----

  /** With a cache that is right below the type, the answer is right, and every answer that is
      added is right for a type that owns a reference type or carries none. */
  lemma {:induction false} QueryOwnersRight(names: Names, cache: map<Type, bool>, t: Type)
    requires Sound(names, cache) && RightBelow(names, cache, t)
    ensures var r := Query(names, cache, t);
            && (r.result.Some? ==> r.result.value == Carries(names, t))
            && OwnersRight(names, cache, t, r.memo.cache)
  {
    UniverseCloses(names, t);
    var U := Universe(names, t);
    var m := Memo({}, cache);
    LeadsToItself(Next(names), {}, t);
    TrueIsSound(names, U, m, t);
    if t !in cache {
      if Carries(names, t) {
        OwnsItself(names, t);
        OwnerAnswered(names, U, cache, t, m, t);
      }
      if t.ReferenceType? {
        ReferenceCarries(names, t);
      } else if !Unresolved(names, t) {
        RootOwners(names, U, cache, t);
      }
    }
  }

  lemma {:induction false} RootOwners(names: Names, U: set<Type>, cache: map<Type, bool>, t: Type)
    requires ClosedUnder(Next(names), U) && t in U && Sound(names, cache) && RightBelow(names, cache, t)
    requires t !in cache && !t.ReferenceType? && !Unresolved(names, t)
    ensures OwnersRight(names, cache, t, Contains(names, U, Memo({}, cache), t).memo.cache)
  {
    var m := Memo({}, cache);
    ContainsNode(names, U, m, t);
    var r := ContainsAny(names, U, Enter(m, t), Successors(names, t));
    LeadsToItself(Next(names), {}, t);
    if Owns(names, t, t) { OwnerAnswered(names, U, cache, t, m, t); }
    RootBegins(names, U, cache, t);
    assert Cut(names, cache)(t) == Successors(names, t);
    ContainsAnyOwners(names, U, cache, t, Enter(m, t), t, Successors(names, t));
    RememberOwners(names, cache, t, r, t);
  }

  lemma {:induction false} RootBegins(names: Names, U: set<Type>, cache: map<Type, bool>, t: Type)
    requires ClosedUnder(Next(names), U) && Sound(names, cache) && RightBelow(names, cache, t)
    ensures Underway(names, U, cache, t, Enter(Memo({}, cache), t), t)
  {
    var p := [t];
    assert IsPath(Cut(names, cache), p);
    assert LeadsInside(Cut(names, cache), {t}, t, t);
    assert Enter(Memo({}, cache), t).visited == {t};
  }

  /** If every type in `t` that carries references owns a reference type, a query for `t` leaves
      an accurate cache accurate. */
  lemma {:induction false} OwnersKeepAccurate(names: Names, cache: map<Type, bool>, t: Type)
    requires Accurate(names, cache)
    requires forall n :: Leads(Next(names), {}, t, n) && Carries(names, n) ==> Owns(names, t, n)
    ensures Accurate(names, Query(names, cache, t).memo.cache)
  {
    AccurateIsSound(names, cache);
    QueryLeaves(names, cache, t);
    QueryOwnersRight(names, cache, t);
  }

  lemma {:induction false} AccurateIsSound(names: Names, cache: map<Type, bool>)
    requires Accurate(names, cache)
    ensures Sound(names, cache)
  {
    forall n | n in cache && n.ReferenceType? ensures cache[n] { ReferenceCarries(names, n); }
  }

  // ----- queries for several types -----

  ghost predicate Shared(names: Names, a: Type, b: Type, n: Type) {
    Leads(Next(names), {}, a, n) && Leads(Next(names), {}, b, n)
  }

  /** A type that carries references and is inside two of the types owns a reference type of
      each. */
  ghost predicate Untangled(names: Names, Q: set<Type>) {
    forall a, b, n :: a in Q && b in Q && a != b && Shared(names, a, b, n) && Carries(names, n) ==> Owns(names, a, n)
  }

  /** A wrong answer of the cache was left by the query for a type in which it owns nothing. */
  ghost predicate Blamed(names: Names, cache: map<Type, bool>, Q: set<Type>, n: Type) {
    exists q :: q in Q && q in cache && q != n && Leads(Next(names), {}, q, n) && !Owns(names, q, n)
  }

  ghost predicate Traced(names: Names, cache: map<Type, bool>, Q: set<Type>) {
    Sound(names, cache) && forall n :: n in cache && cache[n] != Carries(names, n) ==> Blamed(names, cache, Q, n)
  }

  /** In a cache left by queries for untangled types, the types inside another are right, and so
      is a type that has been asked for. */
  lemma {:induction false} UntangledRightBelow(names: Names, cache: map<Type, bool>, Q: set<Type>, t: Type, c: Type)
    requires Traced(names, cache, Q) && Untangled(names, Q) && t in Q && c in cache
    requires Leads(Next(names), {}, t, c) && (t == c || t !in cache)
    ensures cache[c] == Carries(names, c)
  {
    forall q | q in Q && q in cache && q != c && Leads(Next(names), {}, q, c) && !Owns(names, q, c)
      ensures cache[c] == Carries(names, c)
    {
      if Carries(names, c) { assert Shared(names, q, t, c); }
    }
  }

  /** Queries for untangled types are answered right, one after the other. */
  lemma {:induction false} UntangledQueryRight(names: Names, cache: map<Type, bool>, Q: set<Type>, t: Type)
    requires Traced(names, cache, Q) && Untangled(names, Q) && t in Q && Query(names, cache, t).result.Some?
    ensures Query(names, cache, t).result.value == Carries(names, t)
    ensures Traced(names, Query(names, cache, t).memo.cache, Q)
  {
    QueryLeaves(names, cache, t);
    LeadsToItself(Next(names), {}, t);
    if t in cache {
      UntangledRightBelow(names, cache, Q, t, t);
      CachedQuery(names, cache, t);
    } else {
      forall c | c in cache && Leads(Next(names), {}, t, c) ensures cache[c] == Carries(names, c) {
        UntangledRightBelow(names, cache, Q, t, c);
      }
      QueryOwnersRight(names, cache, t);
      FreshQueryTraced(names, cache, Q, t);
    }
  }

  lemma {:induction false} CachedQuery(names: Names, cache: map<Type, bool>, t: Type)
    requires t in cache
    ensures Query(names, cache, t).memo.cache == cache && Query(names, cache, t).result == Some(cache[t])
  {
    UniverseCloses(names, t);
  }

  lemma {:induction false} FreshQueryTraced(names: Names, cache: map<Type, bool>, Q: set<Type>, t: Type)
    requires Traced(names, cache, Q) && t in Q && t !in cache && RightBelow(names, cache, t)
    requires Query(names, cache, t).result == Some(Carries(names, t))
    ensures Traced(names, Query(names, cache, t).memo.cache, Q)
  {
    QueryLeaves(names, cache, t);
    QueryOwnersRight(names, cache, t);
    var after := Query(names, cache, t).memo.cache;
    forall n | n in after && after[n] != Carries(names, n) ensures Blamed(names, after, Q, n) {
      if n in cache { assert Blamed(names, cache, Q, n); }
    }
  }
}
