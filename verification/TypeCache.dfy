/** What the cache of the type search does to later answers. */
module TypeCache {
  import opened Wrappers
  import opened Types
  import opened Paths
  import opened TypeGraph

  /** Answers of the cache that say `true` are right, and so are those for reference types. */
  ghost predicate Sound(names: Names, cache: map<Type, bool>) {
    forall t :: t in cache ==> (cache[t] ==> Carries(names, t)) && (t.ReferenceType? ==> cache[t])
  }

  ghost predicate Accurate(names: Names, cache: map<Type, bool>) {
    forall t :: t in cache ==> cache[t] == Carries(names, t)
  }

  // ----- paths and carrying -----

  lemma {:induction false} CutLeads(names: Names, cache: map<Type, bool>, V: set<Type>, a: Type, b: Type)
    requires Leads(Cut(names, cache), V, a, b)
    ensures Leads(Next(names), {}, a, b)
  {
    var p: seq<Type> :| IsPath(Cut(names, cache), p) && p[0] == a && p[|p| - 1] == b && Avoids(p, V);
    assert IsPath(Next(names), p) && Avoids(p, {});
  }

  lemma {:induction false} CarriesVia(names: Names, a: Type, b: Type)
    requires Leads(Next(names), {}, a, b) && Carries(names, b)
    ensures Carries(names, a)
  {
    var n :| Leads(Next(names), {}, b, n) && n.ReferenceType?;
    LeadsVia(Next(names), {}, a, b, n);
  }

  lemma {:induction false} ReferenceCarries(names: Names, t: Type)
    requires t.ReferenceType?
    ensures Carries(names, t)
  {
    LeadsToItself(Next(names), {}, t);
  }

  lemma {:induction false} HitCarries(names: Names, cache: map<Type, bool>, t: Type)
    requires Sound(names, cache) && Hit(cache, t)
    ensures Carries(names, t)
  {
    if t !in cache { ReferenceCarries(names, t); }
  }

  /** Along a path, either nothing is answered by the cache, or there is a first such type. */
  lemma {:induction false} FirstCut(names: Names, cache: map<Type, bool>, V: set<Type>, p: seq<Type>) returns (c: Type)
    requires IsPath(Next(names), p) && Avoids(p, V)
    ensures Leads(Cut(names, cache), V, p[0], c) && Leads(Next(names), {}, c, p[|p| - 1])
    ensures c in cache || c == p[|p| - 1]
    decreases |p|
  {
    if p[0] in cache || |p| == 1 {
      c := p[0];
      LeadsToItself(Cut(names, cache), V, c);
      assert Avoids(p, {});
    } else {
      SuffixIsPath(Next(names), p, 1);
      assert Avoids(p[1..], V);
      c := FirstCut(names, cache, V, p[1..]);
      assert p[1] in Cut(names, cache)(p[0]);
      LeadsFurther(Cut(names, cache), V, p[0], p[1], c);
    }
  }

  /** A type that carries references has an uncut path to a reference type, or to a type that
      the cache answers and that carries references. */
  lemma {:induction false} CarriesUncut(names: Names, cache: map<Type, bool>, t: Type) returns (c: Type)
    requires Carries(names, t)
    ensures Leads(Cut(names, cache), {}, t, c) && Carries(names, c) && (c in cache || c.ReferenceType?)
  {
    var n :| Leads(Next(names), {}, t, n) && n.ReferenceType?;
    var p: seq<Type> :| IsPath(Next(names), p) && p[0] == t && p[|p| - 1] == n && Avoids(p, {});
    c := FirstCut(names, cache, {}, p);
  }

  // ----- soundness -----

  /** From any marks and any sound cache, `true` is right. */
  lemma {:induction false} TrueIsSound(names: Names, U: set<Type>, m: Memo, t: Type)
    requires ClosedUnder(Next(names), U) && t in U && Sound(names, m.cache)
    ensures Contains(names, U, m, t).result == Some(true) ==> Carries(names, t)
  {
    SearchExactly(names, U, m, t);
    if Contains(names, U, m, t).result == Some(true) {
      var n :| Leads(Cut(names, m.cache), m.visited, t, n) && Hit(m.cache, n);
      HitCarries(names, m.cache, n);
      CutLeads(names, m.cache, m.visited, t, n);
      CarriesVia(names, t, n);
    }
  }

  lemma {:induction false} RememberKeepsSound(names: Names, r: Answer, t: Type)
    requires Sound(names, r.memo.cache) && (r.result == Some(true) ==> Carries(names, t))
    requires t.ReferenceType? ==> r.result == Some(true)
    ensures Sound(names, Remember(r, t).memo.cache)
  {
  }

  lemma {:induction false} ContainsKeepsSound(names: Names, U: set<Type>, m: Memo, t: Type)
    requires ClosedUnder(Next(names), U) && t in U && Sound(names, m.cache)
    ensures Sound(names, Contains(names, U, m, t).memo.cache)
    decreases |U - m.visited|, 0
  {
    if t !in m.visited && t !in m.cache {
      if t.ReferenceType? {
        ReferenceCarries(names, t);
        RememberKeepsSound(names, Answer(Some(true), Enter(m, t)), t);
      } else if !Unresolved(names, t) {
        TrueIsSound(names, U, m, t);
        ContainsNode(names, U, m, t);
        NodeKeepsSound(names, U, m, t);
      }
    }
  }

  lemma {:induction false} NodeKeepsSound(names: Names, U: set<Type>, m: Memo, t: Type)
    requires ClosedUnder(Next(names), U) && t in U && Sound(names, m.cache)
    requires t !in m.visited && !t.ReferenceType? && forall x :: x in Successors(names, t) ==> x in U
    requires ContainsAny(names, U, Enter(m, t), Successors(names, t)).result == Some(true) ==> Carries(names, t)
    ensures Sound(names, Remember(ContainsAny(names, U, Enter(m, t), Successors(names, t)), t).memo.cache)
    decreases |U - m.visited|, 0, 0
  {
    FewerLeft(U, m.visited, Enter(m, t).visited);
    ContainsAnyKeepsSound(names, U, Enter(m, t), Successors(names, t));
    RememberKeepsSound(names, ContainsAny(names, U, Enter(m, t), Successors(names, t)), t);
  }

  lemma {:induction false} ContainsAnyKeepsSound(names: Names, U: set<Type>, m: Memo, ts: seq<Type>)
    requires ClosedUnder(Next(names), U) && (forall t :: t in ts ==> t in U) && Sound(names, m.cache)
    ensures Sound(names, ContainsAny(names, U, m, ts).memo.cache)
    decreases |U - m.visited|, 1 + |ts|
  {
    if ts != [] {
      var a := Contains(names, U, m, ts[0]);
      FewerLeft(U, m.visited, a.memo.visited);
      ContainsKeepsSound(names, U, m, ts[0]);
      ContainsAnyKeepsSound(names, U, a.memo, ts[1..]);
    }
  }

  // ----- queries -----

  /** What a query leaves behind. */
  lemma {:induction false} QueryLeaves(names: Names, cache: map<Type, bool>, t: Type)
    requires Sound(names, cache)
    ensures var r := Query(names, cache, t);
            && Sound(names, r.memo.cache)
            && (forall n :: n in cache ==> n in r.memo.cache && r.memo.cache[n] == cache[n])
            && (forall n :: n in r.memo.cache && n !in cache ==> Leads(Next(names), {}, t, n))
            && (r.result.Some? ==> t in r.memo.cache && r.memo.cache[t] == r.result.value)
            && (t in cache ==> r.result == Some(cache[t]))
  {
    UniverseCloses(names, t);
    var U := Universe(names, t);
    var m := Memo({}, cache);
    var r := Query(names, cache, t);
    ContainsKeepsSound(names, U, m, t);
    ContainsSearches(names, U, cache, m, t);
    forall n | n in r.memo.cache && n !in cache ensures Leads(Next(names), {}, t, n) {
      NewlyAnswered(names, cache, t, r, n);
    }
  }

  lemma {:induction false} NewlyAnswered(names: Names, cache: map<Type, bool>, t: Type, r: Answer, n: Type)
    requires Searched(names, cache, Memo({}, cache), [t], r) && n in r.memo.cache && n !in cache
    ensures Leads(Next(names), {}, t, n)
  {
    assert n in r.memo.visited - {};
    ExploredExactly(Cut(names, cache), {}, r.memo.visited, t, n);
    CutLeads(names, cache, {}, t, n);
  }

  /** A query with a sound cache is wrong iff the type carries references, but no uncut path
      leads to a reference type or to an answer `true`. */
  lemma {:induction false} QueryRightIff(names: Names, cache: map<Type, bool>, t: Type)
    requires Sound(names, cache) && Query(names, cache, t).result.Some?
    ensures Query(names, cache, t).result.value == Carries(names, t)
            <==> (Carries(names, t) ==> exists n :: Leads(Cut(names, cache), {}, t, n) && Hit(cache, n))
  {
    UniverseCloses(names, t);
    TrueIsSound(names, Universe(names, t), Memo({}, cache), t);
    SearchExactly(names, Universe(names, t), Memo({}, cache), t);
  }

  /** With an accurate cache, the answer is right. */
  lemma {:induction false} QueryRight(names: Names, cache: map<Type, bool>, t: Type)
    requires Accurate(names, cache)
    ensures Query(names, cache, t).result.Some? ==> Query(names, cache, t).result.value == Carries(names, t)
  {
    forall n | n in cache && n.ReferenceType? ensures cache[n] { ReferenceCarries(names, n); }
    if Query(names, cache, t).result.Some? {
      QueryRightIff(names, cache, t);
      if Carries(names, t) {
        var c := CarriesUncut(names, cache, t);
        assert Hit(cache, c);
      }
    }
  }

  lemma {:induction false} UncutWhenCold(names: Names, t: Type, n: Type)
    ensures Leads(Cut(names, map[]), {}, t, n) <==> Leads(Next(names), {}, t, n)
  {
    if Leads(Next(names), {}, t, n) {
      var p: seq<Type> :| IsPath(Next(names), p) && p[0] == t && p[|p| - 1] == n && Avoids(p, {});
      assert IsPath(Cut(names, map[]), p);
    }
    if Leads(Cut(names, map[]), {}, t, n) { CutLeads(names, map[], {}, t, n); }
  }

  /** From nothing, a query answers whether a reference type is reachable, and throws iff a
      name that is not resolved is reachable. */
  lemma {:induction false} ColdQueryExact(names: Names, t: Type)
    ensures Query(names, map[], t).result == if Resolvable(names, t) then Some(Carries(names, t)) else None
  {
    UniverseCloses(names, t);
    SearchExactly(names, Universe(names, t), Memo({}, map[]), t);
    forall n ensures Leads(Cut(names, map[]), {}, t, n) <==> Leads(Next(names), {}, t, n) {
      UncutWhenCold(names, t, n);
    }
  }

  /** An answer `false` leaves an accurate cache accurate. */
  lemma {:induction false} FalseKeepsAccurate(names: Names, cache: map<Type, bool>, t: Type)
    requires Accurate(names, cache) && Query(names, cache, t).result == Some(false)
    ensures Accurate(names, Query(names, cache, t).memo.cache)
  {
    forall n | n in cache && n.ReferenceType? ensures cache[n] { ReferenceCarries(names, n); }
    QueryLeaves(names, cache, t);
    QueryRight(names, cache, t);
    var after := Query(names, cache, t).memo.cache;
    forall n | n in after ensures after[n] == Carries(names, n) {
      if n !in cache && Carries(names, n) { CarriesVia(names, t, n); }
    }
  }

  // ----- a wrong answer -----

  /** A structure with a reference and an array of the same references. */
  function Pair(): (r: Type) {
    StructureType([Field("a", "", None, Link()), Field("b", "", None, Links())])
  }

  function Link(): (r: Type) { ReferenceType(DynamicType) }

  function Links(): (r: Type) { ArrayType(None, Link()) }

  /** `c` is made of the reference type `l` and of `b`, and `b` is made of `l` alone. */
  ghost predicate Tangled(names: Names, l: Type, b: Type, c: Type) {
    && l.ReferenceType? && !b.ReferenceType? && !c.ReferenceType? && b != c
    && !Unresolved(names, b) && !Unresolved(names, c)
    && Successors(names, b) == [l] && Successors(names, c) == [l, b]
  }

  lemma {:induction false} PairTangled(names: Names)
    ensures Tangled(names, Link(), Links(), Pair())
  {
    assert Parts(Pair()) == [Link(), Links()];
  }

  lemma {:induction false} LinkIsTrue(names: Names, U: set<Type>, m: Memo, l: Type)
    requires ClosedUnder(Next(names), U) && l in U && l.ReferenceType? && l !in m.visited && l !in m.cache
    ensures Contains(names, U, m, l) == Answer(Some(true), Memo(m.visited + {l}, m.cache[l := true]))
  {
  }

  lemma {:induction false} LinksIsFalse(names: Names, U: set<Type>, m: Memo, l: Type, b: Type, c: Type)
    requires Tangled(names, l, b, c) && ClosedUnder(Next(names), U) && l in U && b in U
    requires l in m.visited && b !in m.visited && b !in m.cache
    ensures Contains(names, U, m, b) == Answer(Some(false), Memo(m.visited + {b}, m.cache[b := false]))
  {
    OneOf(names, U, Enter(m, b), l);
  }

  lemma {:induction false} TangledQuery(names: Names, l: Type, b: Type, c: Type)
    requires Tangled(names, l, b, c)
    ensures var r := Query(names, map[], c);
            r.result == Some(true) && r.memo.cache == map[l := true, b := false, c := true]
  {
    UniverseCloses(names, c);
    var U := Universe(names, c);
    var m := Enter(Memo({}, map[]), c);
    assert [l, b][0] == l && [l, b][1] == b;
    assert l in U && b in U;
    LinkIsTrue(names, U, m, l);
    LinksIsFalse(names, U, Contains(names, U, m, l).memo, l, b, c);
    TwoOf(names, U, m, l, b);
  }

  /** A query for a tangled type leaves a wrong answer for the inner one: the reference type is
      marked by then, and `false` is kept.  The query for the structure is of this kind. */
  lemma {:induction false} CacheGoesWrong(names: Names, l: Type, b: Type, c: Type)
    requires Tangled(names, l, b, c)
    ensures Query(names, Query(names, map[], c).memo.cache, b).result == Some(false)
    ensures Carries(names, b)
  {
    TangledQuery(names, l, b, c);
    var cache := Query(names, map[], c).memo.cache;
    assert b in cache && !cache[b];
    UniverseCloses(names, b);
    LeadsToItself(Next(names), {}, l);
    assert [l][0] == l;
    LeadsFurther(Next(names), {}, b, l, l);
  }

  lemma {:induction false} OneOf(names: Names, U: set<Type>, m: Memo, t: Type)
    requires ClosedUnder(Next(names), U) && t in U
    ensures var a := Contains(names, U, m, t);
            ContainsAny(names, U, m, [t]) == Answer(Or(a.result, Some(false)), a.memo)
  {
    assert [t][1..] == [];
  }

  lemma {:induction false} TwoOf(names: Names, U: set<Type>, m: Memo, s: Type, t: Type)
    requires ClosedUnder(Next(names), U) && s in U && t in U
    ensures var a := Contains(names, U, m, s);
            var b := Contains(names, U, a.memo, t);
            ContainsAny(names, U, m, [s, t]) == Answer(Or(a.result, Or(b.result, Some(false))), b.memo)
  {
    assert [s, t][1..] == [t];
    OneOf(names, U, Contains(names, U, m, s).memo, t);
  }
}
