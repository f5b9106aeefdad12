/** One part after the other is not every order: a type that owns nothing and is still answered
    right whatever the order of the parts. */
module TypeDiamond {
  import opened Types
  import opened Paths
  import opened TypeGraph
  import opened TypeCache
  import opened TypeOwners

  ghost predicate IsNode(names: Names, x: Type) {
    !x.ReferenceType? && !Unresolved(names, x)
  }

  ghost predicate Pair(s: seq<Type>, a: Type, b: Type) {
    s == [a, b] || s == [b, a]
  }

  /** The type `t` is made of `a` and `b`, each made of `n` and a reference type of its own, and
      `n` is made of the two reference types; the parts are in any order. */
  ghost predicate Diamond(names: Names, t: Type, a: Type, b: Type, n: Type, g: Type, h: Type) {
    && g.ReferenceType? && h.ReferenceType? && IsNode(names, t) && IsNode(names, a) && IsNode(names, b)
      && IsNode(names, n)
    && g != h && t != a && t != b && t != n && a != b && a != n && b != n
    && Pair(Successors(names, t), a, b) && Pair(Successors(names, a), g, n)
    && Pair(Successors(names, b), h, n) && Pair(Successors(names, n), g, h)
  }

  lemma {:induction false} InPair(s: seq<Type>, a: Type, b: Type)
    requires Pair(s, a, b)
    ensures forall x :: x in s <==> x == a || x == b
  {
    assert s[0] in s && s[1] in s;
  }

  // ----- nothing is owned -----

  lemma {:induction false} StepLeads(names: Names, V: set<Type>, a: Type, b: Type)
    requires a !in V && b !in V && b in Successors(names, a)
    ensures Leads(Next(names), V, a, b)
  {
    assert b in Next(names)(a);
    LeadsToItself(Next(names), V, b);
    LeadsFurther(Next(names), V, a, b, b);
  }

  lemma {:induction false} NothingOwned(names: Names, t: Type, a: Type, b: Type, n: Type, g: Type, h: Type)
    requires Diamond(names, t, a, b, n, g, h)
    ensures !Owns(names, t, n) && Carries(names, n)
  {
    InPair(Successors(names, t), a, b);
    InPair(Successors(names, a), g, n);
    InPair(Successors(names, b), h, n);
    InPair(Successors(names, n), g, h);
    SideLeads(names, n, t, a, g);
    SideLeads(names, n, t, b, h);
    StepLeads(names, {}, n, g);
    forall r: Type | r.ReferenceType? && Leads(Next(names), {}, n, r) ensures Leads(Next(names), {n}, t, r) {
      ReferenceBelow(names, n, g, h, r);
    }
  }

  lemma {:induction false} SideLeads(names: Names, n: Type, t: Type, x: Type, r: Type)
    requires t != n && x != n && r != n && x in Successors(names, t) && r in Successors(names, x)
    ensures Leads(Next(names), {n}, t, r)
  {
    StepLeads(names, {n}, t, x);
    StepLeads(names, {n}, x, r);
    LeadsVia(Next(names), {n}, t, x, r);
  }

  lemma {:induction false} ReferenceBelow(names: Names, n: Type, g: Type, h: Type, r: Type)
    requires g.ReferenceType? && h.ReferenceType? && !n.ReferenceType? && Pair(Successors(names, n), g, h)
    requires r.ReferenceType? && Leads(Next(names), {}, n, r)
    ensures r == g || r == h
  {
    InPair(Successors(names, n), g, h);
    forall x, y | x in {n, g, h} && y in Next(names)(x) ensures y in {n, g, h} {}
    ClosedContains(Next(names), {n, g, h}, {}, n, r);
  }

  // ----- and still the answer is right -----

  /** A type is answered with `true` when a reference type that is a part of it is not marked. */
  lemma {:induction false} UnmarkedPart(names: Names, U: set<Type>, m: Memo, n: Type, h: Type)
    requires ClosedUnder(Next(names), U) && n in U && n !in m.visited && n !in m.cache && h !in m.visited
    requires h !in m.cache
    requires IsNode(names, n) && h.ReferenceType? && h in Successors(names, n)
    requires Contains(names, U, m, n).result.Some?
    ensures Answered(Contains(names, U, m, n).memo, n)
  {
    SearchExactly(names, U, m, n);
    assert h in Cut(names, m.cache)(n);
    LeadsToItself(Cut(names, m.cache), m.visited, h);
    LeadsFurther(Cut(names, m.cache), m.visited, n, h, h);
    assert Hit(m.cache, h);
    ContainsNode(names, U, m, n);
  }

  ghost predicate Answered(m: Memo, n: Type) {
    n in m.cache && m.cache[n]
  }

  /** What is in the cache stays there. */
  lemma {:induction false} StaysInSearch(names: Names, U: set<Type>, m: Memo, t: Type, n: Type)
    requires ClosedUnder(Next(names), U) && t in U && Answered(m, n)
    ensures Answered(Contains(names, U, m, t).memo, n)
  {
    ContainsSearches(names, U, m.cache, m, t);
  }

  lemma {:induction false} ReferencesResolved(names: Names, U: set<Type>, m: Memo, n: Type, g: Type, h: Type)
    requires ClosedUnder(Next(names), U) && n in U && IsNode(names, n) && n !in m.visited && n !in m.cache
    requires g.ReferenceType? && h.ReferenceType? && Successors(names, n) == [g, h]
    ensures Contains(names, U, m, n).result.Some?
  {
    ContainsNode(names, U, m, n);
    assert [g, h][0] == g && [g, h][1] == h;
    TwoOf(names, U, Enter(m, n), g, h);
  }

  /** The inner type is answered right, wherever it comes among the parts of the outer one. */
  lemma {:induction false} SideAnswers(names: Names, U: set<Type>, m: Memo, x: Type, n: Type, own: Type, other: Type)
    requires ClosedUnder(Next(names), U) && x in U && IsNode(names, x) && IsNode(names, n) && own.ReferenceType?
    requires other.ReferenceType?
    requires own != other && x != n && m.cache == map[] && x !in m.visited && n !in m.visited && own !in m.visited
    requires other !in m.visited
    requires Pair(Successors(names, x), own, n) && Pair(Successors(names, n), own, other)
    ensures Answered(Contains(names, U, m, x).memo, n)
  {
    ContainsNode(names, U, m, x);
    InPair(Successors(names, x), own, n);
    if Successors(names, x) == [n, own] {
      InnerFirst(names, U, Enter(m, x), n, own, other);
    } else {
      OwnFirst(names, U, Enter(m, x), n, own, other);
      TwoOf(names, U, Enter(m, x), own, n);
    }
  }

  lemma {:induction false} InnerFirst(names: Names, U: set<Type>, m: Memo, n: Type, own: Type, other: Type)
    requires ClosedUnder(Next(names), U) && own in U && n in U && IsNode(names, n) && own.ReferenceType?
    requires other.ReferenceType?
    requires own != other && m.cache == map[] && n !in m.visited && own !in m.visited && other !in m.visited
    requires Pair(Successors(names, n), own, other)
    ensures Answered(ContainsAny(names, U, m, [n, own]).memo, n)
  {
    InnerAnswers(names, U, m, n, own, other);
    StaysInSearch(names, U, Contains(names, U, m, n).memo, own, n);
    TwoOf(names, U, m, n, own);
  }

  lemma {:induction false} OwnFirst(names: Names, U: set<Type>, m: Memo, n: Type, own: Type, other: Type)
    requires ClosedUnder(Next(names), U) && own in U && n in U && IsNode(names, n) && own.ReferenceType?
    requires other.ReferenceType?
    requires own != other && m.cache == map[] && n !in m.visited && own !in m.visited && other !in m.visited
    requires Pair(Successors(names, n), own, other)
    ensures Answered(Contains(names, U, Contains(names, U, m, own).memo, n).memo, n)
  {
    assert Contains(names, U, m, own).memo == Memo(m.visited + {own}, map[own := true]);
    InnerAnswers(names, U, Contains(names, U, m, own).memo, n, own, other);
  }

  lemma {:induction false} InnerAnswers(names: Names, U: set<Type>, m: Memo, n: Type, own: Type, other: Type)
    requires ClosedUnder(Next(names), U) && n in U && IsNode(names, n) && own.ReferenceType? && other.ReferenceType?
    requires n !in m.visited && n !in m.cache && other !in m.visited && other !in m.cache
    requires Pair(Successors(names, n), own, other)
    ensures Answered(Contains(names, U, m, n).memo, n)
  {
    InPair(Successors(names, n), own, other);
    if Successors(names, n) == [own, other] {
      ReferencesResolved(names, U, m, n, own, other);
    } else {
      ReferencesResolved(names, U, m, n, other, own);
    }
    UnmarkedPart(names, U, m, n, other);
  }

  /** Searching the parts one after the other, in any order, answers `n` right, although `n`
      owns no reference type. */
  lemma {:induction false} RightAlthoughNothingOwned(names: Names, t: Type, a: Type, b: Type, n: Type, g: Type, h: Type)
    requires Diamond(names, t, a, b, n, g, h)
    ensures Answered(Query(names, map[], t).memo, n) && Carries(names, n) && !Owns(names, t, n)
  {
    NothingOwned(names, t, a, b, n, g, h);
    UniverseCloses(names, t);
    if Successors(names, t) == [a, b] {
      FirstSide(names, Universe(names, t), t, a, b, n, g, h);
    } else {
      FirstSide(names, Universe(names, t), t, b, a, n, h, g);
    }
  }

  lemma {:induction false} FirstSide(names: Names, U: set<Type>, t: Type, a: Type, b: Type, n: Type, g: Type, h: Type)
    requires ClosedUnder(Next(names), U) && t in U && IsNode(names, t) && Successors(names, t) == [a, b]
    requires g.ReferenceType? && h.ReferenceType? && g != h && IsNode(names, a) && IsNode(names, n) && t != a
    requires t != n && a != n
    requires Pair(Successors(names, a), g, n) && Pair(Successors(names, n), g, h)
    ensures Answered(Contains(names, U, Memo({}, map[]), t).memo, n)
  {
    var m := Enter(Memo({}, map[]), t);
    ContainsNode(names, U, Memo({}, map[]), t);
    InPair([a, b], a, b);
    SideAnswers(names, U, m, a, n, g, h);
    StaysInSearch(names, U, Contains(names, U, m, a).memo, b, n);
    TwoOf(names, U, m, a, b);
  }
}
