/** The search for references in a type.  Named types make the graph of types cyclic, so the
    search marks the types it enters; it also keeps the answer for every type it enters in a
    cache that outlives the search. */
module TypeGraph {
  import opened Wrappers
  import opened Types
  import opened Paths

  datatype TypeName = TypeName(app: string, name: string)

  /** The named types of a context. */
  type Names = map<TypeName, Type>

  function NameOf(t: Type): (r: TypeName)
    requires t.NamedType?
  {
    TypeName(t.app, t.name)
  }

  predicate Unresolved(names: Names, t: Type) {
    t.NamedType? && NameOf(t) !in names
  }

  /** The types inside a type that the search looks into. */
  function Parts(t: Type): (r: seq<Type>)
    ensures forall k :: 0 <= k < |r| ==> r[k] < t
  {
    if t.ArrayType? then [t.element]
    else if t.MapType? then [t.key, t.value]
    else if t.OptionalType? then [t.item]
    else if t.StructureType? then
      assert forall k :: 0 <= k < |t.fields| ==> t.fields[k] < t;
      seq(|t.fields|, k requires 0 <= k < |t.fields| => t.fields[k].schema)
    else if t.UnionType? then
      assert forall k :: 0 <= k < |t.members| ==> t.members[k] < t;
      seq(|t.members|, k requires 0 <= k < |t.members| => t.members[k].schema)
    else []
  }

  function Successors(names: Names, t: Type): (r: seq<Type>) {
    if t.NamedType? && NameOf(t) in names then [names[NameOf(t)]] else Parts(t)
  }

  function Next(names: Names): Type -> seq<Type> {
    (t: Type) => Successors(names, t)
  }

  /** A reference type is inside the type, or behind the names inside it. */
  ghost predicate Carries(names: Names, t: Type) {
    exists n :: Leads(Next(names), {}, t, n) && n.ReferenceType?
  }

  ghost predicate Resolvable(names: Names, t: Type) {
    forall n :: Leads(Next(names), {}, t, n) ==> !Unresolved(names, n)
  }

  // ----- the types that a search can meet -----

  function Subterms(t: Type): (r: set<Type>)
    ensures t in r
    decreases t
  {
    var ps := Parts(t);
    {t} + set k: nat, u | k < |ps| && u in Subterms(ps[k]) :: u
  }

  lemma {:induction false} PartsOfSubterms(t: Type, u: Type, v: Type)
    requires u in Subterms(t) && v in Parts(u)
    ensures v in Subterms(t)
    decreases t
  {
    var ps := Parts(t);
    if u == t {
      var k :| 0 <= k < |ps| && ps[k] == v;
      assert v in Subterms(ps[k]);
    } else {
      var k: nat :| k < |ps| && u in Subterms(ps[k]);
      PartsOfSubterms(ps[k], u, v);
    }
  }

  /** All types that a search from `t` can meet. */
  ghost function Universe(names: Names, t: Type): (r: set<Type>) {
    Subterms(t) + set n, u | n in names && u in Subterms(names[n]) :: u
  }

  lemma {:induction false} UniverseCloses(names: Names, t: Type)
    ensures ClosedUnder(Next(names), Universe(names, t)) && t in Universe(names, t)
  {
    forall u, v | u in Universe(names, t) && v in Successors(names, u) ensures v in Universe(names, t) {
      if u.NamedType? && NameOf(u) in names {
        assert v == names[NameOf(u)] && v in Subterms(v);
      } else if u in Subterms(t) {
        PartsOfSubterms(t, u, v);
      } else {
        var n :| n in names && u in Subterms(names[n]);
        PartsOfSubterms(names[n], u, v);
      }
    }
  }

  // ----- the search -----

  /** `visited` belongs to one search; `cache` outlives it. */
  datatype Memo = Memo(visited: set<Type>, cache: map<Type, bool>)

  /** No result stands for an exception; the marks and the cache remain. */
  datatype Answer = Answer(result: Option<bool>, memo: Memo)

  function Or(a: Option<bool>, b: Option<bool>): (r: Option<bool>) {
    if a.None? || b.None? then None else Some(a.value || b.value)
  }

  function Remember(r: Answer, t: Type): (s: Answer) {
    if r.result.None? then r else r.(memo := r.memo.(cache := r.memo.cache[t := r.result.value]))
  }

  function Enter(m: Memo, t: Type): (r: Memo) {
    m.(visited := m.visited + {t})
  }

  lemma {:induction false} SuccessorsInside(names: Names, U: set<Type>, t: Type)
    requires ClosedUnder(Next(names), U) && t in U
    ensures forall x :: x in Successors(names, t) ==> x in U
  {
    assert Next(names)(t) == Successors(names, t);
  }

  function Contains(names: Names, ghost U: set<Type>, m: Memo, t: Type): (r: Answer)
    requires ClosedUnder(Next(names), U) && t in U
    ensures m.visited <= r.memo.visited
    decreases |U - m.visited|, 0
  {
    if t in m.visited then Answer(Some(false), m)
    else if t in m.cache then Answer(Some(m.cache[t]), Enter(m, t))
    else if t.ReferenceType? then Remember(Answer(Some(true), Enter(m, t)), t)
    else if Unresolved(names, t) then Answer(None, Enter(m, t))
    else
      FewerLeft(U, m.visited, Enter(m, t).visited);
      SuccessorsInside(names, U, t);
      Remember(ContainsAny(names, U, Enter(m, t), Successors(names, t)), t)
  }

  /** Every task runs to its end, also after another has thrown. */
  function ContainsAny(names: Names, ghost U: set<Type>, m: Memo, ts: seq<Type>): (r: Answer)
    requires ClosedUnder(Next(names), U) && forall t :: t in ts ==> t in U
    ensures m.visited <= r.memo.visited
    decreases |U - m.visited|, 1 + |ts|
  {
    if ts == [] then Answer(Some(false), m)
    else
      var a := Contains(names, U, m, ts[0]);
      FewerLeft(U, m.visited, a.memo.visited);
      var b := ContainsAny(names, U, a.memo, ts[1..]);
      Answer(Or(a.result, b.result), b.memo)
  }

  lemma {:induction false} ContainsNode(names: Names, U: set<Type>, m: Memo, t: Type)
    requires ClosedUnder(Next(names), U) && t in U
    requires t !in m.visited && t !in m.cache && !t.ReferenceType? && !Unresolved(names, t)
    ensures forall x :: x in Successors(names, t) ==> x in U
    ensures Contains(names, U, m, t) == Remember(ContainsAny(names, U, Enter(m, t), Successors(names, t)), t)
  {
    SuccessorsInside(names, U, t);
  }

  /** A query: nothing is marked yet. */
  function Query(names: Names, cache: map<Type, bool>, t: Type): (r: Answer) {
    UniverseCloses(names, t);
    Contains(names, Universe(names, t), Memo({}, cache), t)
  }

  // ----- what a search finds -----

  /** A search does not look behind the types that the cache answers. */
  function Cut(names: Names, cache: map<Type, bool>): Type -> seq<Type> {
    (t: Type) => if t in cache then [] else Successors(names, t)
  }

  predicate Hit(cache: map<Type, bool>, t: Type) {
    if t in cache then cache[t] else t.ReferenceType?
  }

  predicate Stuck(names: Names, cache: map<Type, bool>, t: Type) {
    t !in cache && Unresolved(names, t)
  }

  /** During a search the cache only grows, and for marked types only. */
  ghost predicate Agrees(cache: map<Type, bool>, m: Memo) {
    && (forall t :: t in cache ==> t in m.cache && m.cache[t] == cache[t])
    && (forall t :: t in m.cache && t !in cache ==> t in m.visited)
  }

  /** The result for the types that were entered. */
  ghost predicate Verdict(names: Names, cache: map<Type, bool>, entered: set<Type>, result: Option<bool>) {
    && (result.None? <==> exists n :: n in entered && Stuck(names, cache, n))
    && (result.Some? ==> (result.value <==> exists n :: n in entered && Hit(cache, n)))
  }

  ghost predicate Searched(names: Names, cache: map<Type, bool>, m: Memo, ts: seq<Type>, r: Answer) {
    && Agrees(cache, r.memo)
    && Explored(Cut(names, cache), m.visited, r.memo.visited, ts)
    && Verdict(names, cache, r.memo.visited - m.visited, r.result)
  }

  lemma {:induction false} VerdictJoins(
      names: Names, cache: map<Type, bool>, A: set<Type>, B: set<Type>, a: Option<bool>, b: Option<bool>)
    requires Verdict(names, cache, A, a) && Verdict(names, cache, B, b)
    ensures Verdict(names, cache, A + B, Or(a, b))
  {
    forall n | n in A + B ensures n in A || n in B {}
  }

  lemma {:induction false} LeafSearches(names: Names, U: set<Type>, cache: map<Type, bool>, m: Memo, t: Type)
    requires ClosedUnder(Next(names), U) && t in U && Agrees(cache, m) && t !in m.visited
    requires t in m.cache || t.ReferenceType? || Unresolved(names, t)
    ensures Searched(names, cache, m, [t], Contains(names, U, m, t))
  {
    var next := Cut(names, cache);
    var m1 := Enter(m, t);
    assert next(t) == [];
    ExploreNothing(next, m1.visited);
    ExploreNode(next, m.visited, m1.visited, t);
    assert m1.visited - m.visited == {t};
  }

  lemma {:induction false} NodeSearches(names: Names, cache: map<Type, bool>, m: Memo, t: Type, r: Answer)
    requires t !in cache && !t.ReferenceType? && !Unresolved(names, t) && t !in m.visited
    requires Searched(names, cache, Enter(m, t), Successors(names, t), r)
    ensures Searched(names, cache, m, [t], Remember(r, t))
  {
    assert Cut(names, cache)(t) == Successors(names, t);
    ExploreNode(Cut(names, cache), m.visited, r.memo.visited, t);
    NodeVerdict(names, cache, m, t, r);
    RememberAgrees(cache, r, t);
  }

  lemma {:induction false} NodeVerdict(names: Names, cache: map<Type, bool>, m: Memo, t: Type, r: Answer)
    requires t !in cache && !t.ReferenceType? && !Unresolved(names, t) && t !in m.visited
    requires Enter(m, t).visited <= r.memo.visited
    requires Verdict(names, cache, r.memo.visited - Enter(m, t).visited, r.result)
    ensures Verdict(names, cache, r.memo.visited - m.visited, r.result)
  {
    var entered := r.memo.visited - Enter(m, t).visited;
    assert Verdict(names, cache, {t}, Some(false));
    VerdictJoins(names, cache, {t}, entered, Some(false), r.result);
    assert r.memo.visited - m.visited == {t} + entered;
  }

  lemma {:induction false} RememberAgrees(cache: map<Type, bool>, r: Answer, t: Type)
    requires t !in cache && t in r.memo.visited && Agrees(cache, r.memo)
    ensures Agrees(cache, Remember(r, t).memo)
  {
  }

  lemma {:induction false} ContainsSearches(names: Names, U: set<Type>, cache: map<Type, bool>, m: Memo, t: Type)
    requires ClosedUnder(Next(names), U) && t in U && Agrees(cache, m)
    ensures Searched(names, cache, m, [t], Contains(names, U, m, t))
    decreases |U - m.visited|, 0
  {
    if t in m.visited {
      ExploreVisited(Cut(names, cache), m.visited, t);
      assert m.visited - m.visited == {};
    } else if t in m.cache || t.ReferenceType? || Unresolved(names, t) {
      LeafSearches(names, U, cache, m, t);
    } else {
      FewerLeft(U, m.visited, Enter(m, t).visited);
      SuccessorsInside(names, U, t);
      ContainsAnySearches(names, U, cache, Enter(m, t), Successors(names, t));
      NodeSearches(names, cache, m, t, ContainsAny(names, U, Enter(m, t), Successors(names, t)));
    }
  }

  lemma {:induction false} ContainsAnySearches(
      names: Names, U: set<Type>, cache: map<Type, bool>, m: Memo, ts: seq<Type>)
    requires ClosedUnder(Next(names), U) && (forall t :: t in ts ==> t in U) && Agrees(cache, m)
    ensures Searched(names, cache, m, ts, ContainsAny(names, U, m, ts))
    decreases |U - m.visited|, 1 + |ts|
  {
    if ts == [] {
      ExploreNothing(Cut(names, cache), m.visited);
    } else {
      var a := Contains(names, U, m, ts[0]);
      FewerLeft(U, m.visited, a.memo.visited);
      ContainsSearches(names, U, cache, m, ts[0]);
      ContainsAnySearches(names, U, cache, a.memo, ts[1..]);
      assert ts == [ts[0]] + ts[1..];
      SearchedJoins(names, cache, m, [ts[0]], ts[1..], a, ContainsAny(names, U, a.memo, ts[1..]), ts,
          ContainsAny(names, U, m, ts));
    }
  }

  lemma {:induction false} SearchedJoins(
      names: Names, cache: map<Type, bool>, m: Memo, ss: seq<Type>, ts: seq<Type>, a: Answer, b: Answer,
      all: seq<Type>, r: Answer)
    requires Searched(names, cache, m, ss, a) && Searched(names, cache, a.memo, ts, b)
    requires all == ss + ts && r == Answer(Or(a.result, b.result), b.memo)
    ensures Searched(names, cache, m, all, r)
  {
    ExploreMore(Cut(names, cache), m.visited, a.memo.visited, b.memo.visited, ss, ts);
    VerdictJoins(names, cache, a.memo.visited - m.visited, b.memo.visited - a.memo.visited, a.result, b.result);
    assert b.memo.visited - m.visited == (a.memo.visited - m.visited) + (b.memo.visited - a.memo.visited);
  }

  /** A search from any marks and any cache answers whether an unmarked path, which ends where
      the cache has an answer, leads to a reference type; and it throws iff such a path leads
      to a name that is not resolved. */
  lemma {:induction false} SearchExactly(names: Names, U: set<Type>, m: Memo, t: Type)
    requires ClosedUnder(Next(names), U) && t in U
    ensures var r := Contains(names, U, m, t).result;
            && (r.None? <==> exists n :: Leads(Cut(names, m.cache), m.visited, t, n) && Stuck(names, m.cache, n))
            && (r.Some? ==> (r.value <==> exists n :: Leads(Cut(names, m.cache), m.visited, t, n) && Hit(m.cache, n)))
  {
    ContainsSearches(names, U, m.cache, m, t);
    var r := Contains(names, U, m, t);
    forall n ensures n in r.memo.visited - m.visited <==> Leads(Cut(names, m.cache), m.visited, t, n) {
      ExploredExactly(Cut(names, m.cache), m.visited, r.memo.visited, t, n);
    }
  }
}
