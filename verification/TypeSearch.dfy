/** The search of types as the program runs it: marks and cache are updated in place. */
module TypeSearch {
  import opened Wrappers
  import opened Types
  import opened Paths
  import opened TypeGraph

  /** The answer for all types, when `r` is the result for those before `i`. */
  ghost function Finally(names: Names, U: set<Type>, m: Memo, ts: seq<Type>, i: nat, r: Option<bool>): (a: Answer)
    requires ClosedUnder(Next(names), U) && (forall t :: t in ts ==> t in U) && i <= |ts|
  {
    var rest := ContainsAny(names, U, m, ts[i..]);
    Answer(Or(r, rest.result), rest.memo)
  }

  lemma {:induction false} OneMore(names: Names, U: set<Type>, m: Memo, ts: seq<Type>, i: nat, r: Option<bool>)
    requires ClosedUnder(Next(names), U) && (forall t :: t in ts ==> t in U) && i < |ts|
    ensures var a := Contains(names, U, m, ts[i]);
            Finally(names, U, m, ts, i, r) == Finally(names, U, a.memo, ts, i + 1, Or(r, a.result))
  {
    assert ts[i..][0] == ts[i] && ts[i..][1..] == ts[i + 1..];
  }

  lemma {:induction false} AllAndNone(names: Names, U: set<Type>, m: Memo, ts: seq<Type>, r: Option<bool>)
    requires ClosedUnder(Next(names), U) && forall t :: t in ts ==> t in U
    ensures Finally(names, U, m, ts, 0, Some(false)) == ContainsAny(names, U, m, ts)
    ensures Finally(names, U, m, ts, |ts|, r) == Answer(r, m)
  {
    assert ts[0..] == ts;
  }

  class Searcher {
    const names: Names
    var visited: set<Type>
    var cache: map<Type, bool>

    constructor (names: Names, cache: map<Type, bool>)
      ensures this.names == names && Memory() == Memo({}, cache)
    {
      this.names := names;
      this.visited := {};
      this.cache := cache;
    }

    ghost function Memory(): (m: Memo)
      reads this
    {
      Memo(visited, cache)
    }

    method ContainsReferences(ghost U: set<Type>, t: Type) returns (r: Option<bool>)
      requires ClosedUnder(Next(names), U) && t in U
      modifies this
      ensures Answer(r, Memory()) == Contains(names, U, old(Memory()), t)
      decreases |U - visited|, 0
    {
      if t in visited { return Some(false); }
      ghost var before := visited;
      visited := visited + {t};
      if t in cache { return Some(cache[t]); }
      if t.ReferenceType? {
        r := Some(true);
      } else if Unresolved(names, t) {
        r := None;
      } else {
        FewerLeft(U, before, visited);
        SuccessorsInside(names, U, t);
        r := ContainsInAny(U, Successors(names, t));
      }
      if r.Some? { cache := cache[t := r.value]; }
    }

    method ContainsInAny(ghost U: set<Type>, ts: seq<Type>) returns (r: Option<bool>)
      requires ClosedUnder(Next(names), U) && forall t :: t in ts ==> t in U
      modifies this
      ensures Answer(r, Memory()) == ContainsAny(names, U, old(Memory()), ts)
      decreases |U - visited|, 1
    {
      r := Some(false);
      ghost var start := Memory();
      AllAndNone(names, U, start, ts, r);
      for i := 0 to |ts|
        invariant start.visited <= visited
        invariant Finally(names, U, Memory(), ts, i, r) == ContainsAny(names, U, start, ts)
      {
        FewerLeft(U, start.visited, visited);
        OneMore(names, U, Memory(), ts, i, r);
        var a := ContainsReferences(U, ts[i]);
        r := Or(r, a);
      }
      AllAndNone(names, U, Memory(), ts, r);
    }
  }

  /** One query on a cache that outlives it. */
  method RunQuery(names: Names, cache: map<Type, bool>, t: Type) returns (r: Option<bool>, after: map<Type, bool>)
    ensures r == Query(names, cache, t).result && after == Query(names, cache, t).memo.cache
  {
    UniverseCloses(names, t);
    var searcher := new Searcher(names, cache);
    r := searcher.ContainsReferences(Universe(names, t), t);
    after := searcher.cache;
  }
}
