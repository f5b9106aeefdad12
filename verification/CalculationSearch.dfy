/** The search of a calculation, and of those it depends on, for function names. */
module CalculationSearch {
  import opened Wrappers
  import opened TextOrder
  import opened Paths
  import opened Requests
  import opened RequestForms
  import opened Resolvers
  import opened Completeness

  datatype Service = IAM | APM | ISS | CALC | CAS | RKS | IMMUTABLE

  function HexDigit(c: char): (r: Option<nat>)
    ensures r.Some? ==> r.value < 16
  {
    if '0' <= c <= '9' then Some(c as int - '0' as int)
    else if 'a' <= c <= 'f' then Some(10 + (c as int - 'a' as int))
    else if 'A' <= c <= 'F' then Some(10 + (c as int - 'A' as int))
    else None
  }

  /** The number that up to two leading hexadecimal digits make, if there is one. */
  function LeadingHex(s: string): (r: Option<nat>)
    requires |s| <= 2
  {
    if s == [] || HexDigit(s[0]).None? then None
    else if |s| == 1 || HexDigit(s[1]).None? then HexDigit(s[0])
    else Some(16 * HexDigit(s[0]).value + HexDigit(s[1]).value)
  }

  function ServiceNumbered(code: nat): (r: Option<Service>) {
    if code == 1 then Some(IAM) else if code == 2 then Some(APM) else if code == 3 then Some(ISS)
    else if code == 4 then Some(CALC) else if code == 5 then Some(CAS) else if code == 6 then Some(RKS)
    else if code == 7 then Some(IMMUTABLE) else None
  }

  /** The service is in the upper bits of the byte at position 9 of an id; no result stands for
      an exception. */
  function ServiceOf(id: string): (r: Option<Service>) {
    if |id| < 9 then None
    else
      var n := LeadingHex(id[9..if |id| < 11 then |id| else 11]);
      if n.None? then None else ServiceNumbered(n.value / 4)
  }

  // ----- the graph of calculations -----

  predicate IsCalculation(S: Store, id: string) {
    id in S && S[id].Calc?
  }

  /** The positions that the search follows. */
  function Followed(e: Request): (r: seq<Request>) {
    Children(e)[..Visited(e)]
  }

  function CalcRefs(es: seq<Request>): (r: seq<string>) {
    if es == [] then []
    else CalcRefs(es[..|es| - 1]) + CalcRef(es[|es| - 1])
  }

  function CalcRef(e: Request): (r: seq<string>) {
    if e.Reference? && ServiceOf(e.id) == Some(CALC) then [e.id] else []
  }

  function DependsOn(S: Store): string -> seq<string> {
    (id: string) => if IsCalculation(S, id) then CalcRefs(Followed(S[id].request)) else []
  }

  predicate Occurs(text: string, name: string) {
    exists i :: 0 <= i <= |name| && StartsWith(name[i..], text)
  }

  predicate StartsWith(s: string, text: string) {
    text <= s
  }

  predicate Matches(S: Store, text: string, id: string) {
    IsCalculation(S, id) && S[id].request.Function? && Occurs(text, S[id].request.name)
  }

  /** Requests that a resolved calculation cannot be. */
  predicate Unresolved(e: Request) {
    e.Let? || e.Variable? || e.Lambda?
  }

  predicate BadReference(e: Request) {
    e.Reference? && ServiceOf(e.id).None?
  }

  /** The search cannot handle the calculation. */
  ghost predicate Bad(S: Store, id: string) {
    IsCalculation(S, id) &&
    (Unresolved(S[id].request) || exists e :: e in Followed(S[id].request) && BadReference(e))
  }

  ghost predicate NoneBad(es: seq<Request>, n: nat) {
    forall k :: 0 <= k < n <= |es| ==> !BadReference(es[k])
  }

  // ----- the ids that a search can meet -----

  ghost function Universe(S: Store, id: string): (U: set<string>) {
    {id} + set a, b | a in S && b in DependsOn(S)(a) :: b
  }

  lemma {:induction false} UniverseCloses(S: Store, id: string)
    ensures ClosedUnder(DependsOn(S), Universe(S, id)) && id in Universe(S, id)
  {
    forall a, b | a in Universe(S, id) && b in DependsOn(S)(a) ensures b in Universe(S, id) {
      assert a in S;
    }
  }

  lemma {:induction false} CalcRefsOfPrefix(es: seq<Request>, i: nat)
    requires i < |es|
    ensures CalcRefs(es[..i + 1]) == CalcRefs(es[..i]) + CalcRef(es[i])
    ensures forall x :: x in CalcRef(es[i]) ==> x in CalcRefs(es)
    decreases |es|
  {
    assert es[..i + 1][..i] == es[..i];
    if i == |es| - 1 {
      assert es[..i + 1] == es;
    } else {
      CalcRefsOfPrefix(es[..|es| - 1], i);
    }
  }

  // ----- the search -----

  /** What is recorded about the ids in `entered` is right, and none of them is bad. */
  ghost predicate Right(S: Store, text: string, isMatching: map<string, bool>, entered: set<string>) {
    forall n :: n in entered ==> n in isMatching && isMatching[n] == Matches(S, text, n) && !Bad(S, n)
  }

  ghost predicate Extended(before: map<string, bool>, after: map<string, bool>) {
    before.Keys <= after.Keys && forall n :: n in before ==> after[n] == before[n]
  }

  /** The roots have been searched with success. */
  ghost predicate Searched(
      S: Store, text: string, before: map<string, bool>, after: map<string, bool>, roots: seq<string>) {
    && Extended(before, after)
    && Explored(DependsOn(S), before.Keys, after.Keys, roots)
    && Right(S, text, after, after.Keys - before.Keys)
  }

  ghost predicate LeadsToBad(S: Store, id: string) {
    exists n :: Leads(DependsOn(S), {}, id, n) && Bad(S, n)
  }

  lemma {:induction false} SearchedBefore(S: Store, text: string, before: map<string, bool>, id: string)
    ensures Searched(S, text, before, before, [])
    ensures id in before ==> Searched(S, text, before, before, [id])
  {
    ExploreNothing(DependsOn(S), before.Keys);
    assert before.Keys - before.Keys == {};
    if id in before { ExploreVisited(DependsOn(S), before.Keys, id); }
  }

  lemma {:induction false} SearchedNode(
      S: Store, text: string, before: map<string, bool>, after: map<string, bool>, id: string)
    requires id !in before && !Bad(S, id)
    requires Searched(S, text, before[id := Matches(S, text, id)], after, DependsOn(S)(id))
    ensures Searched(S, text, before, after, [id])
  {
    assert before[id := Matches(S, text, id)].Keys == before.Keys + {id};
    ExploreNode(DependsOn(S), before.Keys, after.Keys, id);
    assert after.Keys - before.Keys == (after.Keys - (before.Keys + {id})) + {id};
  }

  lemma {:induction false} SearchedMore(
      S: Store, text: string, a: map<string, bool>, b: map<string, bool>, c: map<string, bool>, rs: seq<string>,
      ss: seq<string>)
    requires Searched(S, text, a, b, rs) && Searched(S, text, b, c, ss)
    ensures Searched(S, text, a, c, rs + ss)
  {
    ExploreMore(DependsOn(S), a.Keys, b.Keys, c.Keys, rs, ss);
    assert c.Keys - a.Keys == (b.Keys - a.Keys) + (c.Keys - b.Keys);
  }

  lemma {:induction false} BadItself(S: Store, id: string)
    requires Bad(S, id)
    ensures LeadsToBad(S, id)
  {
    LeadsToItself(DependsOn(S), {}, id);
  }

  lemma {:induction false} BadBelow(S: Store, id: string, ref: string)
    requires ref in DependsOn(S)(id) && LeadsToBad(S, ref)
    ensures LeadsToBad(S, id)
  {
    var n :| Leads(DependsOn(S), {}, ref, n) && Bad(S, n);
    LeadsFurther(DependsOn(S), {}, id, ref, n);
  }

  /** A followed position: its reference, if it is one to a calculation, is a dependency. */
  lemma {:induction false} FollowedPosition(S: Store, id: string, i: nat)
    requires IsCalculation(S, id) && i < |Followed(S[id].request)|
    ensures var es := Followed(S[id].request);
            && CalcRefs(es[..i + 1]) == CalcRefs(es[..i]) + CalcRef(es[i])
            && (forall x :: x in CalcRef(es[i]) ==> x in DependsOn(S)(id))
            && (BadReference(es[i]) ==> Bad(S, id))
            && (NoneBad(es, i) && !BadReference(es[i]) ==> NoneBad(es, i + 1))
  {
    CalcRefsOfPrefix(Followed(S[id].request), i);
  }

  lemma {:induction false} AllFollowed(S: Store, id: string)
    requires IsCalculation(S, id) && !Unresolved(S[id].request)
    ensures var es := Followed(S[id].request);
            && CalcRefs(es[..|es|]) == DependsOn(S)(id) && es[..0] == [] && CalcRefs(es[..0]) == []
            && NoneBad(es, 0) && (NoneBad(es, |es|) ==> !Bad(S, id))
  {
    var es := Followed(S[id].request);
    assert es[..|es|] == es;
  }

  class Searcher {
    const store: Store
    const text: string
    /** Whether the function name of an id matches, for the ids that were searched. */
    var isMatching: map<string, bool>

    constructor (store: Store, text: string)
      ensures this.store == store && this.text == text && isMatching == map[]
    {
      this.store := store;
      this.text := text;
      this.isMatching := map[];
    }

    method Search(ghost U: set<string>, id: string) returns (ok: bool)
      requires ClosedUnder(DependsOn(store), U) && id in U
      modifies this
      ensures Extended(old(isMatching), isMatching)
      ensures if ok then Searched(store, text, old(isMatching), isMatching, [id]) else LeadsToBad(store, id)
      decreases |U - isMatching.Keys|, 1
    {
      ghost var before := isMatching;
      SearchedBefore(store, text, before, id);
      if id in isMatching { return true; }
      if !IsCalculation(store, id) {
        isMatching := isMatching[id := false];
        SearchedBefore(store, text, isMatching, id);
        SearchedNode(store, text, before, isMatching, id);
        return true;
      }
      var e := store[id].request;
      if Unresolved(e) {
        BadItself(store, id);
        return false;
      }
      isMatching := isMatching[id := e.Function? && Occurs(text, e.name)];
      FewerLeft(U, before.Keys, isMatching.Keys);
      ok := SearchAll(U, id);
      if ok { SearchedNode(store, text, before, isMatching, id); }
    }

    /** Searches the followed positions of a calculation, one after the other. */
    method SearchAll(ghost U: set<string>, id: string) returns (ok: bool)
      requires ClosedUnder(DependsOn(store), U) && id in U && IsCalculation(store, id) && !Unresolved(store[id].request)
      modifies this
      ensures Extended(old(isMatching), isMatching)
      ensures if ok then !Bad(store, id) && Searched(store, text, old(isMatching), isMatching, DependsOn(store)(id))
              else LeadsToBad(store, id)
      decreases |U - isMatching.Keys|, 3
    {
      ghost var start := isMatching;
      var es := Followed(store[id].request);
      SearchedBefore(store, text, start, id);
      AllFollowed(store, id);
      ghost var refs := [];
      for i := 0 to |es|
        invariant refs == CalcRefs(es[..i])
        invariant Searched(store, text, start, isMatching, refs)
        invariant NoneBad(es, i)
      {
        ghost var now := isMatching;
        FollowedPosition(store, id, i);
        FewerLeft(U, start.Keys, now.Keys);
        var found := SearchPosition(U, id, i, es[i]);
        if !found { return false; }
        SearchedMore(store, text, start, now, isMatching, refs, CalcRef(es[i]));
        refs := refs + CalcRef(es[i]);
      }
      ok := true;
    }

    method SearchPosition(ghost U: set<string>, ghost id: string, i: nat, e: Request) returns (ok: bool)
      requires ClosedUnder(DependsOn(store), U) && id in U && IsCalculation(store, id)
      requires i < |Followed(store[id].request)|
      requires e == Followed(store[id].request)[i]
      modifies this
      ensures Extended(old(isMatching), isMatching)
      ensures if ok then !BadReference(e) && Searched(store, text, old(isMatching), isMatching, CalcRef(e))
          else LeadsToBad(store, id)
      decreases |U - isMatching.Keys|, 2
    {
      FollowedPosition(store, id, i);
      SearchedBefore(store, text, isMatching, id);
      if !e.Reference? { return true; }
      var service := ServiceOf(e.id);
      if service.None? {
        BadItself(store, id);
        return false;
      }
      if service != Some(CALC) { return true; }
      assert e.id in CalcRef(e);
      ok := Search(U, e.id);
      if !ok { BadBelow(store, id, e.id); }
    }
  }

  /** The search returns, in ascending order and each once, exactly the ids that the followed
      positions lead to and whose function name contains the text.  It fails iff they lead to
      a calculation it cannot handle; in a store that the resolvers have posted, that is one
      with a malformed id. */
  method SearchCalculation(S: Store, id: string, text: string) returns (r: Option<seq<string>>)
    ensures r.None? <==> LeadsToBad(S, id)
    ensures ShallowStore(S) ==> (r.None? <==> LeadsToMalformed(S, id))
    ensures r.Some? ==> Ascending(r.value)
    ensures r.Some? ==> forall n :: n in r.value <==> Leads(DependsOn(S), {}, id, n) && Matches(S, text, n)
  {
    if ShallowStore(S) { ShallowIsSearchable(S, id); }
    UniverseCloses(S, id);
    var searcher := new Searcher(S, text);
    var ok := searcher.Search(Universe(S, id), id);
    if !ok { return None; }
    ghost var empty: map<string, bool> := map[];
    assert empty.Keys == {};
    forall n ensures n in searcher.isMatching <==> Leads(DependsOn(S), {}, id, n) {
      ExploredExactly(DependsOn(S), {}, searcher.isMatching.Keys, id, n);
      assert searcher.isMatching.Keys - {} == searcher.isMatching.Keys;
    }
    var matches := Sorted(set n | n in searcher.isMatching && searcher.isMatching[n]);
    r := Some(matches);
  }

  // ----- searching what the resolvers have posted -----

  ghost predicate LeadsToMalformed(S: Store, id: string) {
    exists n :: Leads(DependsOn(S), {}, id, n) && Malformed(S, n)
  }

  /** A calculation that mentions, where the search follows it, an id without a service. */
  ghost predicate Malformed(S: Store, id: string) {
    IsCalculation(S, id) && exists e :: e in Followed(S[id].request) && BadReference(e)
  }

  /** In a shallow store a search meets no let, variable or lambda: it fails iff the followed
      positions lead to a calculation that mentions a malformed id. */
  lemma {:induction false} ShallowIsSearchable(S: Store, id: string)
    requires ShallowStore(S)
    ensures LeadsToBad(S, id) <==> LeadsToMalformed(S, id)
  {
    forall n ensures Bad(S, n) <==> Malformed(S, n) {}
    if LeadsToBad(S, id) {
      var n :| Leads(DependsOn(S), {}, id, n) && Bad(S, n);
      assert Malformed(S, n);
    }
  }

  /** So it is in every store that the remote resolver has made out of a shallow one. */
  lemma {:induction false} PostedIsSearchable(w: World, n: nat, S: Store, env: Environment, e: Request, id: string)
    requires ShallowStore(S) && Remote(w, n, S, env, e).Done?
    ensures var S' := Remote(w, n, S, env, e).value.1;
            ShallowStore(S') && (LeadsToBad(S', id) <==> LeadsToMalformed(S', id))
  {
    RemotePostsShallow(w, n, S, env, e);
    ShallowIsSearchable(Remote(w, n, S, env, e).value.1, id);
  }
}
