/** The type search with its tasks in any order: a task may be suspended after it has marked its
    type, so what a search does is to enter types one by one, each from a type entered before. */
module TypeInterleavings {
  import opened Types
  import opened Paths
  import opened TypeGraph
  import opened TypeOwners

  /** A type, and the place of the type from which it was entered. */
  datatype Entry = Entry(node: Type, from: nat)

  ghost function Nodes(es: seq<Entry>): (r: set<Type>) {
    set e | e in es :: e.node
  }

  /** Types are entered once each, the first from outside and every other from a part of it. */
  ghost predicate Entered(names: Names, cache: map<Type, bool>, t: Type, es: seq<Entry>) {
    && es != [] && es[0].node == t
    && (forall j, k :: 0 <= j < k < |es| ==> es[j].node != es[k].node)
    && (forall k :: 0 < k < |es| ==> es[k].from < k && es[k].node in Cut(names, cache)(es[es[k].from].node))
  }

  /** Nothing is left to enter, except for avoided types. */
  ghost predicate Finished(names: Names, cache: map<Type, bool>, avoided: set<Type>, es: seq<Entry>) {
    forall k, c :: 0 <= k < |es| && c in Cut(names, cache)(es[k].node) && c !in avoided ==> c in Nodes(es)
  }

  ghost predicate Interleaving(names: Names, cache: map<Type, bool>, t: Type, es: seq<Entry>) {
    Entered(names, cache, t, es) && Finished(names, cache, {}, es)
  }

  // ----- answers -----

  /** The entry is that of `n`, or one that was entered below it. */
  ghost predicate AtOrBelow(es: seq<Entry>, k: nat, n: Type)
    requires k < |es| && forall j :: 0 < j < |es| ==> es[j].from < j
    decreases k
  {
    es[k].node == n || (k > 0 && AtOrBelow(es, es[k].from, n))
  }

  /** The answer for an entered type: a hit was entered at it or below it. */
  ghost predicate Found(es: seq<Entry>, cache: map<Type, bool>, n: Type)
    requires forall j :: 0 < j < |es| ==> es[j].from < j
  {
    exists k :: 0 <= k < |es| && Hit(cache, es[k].node) && AtOrBelow(es, k, n)
  }

  /** The answer is the or of those of the types entered from it: the others were marked. */
  lemma {:induction false} FoundInParts(names: Names, cache: map<Type, bool>, t: Type, es: seq<Entry>, i: nat)
    requires Entered(names, cache, t, es) && i < |es|
    ensures Found(es, cache, es[i].node)
            <==> Hit(cache, es[i].node) || exists j :: 0 < j < |es| && es[j].from == i && Found(es, cache, es[j].node)
  {
    if Found(es, cache, es[i].node) && !Hit(cache, es[i].node) {
      var k :| 0 <= k < |es| && Hit(cache, es[k].node) && AtOrBelow(es, k, es[i].node);
      var j := ChildAbove(names, cache, t, es, i, k);
      assert Found(es, cache, es[j].node);
    }
    forall j | 0 < j < |es| && es[j].from == i && Found(es, cache, es[j].node) ensures Found(es, cache, es[i].node) {
      var k :| 0 <= k < |es| && Hit(cache, es[k].node) && AtOrBelow(es, k, es[j].node);
      BelowParent(names, cache, t, es, k, j);
    }
    if Hit(cache, es[i].node) { assert AtOrBelow(es, i, es[i].node); }
  }

  lemma {:induction false} ChildAbove(names: Names, cache: map<Type, bool>, t: Type, es: seq<Entry>, i: nat, k: nat)
      returns (j: nat)
    requires Entered(names, cache, t, es) && i < |es| && k < |es| && k != i && AtOrBelow(es, k, es[i].node)
    ensures 0 < j < |es| && es[j].from == i && AtOrBelow(es, k, es[j].node)
    decreases k
  {
    if es[k].from == i {
      j := k;
    } else {
      j := ChildAbove(names, cache, t, es, i, es[k].from);
    }
  }

  lemma {:induction false} BelowParent(names: Names, cache: map<Type, bool>, t: Type, es: seq<Entry>, k: nat, j: nat)
    requires Entered(names, cache, t, es) && k < |es| && 0 < j < |es| && AtOrBelow(es, k, es[j].node)
    ensures AtOrBelow(es, k, es[es[j].from].node)
    decreases k
  {
    if es[k].node == es[j].node {
      assert k == j;
      assert AtOrBelow(es, es[j].from, es[es[j].from].node);
    } else {
      BelowParent(names, cache, t, es, es[k].from, j);
    }
  }

  // ----- owners are answered right by every interleaving -----

  /** With answers of the cache: `n` leads to a hit that `t` leads to only through `n`. */
  ghost predicate OwnsHit(names: Names, cache: map<Type, bool>, t: Type, n: Type, h: Type) {
    Hit(cache, h) && Leads(Cut(names, cache), {}, n, h) && !Leads(Cut(names, cache), {n}, t, h)
  }

  lemma {:induction false} EntryReached(names: Names, cache: map<Type, bool>, t: Type, es: seq<Entry>, k: nat, n: Type)
    requires Entered(names, cache, t, es) && k < |es| && !AtOrBelow(es, k, n)
    ensures Leads(Cut(names, cache), {n}, t, es[k].node)
    decreases k
  {
    if k == 0 {
      LeadsToItself(Cut(names, cache), {n}, t);
    } else {
      EntryReached(names, cache, t, es, es[k].from, n);
      LeadsToItself(Cut(names, cache), {n}, es[k].node);
      LeadsFurther(Cut(names, cache), {n}, es[es[k].from].node, es[k].node, es[k].node);
      LeadsVia(Cut(names, cache), {n}, t, es[es[k].from].node, es[k].node);
    }
  }

  lemma {:induction false} EverythingEntered(
      names: Names, cache: map<Type, bool>, avoided: set<Type>, t: Type, es: seq<Entry>, x: Type)
    requires Entered(names, cache, t, es) && Finished(names, cache, avoided, es)
    requires Leads(Cut(names, cache), avoided, t, x)
    ensures x in Nodes(es)
  {
    var p: seq<Type> :| IsPath(Cut(names, cache), p) && p[0] == t && p[|p| - 1] == x && Avoids(p, avoided);
    PathEntered(names, cache, avoided, t, es, p, |p| - 1);
  }

  lemma {:induction false} PathEntered(
      names: Names, cache: map<Type, bool>, avoided: set<Type>, t: Type, es: seq<Entry>, p: seq<Type>, i: nat)
    requires Entered(names, cache, t, es) && Finished(names, cache, avoided, es)
    requires IsPath(Cut(names, cache), p) && p[0] == t && Avoids(p, avoided) && i < |p|
    ensures p[i] in Nodes(es)
    decreases i
  {
    if i == 0 {
      assert es[0] in es;
    } else {
      PathEntered(names, cache, avoided, t, es, p, i - 1);
      var e :| e in es && e.node == p[i - 1];
      var k :| 0 <= k < |es| && es[k] == e;
      assert p[i - 1 + 1] in Cut(names, cache)(es[k].node);
    }
  }

  lemma {:induction false} OwnerFound(names: Names, cache: map<Type, bool>, t: Type, es: seq<Entry>, n: Type, h: Type)
    requires Interleaving(names, cache, t, es) && Leads(Cut(names, cache), {}, t, n) && OwnsHit(names, cache, t, n, h)
    ensures Found(es, cache, n)
  {
    LeadsVia(Cut(names, cache), {}, t, n, h);
    EverythingEntered(names, cache, {}, t, es, h);
    var e :| e in es && e.node == h;
    var k :| 0 <= k < |es| && es[k] == e;
    if !AtOrBelow(es, k, n) { EntryReached(names, cache, t, es, k, n); }
  }

  // ----- without, some interleaving leaves a wrong answer -----

  /** Goes on entering types, but no avoided ones. */
  lemma {:induction false} Saturate(
      names: Names, U: set<Type>, cache: map<Type, bool>, avoided: set<Type>, t: Type, es: seq<Entry>)
      returns (r: seq<Entry>)
    requires ClosedUnder(Next(names), U) && Entered(names, cache, t, es) && Nodes(es) <= U
    ensures Entered(names, cache, t, r) && Finished(names, cache, avoided, r) && es <= r && Nodes(r) <= U
    ensures forall k :: |es| <= k < |r| ==> r[k].node !in avoided
    decreases U - Nodes(es)
  {
    if k, c :| 0 <= k < |es| && c in Cut(names, cache)(es[k].node) && c !in avoided && c !in Nodes(es) {
      var more := es + [Entry(c, k)];
      EnterOne(names, U, cache, t, es, k, c);
      r := Saturate(names, U, cache, avoided, t, more);
      assert r[|es|] == more[|es|] && es <= r;
    } else {
      r := es;
    }
  }

  lemma {:induction false} EnterOne(
      names: Names, U: set<Type>, cache: map<Type, bool>, t: Type, es: seq<Entry>, k: nat, c: Type)
    requires ClosedUnder(Next(names), U) && Entered(names, cache, t, es) && Nodes(es) <= U
    requires k < |es| && c in Cut(names, cache)(es[k].node) && c !in Nodes(es)
    ensures var more := es + [Entry(c, k)];
            Entered(names, cache, t, more) && Nodes(more) == Nodes(es) + {c} && Nodes(more) <= U
  {
    NodesMore(es, Entry(c, k));
    assert es[k] in es && es[k].node in U && c in Next(names)(es[k].node);
    forall j | 0 <= j < |es| ensures es[j].node != c { assert es[j] in es; }
    EnteredMore(names, cache, t, es, Entry(c, k));
  }

  lemma {:induction false} NodesMore(es: seq<Entry>, e: Entry)
    ensures Nodes(es + [e]) == Nodes(es) + {e.node}
  {
    forall x | x in Nodes(es) + {e.node} ensures x in Nodes(es + [e]) {
      if x == e.node {
        assert (es + [e])[|es|] in es + [e];
      } else {
        var d :| d in es && d.node == x;
        assert d in es + [e];
      }
    }
  }

  lemma {:induction false} EnteredMore(names: Names, cache: map<Type, bool>, t: Type, es: seq<Entry>, e: Entry)
    requires Entered(names, cache, t, es) && e.from < |es| && e.node in Cut(names, cache)(es[e.from].node)
    requires forall j :: 0 <= j < |es| ==> es[j].node != e.node
    ensures Entered(names, cache, t, es + [e])
  {
    var more := es + [e];
    forall k | 0 < k < |more| ensures more[k].from < k && more[k].node in Cut(names, cache)(more[more[k].from].node) {
      if k < |es| { assert more[k] == es[k] && more[es[k].from] == es[es[k].from]; }
    }
  }

  /** First all is entered that can be without `n`, and then the rest. */
  lemma {:induction false} EnterLate(names: Names, cache: map<Type, bool>, t: Type, n: Type) returns (es: seq<Entry>)
    requires t != n && forall h :: !OwnsHit(names, cache, t, n, h)
    ensures Interleaving(names, cache, t, es) && !Found(es, cache, n)
  {
    UniverseCloses(names, t);
    var U := Universe(names, t);
    var start := [Entry(t, 0)];
    assert start[0] in start;
    assert Nodes(start) == {t};
    var first := Saturate(names, U, cache, {n}, t, start);
    es := Saturate(names, U, cache, {}, t, first);
    forall k | 0 <= k < |es| && Hit(cache, es[k].node) ensures !AtOrBelow(es, k, n) {
      NotBelow(names, cache, t, first, es, n, k);
    }
  }

  lemma {:induction false} NotBelow(
      names: Names, cache: map<Type, bool>, t: Type, first: seq<Entry>, es: seq<Entry>, n: Type, k: nat)
    requires Entered(names, cache, t, es) && Entered(names, cache, t, first) && first <= es && k < |es|
    requires Hit(cache, es[k].node)
    requires Finished(names, cache, {n}, first) && n !in Nodes(first) && forall h :: !OwnsHit(names, cache, t, n, h)
    ensures !AtOrBelow(es, k, n)
  {
    if k < |first| {
      EarlyNotBelow(names, cache, t, first, es, n, k);
    } else if Leads(Cut(names, cache), {n}, t, es[k].node) {
      var j := PlaceOf(names, cache, {n}, t, first, es[k].node);
    } else if AtOrBelow(es, k, n) {
      BelowLeads(names, cache, t, es, n, k);
      assert OwnsHit(names, cache, t, n, es[k].node);
    }
  }

  lemma {:induction false} PlaceOf(
      names: Names, cache: map<Type, bool>, avoided: set<Type>, t: Type, es: seq<Entry>, x: Type) returns (j: nat)
    requires Entered(names, cache, t, es) && Finished(names, cache, avoided, es)
    requires Leads(Cut(names, cache), avoided, t, x)
    ensures j < |es| && es[j].node == x
  {
    EverythingEntered(names, cache, avoided, t, es, x);
    var e :| e in es && e.node == x;
    j :| 0 <= j < |es| && es[j] == e;
  }

  lemma {:induction false} EarlyNotBelow(
      names: Names, cache: map<Type, bool>, t: Type, first: seq<Entry>, es: seq<Entry>, n: Type, k: nat)
    requires Entered(names, cache, t, es) && first <= es && k < |first| && n !in Nodes(first)
    ensures !AtOrBelow(es, k, n)
    decreases k
  {
    assert es[k] == first[k] && first[k] in first;
    if k > 0 { EarlyNotBelow(names, cache, t, first, es, n, es[k].from); }
  }

  lemma {:induction false} BelowLeads(names: Names, cache: map<Type, bool>, t: Type, es: seq<Entry>, n: Type, k: nat)
    requires Entered(names, cache, t, es) && k < |es| && AtOrBelow(es, k, n)
    ensures Leads(Cut(names, cache), {}, n, es[k].node)
    decreases k
  {
    if es[k].node == n {
      LeadsToItself(Cut(names, cache), {}, n);
    } else {
      var parent := es[es[k].from].node;
      BelowLeads(names, cache, t, es, n, es[k].from);
      LeadsToItself(Cut(names, cache), {}, es[k].node);
      LeadsFurther(Cut(names, cache), {}, parent, es[k].node, es[k].node);
      LeadsVia(Cut(names, cache), {}, n, parent, es[k].node);
    }
  }

  /** Every interleaving of a search for `t` answers a type `n` inside it with `true` iff `n`
      leads to a hit that `t` leads to only through `n`. */
  lemma {:induction false} EveryInterleavingFindsIff(names: Names, cache: map<Type, bool>, t: Type, n: Type)
    requires Leads(Cut(names, cache), {}, t, n) && t != n
    ensures (forall es :: Interleaving(names, cache, t, es) ==> Found(es, cache, n)) <==>
        exists h :: OwnsHit(names, cache, t, n, h)
  {
    if h :| OwnsHit(names, cache, t, n, h) {
      forall es | Interleaving(names, cache, t, es) ensures Found(es, cache, n) {
        OwnerFound(names, cache, t, es, n, h);
      }
    } else {
      var es := EnterLate(names, cache, t, n);
    }
  }

  /** From nothing: every interleaving leaves the right answer for a type that carries references
      iff the type owns one of them. */
  lemma {:induction false} RightInEveryOrderIff(names: Names, t: Type, n: Type)
    requires Leads(Next(names), {}, t, n) && t != n && Carries(names, n)
    ensures (forall es :: Interleaving(names, map[], t, es) ==> (Found(es, map[], n) <==> Carries(names, n))) <==>
        Owns(names, t, n)
  {
    forall V: set<Type>, a, b ensures Leads(Cut(names, map[]), V, a, b) <==> Leads(Next(names), V, a, b) {
      UncutAnywhere(names, V, a, b);
    }
    EveryInterleavingFindsIff(names, map[], t, n);
    forall h ensures OwnsHit(names, map[], t, n, h) <==> Owned(names, t, n, h) {}
  }

  lemma {:induction false} UncutAnywhere(names: Names, V: set<Type>, a: Type, b: Type)
    ensures Leads(Cut(names, map[]), V, a, b) <==> Leads(Next(names), V, a, b)
  {
    if Leads(Next(names), V, a, b) {
      var p: seq<Type> :| IsPath(Next(names), p) && p[0] == a && p[|p| - 1] == b && Avoids(p, V);
      assert IsPath(Cut(names, map[]), p);
    }
    if Leads(Cut(names, map[]), V, a, b) {
      var p: seq<Type> :| IsPath(Cut(names, map[]), p) && p[0] == a && p[|p| - 1] == b && Avoids(p, V);
      assert IsPath(Next(names), p);
    }
  }
}
