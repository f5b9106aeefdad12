/** The deep copy itself: what it copies, and when that is everything. */
module DeepCopyRuns {
  import opened Wrappers
  import opened Requests
  import opened Types
  import opened Paths
  import opened TypeGraph
  import opened TypeCache
  import opened TypeOwners
  import opened DeepCopy
  import opened ReferencePaths
  import opened VisitLaws

  /** The destination bucket, the objects whose deep copy has succeeded before, and the cache
      of the type search. */
  datatype State = State(destination: set<string>, copied: set<string>, cache: map<Type, bool>)

  datatype Copying = Copying(ok: bool, state: State)

  /** The order in which the references of one value are copied. */
  type Order = set<string> -> seq<string>

  ghost predicate Orders(order: Order) {
    forall s :: |order(s)| == |s| && forall x :: x in order(s) <==> x in s
  }

  function Scan(src: Source, id: string): (r: Visiting)
    requires id in src.objects
  {
    Visit(src.names, |src.names|, src.objects[id].kind, src.objects[id].value)
  }

  function Refs(src: Source, id: string): (r: set<string>) {
    if id in src.objects then Scan(src, id).refs else {}
  }

  /** References are acyclic: ids are hashes of contents. */
  ghost predicate Ranked(src: Source, rank: string -> nat) {
    forall id, x :: x in Refs(src, id) ==> rank(x) < rank(id)
  }

  /** What a brute-force scan of every object finds. */
  function References(src: Source, order: Order): string -> seq<string> {
    (id: string) => order(Refs(src, id))
  }

  function Copied(s: State, id: string): (r: State) {
    s.(copied := s.copied + {id})
  }

  /** The object itself is in the destination, and its type has been searched. */
  function Shallow(src: Source, s: State, id: string): (r: (Option<bool>, State))
    requires id in src.objects
  {
    var q := Query(src.names, s.cache, src.objects[id].kind);
    (q.result, State(s.destination + {id}, s.copied, q.memo.cache))
  }

  function Copy(src: Source, ghost rank: string -> nat, order: Order, s: State, id: string): (r: Copying)
    requires Ranked(src, rank) && Orders(order)
    decreases rank(id) + 1, 0
  {
    if id in s.copied then Copying(true, s)
    else if id !in src.objects then Copying(false, s)
    else
      var (carries, s1) := Shallow(src, s, id);
      if carries.None? then Copying(false, s1)
      else if !carries.value then Copying(true, Copied(s1, id))
      else
        var c := CopyAll(src, rank, rank(id), order, s1, order(Refs(src, id)));
        if Scan(src, id).ok && c.ok then Copying(true, Copied(c.state, id)) else Copying(false, c.state)
  }

  /** All references are copied, also after one has failed. */
  function CopyAll(
      src: Source, ghost rank: string -> nat, ghost bound: nat, order: Order, s: State, ids: seq<string>): (r: Copying)
    requires Ranked(src, rank) && Orders(order) && forall x :: x in ids ==> rank(x) < bound
    decreases bound, 1 + |ids|
  {
    if ids == [] then Copying(true, s)
    else
      var a := Copy(src, rank, order, s, ids[0]);
      var b := CopyAll(src, rank, bound, order, a.state, ids[1..]);
      Copying(a.ok && b.ok, b.state)
  }

  // ----- nothing else is copied, and nothing fails without a reason -----

  /** The object can be read, its type and value are in order. */
  ghost predicate Copyable(src: Source, id: string) {
    && id in src.objects && Resolvable(src.names, src.objects[id].kind)
    && (Carries(src.names, src.objects[id].kind) ==> Scan(src, id).ok)
  }

  ghost predicate Reached(src: Source, order: Order, ids: seq<string>, n: string) {
    LedTo(References(src, order), {}, ids, n)
  }

  /** The state has grown by reached objects only; a failure comes from a reached object. */
  ghost predicate Grown(src: Source, order: Order, s: State, ids: seq<string>, r: Copying) {
    && s.destination <= r.state.destination && s.copied <= r.state.copied
    && (Sound(src.names, s.cache) ==> Sound(src.names, r.state.cache))
    && (forall n :: n in r.state.destination - s.destination ==> Reached(src, order, ids, n))
    && (Sound(src.names, s.cache) && !r.ok ==> exists n :: Reached(src, order, ids, n) && !Copyable(src, n))
  }

  lemma {:induction false} GrownByOne(src: Source, order: Order, s: State, ids: seq<string>, a: Copying, b: Copying)
    requires ids != [] && Grown(src, order, s, [ids[0]], a) && Grown(src, order, a.state, ids[1..], b)
    ensures Grown(src, order, s, ids, Copying(a.ok && b.ok, b.state))
  {
    forall n | Reached(src, order, [ids[0]], n) || Reached(src, order, ids[1..], n)
      ensures Reached(src, order, ids, n)
    {
      if Reached(src, order, [ids[0]], n) {
        assert Leads(References(src, order), {}, ids[0], n) && ids[0] in ids;
      } else {
        var r :| r in ids[1..] && Leads(References(src, order), {}, r, n);
        assert r in ids;
      }
    }
  }

  lemma {:induction false} ReachedItself(src: Source, order: Order, id: string)
    ensures Reached(src, order, [id], id)
  {
    LeadsToItself(References(src, order), {}, id);
    assert id in [id];
  }

  lemma {:induction false} ReachedBelow(src: Source, order: Order, id: string, n: string)
    requires id in src.objects && Reached(src, order, order(Refs(src, id)), n)
    ensures Reached(src, order, [id], n)
  {
    var r :| r in order(Refs(src, id)) && Leads(References(src, order), {}, r, n);
    assert References(src, order)(id) == order(Refs(src, id));
    LeadsFurther(References(src, order), {}, id, r, n);
    assert id in [id];
  }

  /** A type search throws only if the type is not resolvable, and says `true` only if the
      type carries references. */
  lemma {:induction false} ShallowReasons(src: Source, s: State, id: string)
    requires id in src.objects && Sound(src.names, s.cache)
    ensures var (carries, s1) := Shallow(src, s, id);
            && Sound(src.names, s1.cache)
            && (carries.None? ==> !Resolvable(src.names, src.objects[id].kind))
            && (carries == Some(true) ==> Carries(src.names, src.objects[id].kind))
  {
    var t := src.objects[id].kind;
    QueryLeaves(src.names, s.cache, t);
    UniverseCloses(src.names, t);
    var U := Universe(src.names, t);
    TrueIsSound(src.names, U, Memo({}, s.cache), t);
    SearchExactly(src.names, U, Memo({}, s.cache), t);
    if Query(src.names, s.cache, t).result.None? {
      var n :| Leads(Cut(src.names, s.cache), {}, t, n) && Stuck(src.names, s.cache, n);
      CutLeads(src.names, s.cache, {}, t, n);
    }
  }

  lemma {:induction false} CopyGrows(src: Source, rank: string -> nat, order: Order, s: State, id: string)
    requires Ranked(src, rank) && Orders(order)
    ensures Grown(src, order, s, [id], Copy(src, rank, order, s, id))
    decreases rank(id) + 1, 0
  {
    ReachedItself(src, order, id);
    if id !in s.copied && id in src.objects {
      var (carries, s1) := Shallow(src, s, id);
      if Sound(src.names, s.cache) { ShallowReasons(src, s, id); }
      if carries == Some(true) {
        var ids := order(Refs(src, id));
        CopyAllGrows(src, rank, rank(id), order, s1, ids);
        forall n | Reached(src, order, ids, n) ensures Reached(src, order, [id], n) { ReachedBelow(src, order, id, n); }
      }
    }
  }

  lemma {:induction false} CopyAllGrows(
      src: Source, rank: string -> nat, bound: nat, order: Order, s: State, ids: seq<string>)
    requires Ranked(src, rank) && Orders(order) && forall x :: x in ids ==> rank(x) < bound
    ensures Grown(src, order, s, ids, CopyAll(src, rank, bound, order, s, ids))
    decreases bound, 1 + |ids|
  {
    if ids != [] {
      var a := Copy(src, rank, order, s, ids[0]);
      CopyGrows(src, rank, order, s, ids[0]);
      CopyAllGrows(src, rank, bound, order, a.state, ids[1..]);
      GrownByOne(src, order, s, ids, a, CopyAll(src, rank, bound, order, a.state, ids[1..]));
    }
  }

  // ----- when everything is copied -----

  /** The types of all objects of the source. */
  ghost predicate Kinds(src: Source, Q: set<Type>) {
    forall id :: id in src.objects ==> src.objects[id].kind in Q
  }

  /** Every copied object is in the destination, and so are all that it refers to. */
  ghost predicate Finished(src: Source, s: State) {
    forall id :: id in s.copied ==>
      && id in s.destination && id in src.objects && Refs(src, id) <= s.copied
      && (Carries(src.names, src.objects[id].kind) ==> Scan(src, id).ok)
  }

  ghost predicate Complete(src: Source, Q: set<Type>, s: State) {
    Finished(src, s) && Traced(src.names, s.cache, Q)
  }

  /** The types of the objects are untangled, and all their names are resolved. */
  ghost predicate InOrder(src: Source, Q: set<Type>) {
    Kinds(src, Q) && Untangled(src.names, Q) && forall q :: q in Q ==> Resolvable(src.names, q)
  }

  /** A copy, whether it succeeds or fails, leaves behind only finished objects and traced answers. */
  lemma {:induction false} CopyCompletes(
      src: Source, rank: string -> nat, order: Order, Q: set<Type>, s: State, id: string)
    requires Ranked(src, rank) && Orders(order) && InOrder(src, Q) && Complete(src, Q, s)
    ensures var r := Copy(src, rank, order, s, id);
            Complete(src, Q, r.state) && (r.ok ==> id in r.state.copied)
            && s.copied <= r.state.copied && s.destination <= r.state.destination
    decreases rank(id) + 1, 0
  {
    if id !in s.copied && id in src.objects {
      ShallowCompletes(src, Q, s, id);
      var (carries, s1) := Shallow(src, s, id);
      if carries == Some(true) {
        CopyAllCompletes(src, rank, rank(id), order, Q, s1, order(Refs(src, id)));
      }
    }
  }

  lemma {:induction false} ShallowCompletes(src: Source, Q: set<Type>, s: State, id: string)
    requires InOrder(src, Q) && Complete(src, Q, s) && id in src.objects
    ensures Complete(src, Q, Shallow(src, s, id).1)
    ensures Shallow(src, s, id).0 == Some(Carries(src.names, src.objects[id].kind))
    ensures !Carries(src.names, src.objects[id].kind) ==> Refs(src, id) == {}
  {
    ShallowReasons(src, s, id);
    UntangledQueryRight(src.names, s.cache, Q, src.objects[id].kind);
    VisitsCarried(src.names, |src.names|, src.objects[id].kind, src.objects[id].value);
  }

  lemma {:induction false} CopyAllCompletes(
      src: Source, rank: string -> nat, bound: nat, order: Order, Q: set<Type>, s: State, ids: seq<string>)
    requires Ranked(src, rank) && Orders(order) && (forall x :: x in ids ==> rank(x) < bound)
    requires InOrder(src, Q) && Complete(src, Q, s)
    ensures var r := CopyAll(src, rank, bound, order, s, ids);
            Complete(src, Q, r.state) && (r.ok ==> forall x :: x in ids ==> x in r.state.copied)
            && s.copied <= r.state.copied && s.destination <= r.state.destination
    decreases bound, 1 + |ids|
  {
    if ids != [] {
      var a := Copy(src, rank, order, s, ids[0]);
      CopyCompletes(src, rank, order, Q, s, ids[0]);
      CopyAllCompletes(src, rank, bound, order, Q, a.state, ids[1..]);
    }
  }

  function Cold(destination: set<string>): (s: State) {
    State(destination, {}, map[])
  }

  lemma {:induction false} CopiedClosed(src: Source, order: Order, s: State, id: string, n: string)
    requires Orders(order) && Finished(src, s) && id in s.copied && Leads(References(src, order), {}, id, n)
    ensures n in s.copied
  {
    forall a, b | a in s.copied && b in References(src, order)(a) ensures b in s.copied {
      assert b in Refs(src, a);
    }
    ClosedContains(References(src, order), s.copied, {}, id, n);
  }

  lemma {:induction false} ColdIsComplete(src: Source, Q: set<Type>, destination: set<string>)
    ensures Complete(src, Q, Cold(destination))
  {
  }

  lemma {:induction false} ScanExact(
      src: Source, rank: string -> nat, order: Order, Q: set<Type>, s: State, id: string)
    requires Ranked(src, rank) && Orders(order) && InOrder(src, Q) && Complete(src, Q, s)
    ensures var r := Copy(src, rank, order, s, id);
            && (r.ok <==> forall n :: Leads(References(src, order), {}, id, n) ==> Copyable(src, n))
            && (r.ok ==> forall n :: n in r.state.destination <==>
              n in s.destination || Leads(References(src, order), {}, id, n))
  {
    var r := Copy(src, rank, order, s, id);
    CopyGrows(src, rank, order, s, id);
    forall n ensures Reached(src, order, [id], n) <==> Leads(References(src, order), {}, id, n) { assert id in [id]; }
    if r.ok {
      CopyCompletes(src, rank, order, Q, s, id);
      forall n | Leads(References(src, order), {}, id, n) ensures Copyable(src, n) && n in r.state.destination {
        CopiedClosed(src, order, r.state, id, n);
      }
      forall n | n in r.state.destination && n !in s.destination ensures Leads(References(src, order), {}, id, n) {
        assert n in r.state.destination - s.destination && Reached(src, order, [id], n);
      }
    }
  }

  // ----- what a copy needs, by the positions of values -----

  function RootOf(src: Source, id: string): (p: Position)
    requires id in src.objects
  {
    Position(src.objects[id].kind, src.objects[id].value)
  }

  /** Some position of the object's value is a reference to `x`. */
  ghost predicate RefersTo(src: Source, id: string, x: string) {
    id in src.objects && Mentions(src.names, RootOf(src, id), x)
  }

  /** The object is `n`, or refers to it, directly or through others. */
  ghost predicate Needs(src: Source, id: string, n: string) {
    exists ids: seq<string> :: ids != [] && ids[0] == id && ids[|ids| - 1] == n
      && forall i :: 0 <= i < |ids| - 1 ==> RefersTo(src, ids[i], ids[i + 1])
  }

  /** The object is there, all names of its type are resolved, and its value has the shape of the
      type if the type carries references. */
  ghost predicate InGoodOrder(src: Source, id: string) {
    && id in src.objects && Resolvable(src.names, src.objects[id].kind)
    && (Carries(src.names, src.objects[id].kind) ==> InShape(src.names, RootOf(src, id)))
  }

  lemma {:induction false} RefersToRefs(src: Source, id: string, x: string)
    ensures RefersTo(src, id, x) <==> x in Refs(src, id)
  {
    if id in src.objects { VisitsMentioned(src.names, RootOf(src, id), x); }
  }

  lemma {:induction false} NeedsLeads(src: Source, order: Order, id: string, n: string)
    requires Orders(order)
    ensures Needs(src, id, n) <==> Leads(References(src, order), {}, id, n)
  {
    var next := References(src, order);
    forall a, b ensures RefersTo(src, a, b) <==> b in next(a) { RefersToRefs(src, a, b); }
    if Needs(src, id, n) {
      var ids: seq<string> :| ids != [] && ids[0] == id && ids[|ids| - 1] == n
        && forall i :: 0 <= i < |ids| - 1 ==> RefersTo(src, ids[i], ids[i + 1]);
      assert IsPath(next, ids) && Avoids(ids, {});
    }
    if Leads(next, {}, id, n) {
      var ids: seq<string> :| IsPath(next, ids) && ids[0] == id && ids[|ids| - 1] == n && Avoids(ids, {});
      assert forall i :: 0 <= i < |ids| - 1 ==> RefersTo(src, ids[i], ids[i + 1]);
    }
  }

  lemma {:induction false} CopyableInOrder(src: Source, id: string)
    ensures Copyable(src, id) <==> InGoodOrder(src, id)
  {
    if id in src.objects { VisitOkIffInShape(src.names, RootOf(src, id)); }
  }

  /** For untangled types: from nothing, or from whatever earlier copies have left, a copy
      succeeds iff every object that the object needs is in good order, and then the destination
      has gained exactly these objects. */
  lemma {:induction false} DeepCopyExact(
      src: Source, rank: string -> nat, order: Order, Q: set<Type>, s: State, id: string)
    requires Ranked(src, rank) && Orders(order) && InOrder(src, Q) && Complete(src, Q, s)
    ensures var r := Copy(src, rank, order, s, id);
            && (r.ok <==> forall n :: Needs(src, id, n) ==> InGoodOrder(src, n))
            && (r.ok ==> forall n :: n in r.state.destination <==> n in s.destination || Needs(src, id, n))
  {
    ScanExact(src, rank, order, Q, s, id);
    forall n ensures Needs(src, id, n) <==> Leads(References(src, order), {}, id, n) { NeedsLeads(src, order, id, n); }
    forall n ensures Copyable(src, n) <==> InGoodOrder(src, n) { CopyableInOrder(src, n); }
  }

  // ----- when something is missed -----

  lemma {:induction false} CopyOfOne(src: Source, rank: string -> nat, order: Order, s: State, x: string, y: string)
    requires Ranked(src, rank) && Orders(order) && x !in s.copied && x in src.objects && Scan(src, x).ok
    requires Refs(src, x) == {y}
    requires Shallow(src, s, x).0 == Some(true)
    ensures var c := Copy(src, rank, order, Shallow(src, s, x).1, y);
            Copy(src, rank, order, s, x) == if c.ok then Copying(true, Copied(c.state, x)) else c
  {
    var ids := order(Refs(src, x));
    assert ids[0] in ids;
    assert ids == [y];
    CopyAllOfOne(src, rank, rank(x), order, Shallow(src, s, x).1, y);
  }

  lemma {:induction false} CopyAllOfOne(src: Source, rank: string -> nat, bound: nat, order: Order, s: State, y: string)
    requires Ranked(src, rank) && Orders(order) && rank(y) < bound
    ensures CopyAll(src, rank, bound, order, s, [y]) == Copy(src, rank, order, s, y)
  {
    assert [y][1..] == [];
  }

  lemma {:induction false} CopyOfLeaf(src: Source, rank: string -> nat, order: Order, s: State, y: string)
    requires Ranked(src, rank) && Orders(order) && y !in s.copied && y in src.objects
    requires Shallow(src, s, y).0 == Some(false)
    ensures Copy(src, rank, order, s, y) == Copying(true, Copied(Shallow(src, s, y).1, y))
  {
  }

  /** For tangled types it is not: the object `x` refers to `y`, which refers to `z`, and the
      type of `y` is inside that of `x`.  The copy succeeds without `z`. */
  lemma {:induction false} DeepCopyMisses(
      src: Source, rank: string -> nat, order: Order, l: Type, x: string, y: string, z: string)
    requires Ranked(src, rank) && Orders(order) && x in src.objects && y in src.objects && x != y && z != x && z != y
    requires Tangled(src.names, l, src.objects[y].kind, src.objects[x].kind)
    requires Scan(src, x).ok && Refs(src, x) == {y} && z in Refs(src, y)
    ensures var r := Copy(src, rank, order, Cold({}), x); r.ok && r.state.destination == {x, y}
    ensures Needs(src, x, z)
  {
    TangledShallow(src, l, x, y);
    CopyOfLeaf(src, rank, order, Shallow(src, Cold({}), x).1, y);
    CopyOfOne(src, rank, order, Cold({}), x, y);
    LeadsOverTwo(src, order, x, y, z);
    NeedsLeads(src, order, x, z);
  }

  lemma {:induction false} TangledShallow(src: Source, l: Type, x: string, y: string)
    requires x in src.objects && y in src.objects && Tangled(src.names, l, src.objects[y].kind, src.objects[x].kind)
    ensures var (carries, s) := Shallow(src, Cold({}), x);
            && carries == Some(true) && s.destination == {x} && s.copied == {}
            && Shallow(src, s, y).0 == Some(false) && Shallow(src, s, y).1.destination == {x, y}
  {
    TangledQuery(src.names, l, src.objects[y].kind, src.objects[x].kind);
    CacheGoesWrong(src.names, l, src.objects[y].kind, src.objects[x].kind);
  }

  lemma {:induction false} LeadsOverTwo(src: Source, order: Order, x: string, y: string, z: string)
    requires Orders(order) && y in Refs(src, x) && z in Refs(src, y)
    ensures Leads(References(src, order), {}, x, z)
  {
    var next := References(src, order);
    LeadsToItself(next, {}, z);
    LeadsFurther(next, {}, y, z, z);
    LeadsFurther(next, {}, x, y, z);
  }

  /** Object "1" has a reference to "2", whose value is an array with a reference to "3". */
  function Example(): (src: Source) {
    Source(map[], map[
      "1" := Stored(Pair(), Map(map[Text("a") := Text("2"), Text("b") := Array([])])),
      "2" := Stored(Links(), Array([Text("3")])),
      "3" := Stored(StringType, Text("three"))])
  }

  function Level(id: string): (n: nat) {
    if id == "1" then 2 else if id == "2" then 1 else 0
  }

  lemma {:induction false} LinkVisits(hops: nat, v: Dynamic)
    requires v.Text?
    ensures Visit(map[], hops, Link(), v) == Visiting(true, {v.s})
  {
  }

  lemma {:induction false} LinksVisits(items: seq<Dynamic>)
    requires forall k :: 0 <= k < |items| ==> items[k].Text?
    ensures Visit(map[], 0, Links(), Array(items)) == Visiting(true, set k: nat | k < |items| :: items[k].s)
  {
    forall k | 0 <= k < |items| ensures Visit(map[], 0, Link(), items[k]) == Visiting(true, {items[k].s}) {
      LinkVisits(0, items[k]);
    }
  }

  lemma {:induction false} PairVisits(a: string)
    ensures Visit(map[], 0, Pair(), Map(map[Text("a") := Text(a), Text("b") := Array([])])) == Visiting(true, {a})
  {
    var v := Map(map[Text("a") := Text(a), Text("b") := Array([])]);
    LinkVisits(0, Text(a));
    LinksVisits([]);
    var fields := Pair().fields;
    assert |fields| == 2 && fields[0].name == "a" && fields[1].name == "b";
    assert Visit(map[], 0, fields[0].schema, v.entries[Text(fields[0].name)]) == Visiting(true, {a});
    assert Visit(map[], 0, fields[1].schema, v.entries[Text(fields[1].name)]) == Visiting(true, {});
    assert a in Visit(map[], 0, fields[0].schema, v.entries[Text(fields[0].name)]).refs;
  }

  lemma {:induction false} ExampleRefs()
    ensures Refs(Example(), "1") == {"2"} && Refs(Example(), "2") == {"3"} && Scan(Example(), "1").ok
    ensures forall id :: id != "1" && id != "2" ==> Refs(Example(), id) == {}
  {
    PairVisits("2");
    LinksVisits([Text("3")]);
    assert {"3"} == set k: nat | k < 1 :: [Text("3")][k].s by { assert [Text("3")][0].s == "3"; }
  }

  /** The copy of "1" succeeds and misses "3". */
  lemma {:induction false} ExampleMisses(order: Order)
    requires Orders(order)
    ensures Ranked(Example(), Level)
    ensures var r := Copy(Example(), Level, order, Cold({}), "1"); r.ok && r.state.destination == {"1", "2"}
    ensures Needs(Example(), "1", "3")
  {
    ExampleRefs();
    PairTangled(map[]);
    DeepCopyMisses(Example(), Level, order, Link(), "1", "2", "3");
  }
}
