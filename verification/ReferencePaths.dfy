/** Where the references of a value are: positions, each a type and a value, that lead from one
    to the next. */
module ReferencePaths {
  import opened Wrappers
  import opened Requests
  import opened Types
  import opened TypeGraph
  datatype Position = Position(schema: Type, value: Dynamic)

  /** Items of an array, keys and values of a map, the type behind a name, an optional value that
      is there, fields that are there, and the member of a union that the tag names. */
  ghost predicate Step(names: Names, p: Position, q: Position) {
    match p.schema
    case ArrayType(_, element) => p.value.Array? && q.schema == element && q.value in p.value.items
    case MapType(key, value) =>
      && p.value.Map?
      && ((q.schema == key && q.value in p.value.entries)
          || (q.schema == value && exists k :: k in p.value.entries && p.value.entries[k] == q.value))
    case NamedType(_, app, name) =>
      TypeName(app, name) in names && q == Position(names[TypeName(app, name)], p.value)
    case OptionalType(item) => q.schema == item && p.value == Map(map[Text("some") := q.value])
    case StructureType(fields) => exists k :: 0 <= k < |fields| && FieldStep(fields[k], p.value, q)
    case UnionType(members) =>
      exists k :: 0 <= k < |members| && FirstNamed(members, k) && MemberStep(members[k], p.value, q)
    case _ => false
  }

  ghost predicate FieldStep(f: Field, v: Dynamic, q: Position) {
    v.Map? && Text(f.name) in v.entries && q == Position(f.schema, v.entries[Text(f.name)])
  }

  ghost predicate MemberStep(m: Member, v: Dynamic, q: Position) {
    q.schema == m.schema && v == Map(map[Text(m.name) := q.value])
  }

  ghost predicate FirstNamed(members: seq<Member>, k: nat)
    requires k < |members|
  {
    forall j :: 0 <= j < k ==> members[j].name != members[k].name
  }

  /** The value has the shape that its type asks for at this position. */
  ghost predicate Shaped(names: Names, p: Position) {
    match p.schema
    case ArrayType(_, _) => p.value.Array?
    case MapType(_, _) => p.value.Map?
    case NamedType(_, app, name) => TypeName(app, name) in names
    case OptionalType(_) => exists tag, v :: p.value == Map(map[Text(tag) := v])
    case ReferenceType(_) => p.value.Text?
    case StructureType(_) => p.value.Map?
    case UnionType(members) => exists k, v :: 0 <= k < |members| && p.value == Map(map[Text(members[k].name) := v])
    case _ => true
  }

  ghost predicate IsRoute(names: Names, r: seq<Position>) {
    r != [] && forall i :: 0 <= i < |r| - 1 ==> Step(names, r[i], r[i + 1])
  }

  ghost predicate Reaches(names: Names, p: Position, q: Position) {
    exists r :: IsRoute(names, r) && r[0] == p && r[|r| - 1] == q
  }

  /** The position leads back to itself: names that stand for each other without end. */
  ghost predicate OnLoop(names: Names, p: Position) {
    exists q :: Step(names, p, q) && Reaches(names, q, p)
  }

  lemma {:induction false} ReachesSelf(names: Names, p: Position)
    ensures Reaches(names, p, p)
  {
    assert IsRoute(names, [p]);
  }

  lemma {:induction false} ReachesFurther(names: Names, p: Position, q: Position, x: Position)
    requires Step(names, p, q) && Reaches(names, q, x)
    ensures Reaches(names, p, x)
  {
    var r :| IsRoute(names, r) && r[0] == q && r[|r| - 1] == x;
    var s := [p] + r;
    forall i | 0 <= i < |s| - 1 ensures Step(names, s[i], s[i + 1]) {
      if i > 0 { assert Step(names, r[i - 1], r[i - 1 + 1]); }
    }
    assert s[|s| - 1] == x;
  }

  lemma {:induction false} FirstStep(names: Names, p: Position, x: Position) returns (q: Position)
    requires Reaches(names, p, x) && p != x
    ensures Step(names, p, q) && Reaches(names, q, x)
  {
    var r :| IsRoute(names, r) && r[0] == p && r[|r| - 1] == x;
    q := r[1];
    var s := r[1..];
    forall i | 0 <= i < |s| - 1 ensures Step(names, s[i], s[i + 1]) {
      assert Step(names, r[i + 1], r[i + 1 + 1]);
    }
    assert s[0] == q && s[|s| - 1] == x;
    assert Step(names, r[0], r[0 + 1]);
  }

  lemma {:induction false} ReachesVia(names: Names, p: Position, q: Position, x: Position)
    requires Reaches(names, p, q) && Reaches(names, q, x)
    ensures Reaches(names, p, x)
  {
    var r :| IsRoute(names, r) && r[0] == p && r[|r| - 1] == q;
    RouteVia(names, r, x);
  }

  lemma {:induction false} RouteVia(names: Names, r: seq<Position>, x: Position)
    requires IsRoute(names, r) && Reaches(names, r[|r| - 1], x)
    ensures Reaches(names, r[0], x)
    decreases |r|
  {
    if |r| > 1 {
      var s := r[1..];
      forall i | 0 <= i < |s| - 1 ensures Step(names, s[i], s[i + 1]) {
        assert Step(names, r[i + 1], r[i + 1 + 1]);
      }
      RouteVia(names, s, x);
      assert Step(names, r[0], r[0 + 1]);
      ReachesFurther(names, r[0], r[1], x);
    }
  }

  // ----- values get smaller, except at names -----

  lemma {:induction false} StepShrinks(names: Names, p: Position, q: Position)
    requires Step(names, p, q)
    ensures if p.schema.NamedType? then q.value == p.value else q.value < p.value
  {
    match p.schema
    case ArrayType(_, _) =>
      var k :| 0 <= k < |p.value.items| && p.value.items[k] == q.value;
    case MapType(_, _) =>
      if q.value !in p.value.entries { var k :| k in p.value.entries && p.value.entries[k] == q.value; }
    case OptionalType(_) => InMap(p.value.entries, Text("some"));
    case StructureType(fields) =>
      var k :| 0 <= k < |fields| && FieldStep(fields[k], p.value, q);
    case UnionType(members) =>
      var k :| 0 <= k < |members| && FirstNamed(members, k) && MemberStep(members[k], p.value, q);
      InMap(p.value.entries, Text(members[k].name));
    case _ =>
  }

  lemma {:induction false} InMap(entries: map<Dynamic, Dynamic>, k: Dynamic)
    requires k in entries
    ensures entries[k] < Map(entries)
  {
  }

  lemma {:induction false} ReachShrinks(names: Names, p: Position, q: Position)
    requires Reaches(names, p, q)
    ensures q.value == p.value || q.value < p.value
  {
    var r :| IsRoute(names, r) && r[0] == p && r[|r| - 1] == q;
    RouteShrinks(names, r, |r| - 1);
  }

  lemma {:induction false} RouteShrinks(names: Names, r: seq<Position>, i: nat)
    requires IsRoute(names, r) && i < |r|
    ensures r[i].value == r[0].value || r[i].value < r[0].value
    decreases i
  {
    if i > 0 {
      RouteShrinks(names, r, i - 1);
      assert Step(names, r[i - 1], r[i - 1 + 1]);
      StepShrinks(names, r[i - 1], r[i]);
    }
  }

  // ----- names -----

  predicate IsName(names: Names, t: Type) {
    t.NamedType? && NameOf(t) in names
  }

  /** The type that at most `hops` names stand for, if there is one. */
  function Behind(names: Names, hops: nat, t: Type): (r: Option<Type>) {
    if !IsName(names, t) then Some(t)
    else if hops == 0 then None
    else Behind(names, hops - 1, names[NameOf(t)])
  }

  lemma {:induction false} BehindIsNoName(names: Names, hops: nat, t: Type)
    ensures Behind(names, hops, t).Some? ==> !IsName(names, Behind(names, hops, t).value)
    decreases hops
  {
    if IsName(names, t) && hops > 0 { BehindIsNoName(names, hops - 1, names[NameOf(t)]); }
  }

  lemma {:induction false} NameStep(names: Names, p: Position)
    requires IsName(names, p.schema)
    ensures forall q :: Step(names, p, q) <==> q == Position(names[NameOf(p.schema)], p.value)
  {
  }

  /** The position behind the names is reached, and none of the names before it is on a loop. */
  lemma {:induction false} BehindReached(names: Names, hops: nat, p: Position)
    requires Behind(names, hops, p.schema).Some?
    ensures Reaches(names, p, Position(Behind(names, hops, p.schema).value, p.value))
    decreases hops
  {
    if IsName(names, p.schema) {
      var q := Position(names[NameOf(p.schema)], p.value);
      NameStep(names, p);
      BehindReached(names, hops - 1, q);
      ReachesFurther(names, p, q, Position(Behind(names, hops, p.schema).value, p.value));
    } else {
      ReachesSelf(names, p);
    }
  }

  /** What is reached is a name on the way, or reached from behind the names. */
  lemma {:induction false} ReachedBehind(names: Names, hops: nat, p: Position, x: Position)
    requires Behind(names, hops, p.schema).Some? && Reaches(names, p, x)
    ensures Reaches(names, Position(Behind(names, hops, p.schema).value, p.value), x)
            || (IsName(names, x.schema) && x.value == p.value && Behind(names, hops, x.schema).Some?)
    decreases hops
  {
    if IsName(names, p.schema) {
      if p != x {
        var q := FirstStep(names, p, x);
        NameStep(names, p);
        ReachedBehind(names, hops - 1, q, x);
        if IsName(names, x.schema) && Behind(names, hops - 1, x.schema).Some? {
          MoreHops(names, hops - 1, hops, x.schema);
        }
      }
    }
  }

  lemma {:induction false} MoreHops(names: Names, m: nat, n: nat, t: Type)
    requires m <= n && Behind(names, m, t).Some?
    ensures Behind(names, n, t) == Behind(names, m, t)
    decreases m
  {
    if IsName(names, t) { MoreHops(names, m - 1, n - 1, names[NameOf(t)]); }
  }

  /** The `n`-th type in a chain of names. */
  function Nth(names: Names, n: nat, t: Type): (r: Type) {
    if n == 0 || !IsName(names, t) then t else Nth(names, n - 1, names[NameOf(t)])
  }

  lemma {:induction false} NthIsName(names: Names, hops: nat, n: nat, t: Type)
    requires Behind(names, hops, t).None? && n <= hops
    ensures IsName(names, Nth(names, n, t))
    decreases n
  {
    if n > 0 { NthIsName(names, hops - 1, n - 1, names[NameOf(t)]); }
  }

  function NthName(names: Names, hops: nat, n: nat, t: Type): (r: TypeName)
    requires Behind(names, hops, t).None? && n <= hops
    ensures r in names
  {
    NthIsName(names, hops, n, t);
    NameOf(Nth(names, n, t))
  }

  lemma {:induction false} NthReached(names: Names, m: nat, n: nat, t: Type, v: Dynamic)
    requires m <= n
    ensures Reaches(names, Position(Nth(names, m, t), v), Position(Nth(names, n, t), v))
    decreases n
  {
    var p, q := Position(t, v), Position(Nth(names, n, t), v);
    if n == 0 {
      ReachesSelf(names, p);
    } else if !IsName(names, t) {
      ReachesSelf(names, p);
      NthOfNoName(names, m, t);
    } else {
      var u := names[NameOf(t)];
      NameStep(names, p);
      if m == 0 {
        NthReached(names, 0, n - 1, u, v);
        assert Nth(names, 0, u) == u && Step(names, p, Position(u, v));
        ReachesFurther(names, p, Position(u, v), q);
      } else {
        NthReached(names, m - 1, n - 1, u, v);
      }
    }
  }

  lemma {:induction false} NthOfNoName(names: Names, n: nat, t: Type)
    requires !IsName(names, t)
    ensures Nth(names, n, t) == t
  {
  }

  lemma {:induction false} NthNext(names: Names, n: nat, t: Type)
    requires IsName(names, Nth(names, n, t))
    ensures Nth(names, n + 1, t) == names[NameOf(Nth(names, n, t))]
    decreases n
  {
    if n > 0 && IsName(names, t) { NthNext(names, n - 1, names[NameOf(t)]); }
  }

  /** More elements than the set has: two are the same. */
  lemma {:induction false} Repeated<T>(s: seq<T>, U: set<T>) returns (i: nat, j: nat)
    requires |s| > |U| && forall k :: 0 <= k < |s| ==> s[k] in U
    ensures i < j < |s| && s[i] == s[j]
    decreases |s|
  {
    var last := |s| - 1;
    if k: nat :| k < last && s[k] == s[last] {
      i, j := k, last;
    } else {
      forall k | 0 <= k < last ensures s[..last][k] in U - {s[last]} {}
      i, j := Repeated(s[..last], U - {s[last]});
    }
  }

  /** A chain longer than there are names comes back to where it was. */
  lemma {:induction false} EndlessLoops(names: Names, p: Position) returns (q: Position)
    requires Behind(names, |names|, p.schema).None?
    ensures Reaches(names, p, q) && OnLoop(names, q) && q.value == p.value
  {
    var ns := seq(|names| + 1, k requires 0 <= k <= |names| => NthName(names, |names|, k, p.schema));
    var i, j := Repeated(ns, names.Keys);
    NthIsName(names, |names|, i, p.schema);
    NthIsName(names, |names|, j, p.schema);
    NthNext(names, i, p.schema);
    NthNext(names, j, p.schema);
    q := Position(Nth(names, j, p.schema), p.value);
    NthReached(names, 0, j, p.schema, p.value);
    var next := Position(Nth(names, i + 1, p.schema), p.value);
    NameStep(names, q);
    assert Step(names, q, next);
    NthReached(names, i + 1, j, p.schema, p.value);
  }

  /** On a loop there are only names, without end. */
  lemma {:induction false} LoopEndless(names: Names, p: Position, hops: nat)
    requires OnLoop(names, p)
    ensures Behind(names, hops, p.schema).None?
    decreases hops
  {
    var q :| Step(names, p, q) && Reaches(names, q, p);
    StepShrinks(names, p, q);
    ReachShrinks(names, q, p);
    NameStep(names, p);
    if hops > 0 {
      LoopTurned(names, p, q);
      LoopEndless(names, q, hops - 1);
    }
  }

  lemma {:induction false} LoopTurned(names: Names, p: Position, q: Position)
    requires Step(names, p, q) && Reaches(names, q, p)
    ensures OnLoop(names, q)
  {
    if q == p {
      assert OnLoop(names, q);
    } else {
      var x := FirstStep(names, q, p);
      ReachesSelf(names, q);
      ReachesFurther(names, p, q, q);
      ReachesVia(names, x, p, q);
    }
  }
}
