/** What the visitor of references visits, and when it fails, by the positions of the value. */
module VisitLaws {
  import opened Wrappers
  import opened Requests
  import opened Types
  import opened Paths
  import opened TypeGraph
  import opened DeepCopy
  import opened ReferencePaths

  /** Some position that is reached is a reference to `x`. */
  ghost predicate Mentions(names: Names, p: Position, x: string) {
    exists q :: Reaches(names, p, q) && IsReference(q, x)
  }

  predicate IsReference(q: Position, x: string) {
    q.schema.ReferenceType? && q.value == Text(x)
  }

  /** Every position that is reached has the shape its type asks for, and no chain of names is
      endless. */
  ghost predicate InShape(names: Names, p: Position) {
    forall q :: Reaches(names, p, q) ==> Shaped(names, q) && !OnLoop(names, q)
  }

  function VisitAt(names: Names, p: Position): (r: Visiting) {
    Visit(names, |names|, p.schema, p.value)
  }

  // ----- one position -----

  lemma {:induction false} VisitBehind(names: Names, hops: nat, t: Type, v: Dynamic)
    ensures Visit(names, hops, t, v)
            == var u := Behind(names, hops, t); if u.None? then Visiting(false, {}) else Visit(names, 0, u.value, v)
    decreases hops
  {
    if IsName(names, t) && hops > 0 { VisitBehind(names, hops - 1, names[NameOf(t)], v); }
  }

  lemma {:induction false} Tagged(v: Dynamic)
    ensures IsTagged(v) <==> exists tag, x :: v == Map(map[Text(tag) := x])
    ensures IsTagged(v) ==> v == Map(map[Text(TagOf(v)) := v.entries[Text(TagOf(v))]])
  {
    if IsTagged(v) {
      var tag := TagOf(v);
      OnlyOne(v.entries.Keys);
      assert v.entries.Keys == {Text(tag)};
      assert v.entries == map[Text(tag) := v.entries[Text(tag)]];
      assert v == Map(map[Text(tag) := v.entries[Text(tag)]]);
    }
    if tag, x :| v == Map(map[Text(tag) := x]) { TagIs(v, tag, x); }
  }

  lemma {:induction false} TagIs(v: Dynamic, tag: string, x: Dynamic)
    requires v == Map(map[Text(tag) := x])
    ensures IsTagged(v) && TagOf(v) == tag && v.entries[Text(tag)] == x
  {
    assert v.entries.Keys == {Text(tag)};
    assert |v.entries| == |v.entries.Keys|;
  }

  lemma {:induction false} MemberAtIs(members: seq<Member>, tag: string)
    ensures MemberAt(members, tag).Some? <==> exists k :: 0 <= k < |members| && members[k].name == tag
    ensures forall k :: 0 <= k < |members| && members[k].name == tag && FirstNamed(members, k) ==>
              MemberAt(members, tag) == Some(members[k].schema)
    ensures MemberAt(members, tag).Some? ==>
        exists k :: 0 <= k < |members| && members[k].name == tag && FirstNamed(members, k)
    decreases |members|
  {
    if members != [] && members[0].name != tag {
      var rest := members[1..];
      MemberAtIs(rest, tag);
      if k :| 0 <= k < |members| && members[k].name == tag { assert rest[k - 1].name == tag; }
      forall k | 0 <= k < |members| && members[k].name == tag && FirstNamed(members, k)
        ensures MemberAt(members, tag) == Some(members[k].schema)
      {
        assert rest[k - 1] == members[k];
        forall j | 0 <= j < k - 1 ensures rest[j].name != rest[k - 1].name { assert rest[j] == members[j + 1]; }
      }
      if MemberAt(members, tag).Some? {
        var k :| 0 <= k < |rest| && rest[k].name == tag && FirstNamed(rest, k);
        forall j | 0 <= j < k + 1 ensures members[j].name != members[k + 1].name {
          if j > 0 { assert rest[j - 1] == members[j]; }
        }
        assert FirstNamed(members, k + 1);
      }
    } else if members != [] {
      assert FirstNamed(members, 0);
    }
  }

  ghost predicate PartVisits(names: Names, p: Position, x: string) {
    exists q :: Step(names, p, q) && x in VisitAt(names, q).refs
  }

  ghost predicate PartsOk(names: Names, p: Position) {
    forall q :: Step(names, p, q) ==> VisitAt(names, q).ok
  }

  lemma {:induction false} OnlyPart(names: Names, p: Position, c: Position, x: string)
    requires forall q :: Step(names, p, q) <==> q == c
    ensures PartVisits(names, p, x) <==> x in VisitAt(names, c).refs
    ensures PartsOk(names, p) <==> VisitAt(names, c).ok
  {
    assert Step(names, p, c);
  }

  /** A union visits the member that its tag names. */
  lemma {:induction false} UnionParts(names: Names, p: Position, x: string)
    requires p.schema.UnionType?
    ensures x in Visit(names, 0, p.schema, p.value).refs <==> PartVisits(names, p, x)
    ensures Visit(names, 0, p.schema, p.value).ok <==> Shaped(names, p) && PartsOk(names, p)
  {
    var members, v := p.schema.members, p.value;
    Tagged(v);
    if IsTagged(v) {
      var tag := TagOf(v);
      var c := v.entries[Text(tag)];
      MemberAtIs(members, tag);
      if MemberAt(members, tag).Some? {
        var k :| 0 <= k < |members| && members[k].name == tag && FirstNamed(members, k);
        OneMember(names, p, k, tag, c);
        OnlyPart(names, p, Position(members[k].schema, c), x);
      } else {
        NoMember(names, p, tag, c);
      }
    } else {
      forall q ensures !Step(names, p, q) {}
    }
  }

  lemma {:induction false} OneMember(names: Names, p: Position, k: nat, tag: string, c: Dynamic)
    requires p.schema.UnionType? && k < |p.schema.members| && FirstNamed(p.schema.members, k)
    requires p.schema.members[k].name == tag && p.value == Map(map[Text(tag) := c])
    ensures forall q :: Step(names, p, q) <==> q == Position(p.schema.members[k].schema, c)
    ensures Shaped(names, p)
  {
    var members := p.schema.members;
    forall q ensures Step(names, p, q) <==> q == Position(members[k].schema, c) {
      if Step(names, p, q) {
        var j :| 0 <= j < |members| && FirstNamed(members, j) && MemberStep(members[j], p.value, q);
        TagIs(p.value, members[j].name, q.value);
        TagIs(p.value, tag, c);
        assert j == k;
      }
      if q == Position(members[k].schema, c) { assert MemberStep(members[k], p.value, q); }
    }
    assert p.value == Map(map[Text(members[k].name) := c]);
  }

  lemma {:induction false} NoMember(names: Names, p: Position, tag: string, c: Dynamic)
    requires p.schema.UnionType? && p.value == Map(map[Text(tag) := c])
    requires forall k :: 0 <= k < |p.schema.members| ==> p.schema.members[k].name != tag
    ensures forall q :: !Step(names, p, q)
    ensures !Shaped(names, p)
  {
    var members := p.schema.members;
    TagIs(p.value, tag, c);
    forall k, x | 0 <= k < |members| && p.value == Map(map[Text(members[k].name) := x]) ensures false {
      TagIs(p.value, members[k].name, x);
    }
  }

  /** An optional value is visited if it is there. */
  lemma {:induction false} OptionalParts(names: Names, p: Position, x: string)
    requires p.schema.OptionalType?
    ensures x in Visit(names, 0, p.schema, p.value).refs <==> PartVisits(names, p, x)
    ensures Visit(names, 0, p.schema, p.value).ok <==> Shaped(names, p) && PartsOk(names, p)
  {
    var v := p.value;
    Tagged(v);
    if IsTagged(v) && Text("some") in v.entries {
      OnlyOne(v.entries.Keys);
      assert TagOf(v) == "some";
      var c := Position(p.schema.item, v.entries[Text("some")]);
      forall q ensures Step(names, p, q) <==> q == c {
        if Step(names, p, q) { TagIs(v, "some", q.value); }
      }
      OnlyPart(names, p, c, x);
    } else {
      forall q ensures !Step(names, p, q) {
        if Step(names, p, q) { TagIs(v, "some", q.value); }
      }
    }
  }

  lemma {:induction false} FieldIsPart(names: Names, p: Position, k: nat)
    requires p.schema.StructureType? && p.value.Map? && k < |p.schema.fields|
    requires Text(p.schema.fields[k].name) in p.value.entries
    ensures var f := p.schema.fields[k]; Step(names, p, Position(f.schema, p.value.entries[Text(f.name)]))
  {
    var f := p.schema.fields[k];
    assert FieldStep(f, p.value, Position(f.schema, p.value.entries[Text(f.name)]));
  }

  lemma {:induction false} FieldRefs(names: Names, p: Position, x: string)
    requires p.schema.StructureType?
    ensures x in Visit(names, 0, p.schema, p.value).refs <==> PartVisits(names, p, x)
  {
    var fields, v := p.schema.fields, p.value;
    if PartVisits(names, p, x) {
      var q :| Step(names, p, q) && x in VisitAt(names, q).refs;
      var k :| 0 <= k < |fields| && FieldStep(fields[k], v, q);
    }
    if x in Visit(names, 0, p.schema, v).refs {
      var k: nat :| k < |fields| && Text(fields[k].name) in v.entries
        && x in Visit(names, |names|, fields[k].schema, v.entries[Text(fields[k].name)]).refs;
      FieldIsPart(names, p, k);
      assert x in VisitAt(names, Position(fields[k].schema, v.entries[Text(fields[k].name)])).refs;
    }
  }

  lemma {:induction false} FieldsOk(names: Names, p: Position)
    requires p.schema.StructureType?
    ensures Visit(names, 0, p.schema, p.value).ok <==> Shaped(names, p) && PartsOk(names, p)
  {
    var fields, v := p.schema.fields, p.value;
    if v.Map? && PartsOk(names, p) {
      forall k | 0 <= k < |fields| && Text(fields[k].name) in v.entries
        ensures Visit(names, |names|, fields[k].schema, v.entries[Text(fields[k].name)]).ok
      {
        FieldIsPart(names, p, k);
        assert VisitAt(names, Position(fields[k].schema, v.entries[Text(fields[k].name)])).ok;
      }
    }
  }

  lemma {:induction false} EntryIsPart(names: Names, p: Position, k: Dynamic)
    requires p.schema.MapType? && p.value.Map? && k in p.value.entries
    ensures Step(names, p, Position(p.schema.key, k))
    ensures Step(names, p, Position(p.schema.value, p.value.entries[k]))
  {
  }

  lemma {:induction false} MapRefs(names: Names, p: Position, x: string)
    requires p.schema.MapType?
    ensures x in Visit(names, 0, p.schema, p.value).refs <==> PartVisits(names, p, x)
  {
    var t, v := p.schema, p.value;
    if x in Visit(names, 0, t, v).refs {
      if k :| k in v.entries && x in Visit(names, |names|, t.key, k).refs {
        EntryIsPart(names, p, k);
        assert x in VisitAt(names, Position(t.key, k)).refs;
      } else {
        var k :| k in v.entries && x in Visit(names, |names|, t.value, v.entries[k]).refs;
        EntryIsPart(names, p, k);
        assert x in VisitAt(names, Position(t.value, v.entries[k])).refs;
      }
    }
  }

  lemma {:induction false} MapOk(names: Names, p: Position)
    requires p.schema.MapType?
    ensures Visit(names, 0, p.schema, p.value).ok <==> Shaped(names, p) && PartsOk(names, p)
  {
    var t, v := p.schema, p.value;
    if v.Map? && PartsOk(names, p) {
      forall k | k in v.entries
        ensures Visit(names, |names|, t.key, k).ok && Visit(names, |names|, t.value, v.entries[k]).ok
      {
        EntryIsPart(names, p, k);
        assert VisitAt(names, Position(t.key, k)).ok && VisitAt(names, Position(t.value, v.entries[k])).ok;
      }
    }
  }

  lemma {:induction false} ItemParts(names: Names, p: Position, x: string)
    requires p.schema.ArrayType?
    ensures x in Visit(names, 0, p.schema, p.value).refs <==> PartVisits(names, p, x)
    ensures Visit(names, 0, p.schema, p.value).ok <==> Shaped(names, p) && PartsOk(names, p)
  {
    var t, v := p.schema, p.value;
    if v.Array? {
      forall k | 0 <= k < |v.items| ensures Step(names, p, Position(t.element, v.items[k])) {}
      if x in Visit(names, 0, t, v).refs {
        var k: nat :| k < |v.items| && x in Visit(names, |names|, t.element, v.items[k]).refs;
        assert x in VisitAt(names, Position(t.element, v.items[k])).refs;
      }
      if PartVisits(names, p, x) {
        var q :| Step(names, p, q) && x in VisitAt(names, q).refs;
        var k :| 0 <= k < |v.items| && v.items[k] == q.value;
      }
      if PartsOk(names, p) {
        forall k | 0 <= k < |v.items| ensures Visit(names, |names|, t.element, v.items[k]).ok {
          assert VisitAt(names, Position(t.element, v.items[k])).ok;
        }
      }
    }
  }

  /** Behind its names, a position visits what its parts visit, and itself if it is a reference. */
  lemma {:induction false} PositionVisits(names: Names, p: Position, x: string)
    requires !IsName(names, p.schema)
    ensures x in Visit(names, 0, p.schema, p.value).refs <==> IsReference(p, x) || PartVisits(names, p, x)
    ensures Visit(names, 0, p.schema, p.value).ok <==> Shaped(names, p) && PartsOk(names, p)
  {
    var t := p.schema;
    if t.ArrayType? {
      ItemParts(names, p, x);
    } else if t.MapType? {
      MapRefs(names, p, x);
      MapOk(names, p);
    } else if t.OptionalType? {
      OptionalParts(names, p, x);
    } else if t.StructureType? {
      FieldRefs(names, p, x);
      FieldsOk(names, p);
    } else if t.UnionType? {
      UnionParts(names, p, x);
    } else {
      forall q ensures !Step(names, p, q) {}
    }
  }

  // ----- endless names -----

  ghost predicate Endless(names: Names, t: Type) {
    forall hops: nat :: Behind(names, hops, t).None?
  }

  lemma {:induction false} AlwaysEndless(names: Names, p: Position, hops: nat)
    requires Behind(names, |names|, p.schema).None?
    ensures Behind(names, hops, p.schema).None?
  {
    var q := EndlessLoops(names, p);
    LoopEndless(names, q, hops);
    if Behind(names, hops, p.schema).Some? {
      var u := Behind(names, hops, p.schema).value;
      var b := Position(u, p.value);
      BehindIsNoName(names, hops, p.schema);
      ReachedBehind(names, hops, p, q);
      LoopEndless(names, q, 0);
      StaysSmaller(names, b, q);
    }
  }

  /** From behind the names only smaller values are reached. */
  lemma {:induction false} StaysSmaller(names: Names, b: Position, q: Position)
    requires !IsName(names, b.schema)
    ensures Reaches(names, b, q) && q != b ==> q.value < b.value
  {
    if Reaches(names, b, q) && q != b {
      var c := FirstStep(names, b, q);
      StepShrinks(names, b, c);
      ReachShrinks(names, c, q);
    }
  }

  lemma {:induction false} EndlessReaches(names: Names, r: seq<Position>, i: nat)
    requires IsRoute(names, r) && Endless(names, r[0].schema) && i < |r|
    ensures Endless(names, r[i].schema)
    decreases i
  {
    if i > 0 {
      EndlessReaches(names, r, i - 1);
      var p := r[i - 1];
      assert Step(names, p, r[i - 1 + 1]);
      assert Behind(names, 0, p.schema).None?;
      NameStep(names, p);
      forall hops: nat ensures Behind(names, hops, r[i].schema).None? {
        assert Behind(names, hops + 1, p.schema).None?;
      }
    }
  }

  lemma {:induction false} EndlessVisit(names: Names, p: Position, x: string)
    requires Behind(names, |names|, p.schema).None?
    ensures VisitAt(names, p) == Visiting(false, {}) && !Mentions(names, p, x) && !InShape(names, p)
  {
    VisitBehind(names, |names|, p.schema, p.value);
    var l := EndlessLoops(names, p);
    forall hops: nat ensures Behind(names, hops, p.schema).None? { AlwaysEndless(names, p, hops); }
    forall q | Reaches(names, p, q) ensures !IsReference(q, x) {
      var r :| IsRoute(names, r) && r[0] == p && r[|r| - 1] == q;
      EndlessReaches(names, r, |r| - 1);
      assert Behind(names, 0, q.schema).None?;
    }
  }

  // ----- everything that is reached -----

  /** The visitor is called with exactly the references that are reached. */
  lemma {:induction false} VisitsMentioned(names: Names, p: Position, x: string)
    ensures x in VisitAt(names, p).refs <==> Mentions(names, p, x)
    decreases p.value
  {
    var u := Behind(names, |names|, p.schema);
    if u.None? {
      EndlessVisit(names, p, x);
    } else {
      var b := Position(u.value, p.value);
      VisitBehind(names, |names|, p.schema, p.value);
      BehindIsNoName(names, |names|, p.schema);
      BehindReached(names, |names|, p);
      PositionVisits(names, b, x);
      if PartVisits(names, b, x) {
        var c :| Step(names, b, c) && x in VisitAt(names, c).refs;
        StepShrinks(names, b, c);
        VisitsMentioned(names, c, x);
        var q :| Reaches(names, c, q) && IsReference(q, x);
        ReachesFurther(names, b, c, q);
        ReachesVia(names, p, b, q);
      }
      if Mentions(names, p, x) {
        var q :| Reaches(names, p, q) && IsReference(q, x);
        ReachedBehind(names, |names|, p, q);
        if q != b {
          var c := FirstStep(names, b, q);
          StepShrinks(names, b, c);
          VisitsMentioned(names, c, x);
          assert PartVisits(names, b, x);
        }
      }
    }
  }

  /** The visit succeeds iff every position that is reached has its shape. */
  lemma {:induction false} VisitOkIffInShape(names: Names, p: Position)
    ensures VisitAt(names, p).ok <==> InShape(names, p)
    decreases p.value
  {
    var u := Behind(names, |names|, p.schema);
    if u.None? {
      EndlessVisit(names, p, "");
    } else {
      var b := Position(u.value, p.value);
      VisitBehind(names, |names|, p.schema, p.value);
      BehindIsNoName(names, |names|, p.schema);
      BehindReached(names, |names|, p);
      PositionVisits(names, b, "");
      forall c | Step(names, b, c) ensures VisitAt(names, c).ok <==> InShape(names, c) {
        StepShrinks(names, b, c);
        VisitOkIffInShape(names, c);
      }
      if InShape(names, p) { ShapeOfParts(names, p, b); }
      if VisitAt(names, p).ok { ShapeFromParts(names, p, b); }
    }
  }

  lemma {:induction false} ShapeOfParts(names: Names, p: Position, b: Position)
    requires Reaches(names, p, b) && InShape(names, p)
    ensures Shaped(names, b) && forall c :: Step(names, b, c) ==> InShape(names, c)
  {
    forall c, q | Step(names, b, c) && Reaches(names, c, q) ensures Shaped(names, q) && !OnLoop(names, q) {
      ReachesFurther(names, b, c, q);
      ReachesVia(names, p, b, q);
    }
  }

  lemma {:induction false} ShapeFromParts(names: Names, p: Position, b: Position)
    requires Behind(names, |names|, p.schema).Some? && b == Position(Behind(names, |names|, p.schema).value, p.value)
    requires !IsName(names, b.schema) && Shaped(names, b) && forall c :: Step(names, b, c) ==> InShape(names, c)
    ensures InShape(names, p)
  {
    forall q | Reaches(names, p, q) ensures Shaped(names, q) && !OnLoop(names, q) {
      ReachedBehind(names, |names|, p, q);
      if Reaches(names, b, q) {
        if q != b { var c := FirstStep(names, b, q); }
      } else if OnLoop(names, q) {
        LoopEndless(names, q, |names|);
      }
    }
  }

  // ----- types that carry references -----

  /** Every union that is inside the type has members of different names. */
  ghost predicate ProperUnions(names: Names, t: Type) {
    forall u :: Leads(Next(names), {}, t, u) && u.UnionType? ==>
      forall j, k :: 0 <= j < k < |u.members| ==> u.members[j].name != u.members[k].name
  }

  /** A value of the type, from a value of one of its parts. */
  lemma {:induction false} ValueAround(names: Names, t: Type, u: Type, v: Dynamic) returns (w: Dynamic)
    requires u in Successors(names, t)
    requires t.UnionType? ==> forall j, k :: 0 <= j < k < |t.members| ==> t.members[j].name != t.members[k].name
    ensures Step(names, Position(t, w), Position(u, v))
  {
    var q := Position(u, v);
    match t
    case ArrayType(_, _) =>
      w := Array([v]);
    case MapType(key, _) =>
      if u == key { w := Map(map[v := Nil]); } else { w := Map(map[Nil := v]); }
      assert w.entries[if u == key then v else Nil] == if u == key then Nil else v;
    case OptionalType(_) =>
      w := Map(map[Text("some") := v]);
    case StructureType(fields) =>
      var k :| 0 <= k < |fields| && fields[k].schema == u;
      w := Map(map[Text(fields[k].name) := v]);
      assert FieldStep(fields[k], w, q);
    case UnionType(members) =>
      var k :| 0 <= k < |members| && members[k].schema == u;
      w := Map(map[Text(members[k].name) := v]);
      assert FirstNamed(members, k) && MemberStep(members[k], w, q);
    case _ =>
      w := v;
  }

  lemma {:induction false} ValueAlong(names: Names, path: seq<Type>, i: nat, x: string) returns (v: Dynamic)
    requires IsPath(Next(names), path) && i < |path| && path[|path| - 1].ReferenceType? && ProperUnions(names, path[0])
    ensures Mentions(names, Position(path[i], v), x)
    decreases |path| - i
  {
    var last := |path| - 1;
    if i == last {
      v := Text(x);
      ReachesSelf(names, Position(path[i], v));
      assert IsReference(Position(path[i], v), x);
    } else {
      var u := ValueAlong(names, path, i + 1, x);
      assert path[i + 1] in Next(names)(path[i]);
      PrefixLeads(names, path, i);
      v := ValueAround(names, path[i], path[i + 1], u);
      var q :| Reaches(names, Position(path[i + 1], u), q) && IsReference(q, x);
      ReachesFurther(names, Position(path[i], v), Position(path[i + 1], u), q);
    }
  }

  lemma {:induction false} PrefixLeads(names: Names, path: seq<Type>, i: nat)
    requires IsPath(Next(names), path) && i < |path|
    ensures Leads(Next(names), {}, path[0], path[i])
  {
    assert IsPath(Next(names), path[..i + 1]);
  }

  /** A type carries references iff some value of it mentions one. */
  lemma {:induction false} CarriesIffMentioned(names: Names, t: Type)
    requires ProperUnions(names, t)
    ensures Carries(names, t) <==> exists v, x :: Mentions(names, Position(t, v), x)
  {
    if Carries(names, t) {
      var n :| Leads(Next(names), {}, t, n) && n.ReferenceType?;
      var path: seq<Type> :| IsPath(Next(names), path) && path[0] == t && path[|path| - 1] == n && Avoids(path, {});
      var v := ValueAlong(names, path, 0, "");
    }
    if v, x :| Mentions(names, Position(t, v), x) {
      VisitsMentioned(names, Position(t, v), x);
      VisitsCarried(names, |names|, t, v);
    }
  }
}
