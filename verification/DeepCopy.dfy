/** Copying an object with all the objects it refers to, from one bucket to another. */
module DeepCopy {
  import opened Wrappers
  import opened Requests
  import opened Types
  import opened Paths
  import opened TypeGraph
  import opened TypeCache

  datatype Stored = Stored(kind: Type, value: Dynamic)

  /** The context that objects are copied from. */
  datatype Source = Source(names: Names, objects: map<string, Stored>)

  // ----- the references in a value -----

  /** The references that the visitor is called with.  A position that does not have the shape
      its type asks for makes the visit fail, but the other positions are still visited. */
  datatype Visiting = Visiting(ok: bool, refs: set<string>)

  function MemberAt(members: seq<Member>, tag: string): (r: Option<Type>)
    ensures r.Some? ==> exists k :: 0 <= k < |members| && members[k].schema == r.value
  {
    if members == [] then None
    else if members[0].name == tag then Some(members[0].schema)
    else
      assert forall k :: 0 <= k < |members[1..]| ==> members[1..][k] == members[k + 1];
      MemberAt(members[1..], tag)
  }

  /** `hops` bounds the names that are followed without entering the value: a longer chain
      than there are names never ends, and so never succeeds. */
  function Visit(names: Names, hops: nat, t: Type, v: Dynamic): (r: Visiting)
    decreases v, hops
  {
    if t.ArrayType? then
      if !v.Array? then Visiting(false, {})
      else Visiting(
        forall k :: 0 <= k < |v.items| ==> Visit(names, |names|, t.element, v.items[k]).ok,
        set k: nat, x | k < |v.items| && x in Visit(names, |names|, t.element, v.items[k]).refs :: x)
    else if t.MapType? then
      if !v.Map? then Visiting(false, {})
      else Visiting(
        forall k :: k in v.entries ==>
            Visit(names, |names|, t.key, k).ok && Visit(names, |names|, t.value, v.entries[k]).ok,
        (set k, x | k in v.entries && x in Visit(names, |names|, t.key, k).refs :: x)
        + (set k, x | k in v.entries && x in Visit(names, |names|, t.value, v.entries[k]).refs :: x))
    else if t.NamedType? then
      if Unresolved(names, t) || hops == 0 then Visiting(false, {})
      else Visit(names, hops - 1, names[NameOf(t)], v)
    else if t.OptionalType? then
      if !IsTagged(v) then Visiting(false, {})
      else if Text("some") in v.entries then Visit(names, |names|, t.item, v.entries[Text("some")])
      else Visiting(true, {})
    else if t.ReferenceType? then
      if v.Text? then Visiting(true, {v.s}) else Visiting(false, {})
    else if t.StructureType? then
      if !v.Map? then Visiting(false, {})
      else Visiting(
        forall k :: 0 <= k < |t.fields| && Text(t.fields[k].name) in v.entries ==>
          Visit(names, |names|, t.fields[k].schema, v.entries[Text(t.fields[k].name)]).ok,
        set k: nat, x | k < |t.fields| && Text(t.fields[k].name) in v.entries
          && x in Visit(names, |names|, t.fields[k].schema, v.entries[Text(t.fields[k].name)]).refs :: x)
    else if t.UnionType? then
      if !IsTagged(v) then Visiting(false, {})
      else
        var tag := TagOf(v);
        var schema := MemberAt(t.members, tag);
        if schema.None? then Visiting(false, {}) else Visit(names, |names|, schema.value, v.entries[Text(tag)])
    else Visiting(true, {})
  }

  /** A map with one entry, whose key is a string. */
  predicate IsTagged(v: Dynamic) {
    v.Map? && |v.entries| == 1 && forall k :: k in v.entries ==> k.Text?
  }

  function TagOf(v: Dynamic): (tag: string)
    requires IsTagged(v)
    ensures Text(tag) in v.entries
  {
    var keys := v.entries.Keys;
    assert keys != {};
    OnlyOne(keys);
    var k :| k in keys;
    k.s
  }

  lemma {:induction false} OnlyOne<T>(s: set<T>)
    requires |s| == 1
    ensures forall x, y :: x in s && y in s ==> x == y
  {
    var x :| x in s;
    assert |s - {x}| == 0;
    assert s == {x} + (s - {x}) == {x};
  }

  /** Wherever a reference is visited, its type carries references. */
  lemma {:induction false} VisitsCarried(names: Names, hops: nat, t: Type, v: Dynamic)
    ensures Visit(names, hops, t, v).refs != {} ==> Carries(names, t)
    decreases v, hops, 2
  {
    if Visit(names, hops, t, v).refs != {} {
      var x :| x in Visit(names, hops, t, v).refs;
      if t.ReferenceType? {
        ReferenceCarries(names, t);
      } else {
        var n := VisitedPart(names, hops, t, v, x);
        Inside(names, t, n);
      }
    }
  }

  lemma {:induction false} Inside(names: Names, t: Type, n: Type)
    requires n in Successors(names, t) && Carries(names, n)
    ensures Carries(names, t)
  {
    LeadsToItself(Next(names), {}, n);
    LeadsFurther(Next(names), {}, t, n, n);
    CarriesVia(names, t, n);
  }

  lemma {:induction false} VisitedPart(names: Names, hops: nat, t: Type, v: Dynamic, x: string) returns (n: Type)
    requires x in Visit(names, hops, t, v).refs && !t.ReferenceType?
    ensures n in Successors(names, t) && Carries(names, n)
    decreases v, hops, 1
  {
    if t.MapType? {
      n := VisitedInMap(names, t, v, x);
    } else if t.NamedType? {
      n := names[NameOf(t)];
      VisitsCarried(names, hops - 1, n, v);
    } else if t.StructureType? {
      n := VisitedField(names, t, v, x);
    } else if t.UnionType? {
      n := VisitedMember(names, t, v, x);
    } else {
      n := VisitedItem(names, t, v, x);
    }
  }

  lemma {:induction false} VisitedItem(names: Names, t: Type, v: Dynamic, x: string) returns (n: Type)
    requires x in Visit(names, 0, t, v).refs && (t.ArrayType? || t.OptionalType?)
    ensures n in Successors(names, t) && Carries(names, n)
    decreases v, 0, 0
  {
    if t.ArrayType? {
      var k: nat :| k < |v.items| && x in Visit(names, |names|, t.element, v.items[k]).refs;
      n := t.element;
      VisitsCarried(names, |names|, n, v.items[k]);
    } else {
      n := t.item;
      VisitsCarried(names, |names|, n, v.entries[Text("some")]);
    }
    assert Parts(t)[0] == n;
  }

  lemma {:induction false} VisitedMember(names: Names, t: Type, v: Dynamic, x: string) returns (n: Type)
    requires t.UnionType? && x in Visit(names, 0, t, v).refs
    ensures n in Successors(names, t) && Carries(names, n)
    decreases v, 0, 0
  {
    n := MemberAt(t.members, TagOf(v)).value;
    VisitsCarried(names, |names|, n, v.entries[Text(TagOf(v))]);
    var k :| 0 <= k < |t.members| && t.members[k].schema == n;
    assert Parts(t)[k] == n;
  }

  lemma {:induction false} VisitedInMap(names: Names, t: Type, v: Dynamic, x: string) returns (n: Type)
    requires t.MapType? && x in Visit(names, 0, t, v).refs
    ensures n in Successors(names, t) && Carries(names, n)
    decreases v, 0, 0
  {
    assert Parts(t)[0] == t.key && Parts(t)[1] == t.value;
    if k :| k in v.entries && x in Visit(names, |names|, t.key, k).refs {
      n := t.key;
      VisitsCarried(names, |names|, n, k);
    } else {
      var k :| k in v.entries && x in Visit(names, |names|, t.value, v.entries[k]).refs;
      n := t.value;
      VisitsCarried(names, |names|, n, v.entries[k]);
    }
  }

  lemma {:induction false} VisitedField(names: Names, t: Type, v: Dynamic, x: string) returns (n: Type)
    requires t.StructureType? && x in Visit(names, 0, t, v).refs
    ensures n in Successors(names, t) && Carries(names, n)
    decreases v, 0, 0
  {
    var k: nat :| k < |t.fields| && Text(t.fields[k].name) in v.entries
      && x in Visit(names, |names|, t.fields[k].schema, v.entries[Text(t.fields[k].name)]).refs;
    n := t.fields[k].schema;
    VisitsCarried(names, |names|, n, v.entries[Text(t.fields[k].name)]);
    assert Parts(t)[k] == n;
  }
}
