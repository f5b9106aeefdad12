/** Parsing URL types, and what printing and parsing lose. */
module UrlParsing {
  import opened Wrappers
  import opened TextOrder
  import opened Types
  import opened UrlSyntax
  import opened UrlTypes

  datatype Entry = Entry(name: string, schema: Type)

  // ----- ordered maps -----

  /** Assigns to a map in key order. */
  function Assign(es: seq<Entry>, e: Entry): (r: seq<Entry>) {
    if es == [] || Less(e.name, es[0].name) then [e] + es
    else if es[0].name == e.name then [e] + es[1..]
    else [es[0]] + Assign(es[1..], e)
  }

  function AssignName(names: seq<string>, name: string): (r: seq<string>) {
    if names == [] || Less(name, names[0]) then [name] + names
    else if names[0] == name then names
    else [names[0]] + AssignName(names[1..], name)
  }

  lemma {:induction false} AssignLast(es: seq<Entry>, e: Entry)
    requires forall k :: 0 <= k < |es| ==> Less(es[k].name, e.name)
    ensures Assign(es, e) == es + [e]
    decreases |es|
  {
    if es != [] {
      NotLessBack(es[0].name, e.name);
      AssignLast(es[1..], e);
      assert es + [e] == [es[0]] + (es[1..] + [e]);
    }
  }

  lemma {:induction false} AssignNameLast(names: seq<string>, name: string)
    requires forall k :: 0 <= k < |names| ==> Less(names[k], name)
    ensures AssignName(names, name) == names + [name]
    decreases |names|
  {
    if names != [] {
      NotLessBack(names[0], name);
      AssignNameLast(names[1..], name);
      assert names + [name] == [names[0]] + (names[1..] + [name]);
    }
  }

  lemma {:induction false} NotLessBack(a: string, b: string)
    requires Less(a, b)
    ensures !Less(b, a) && a != b
  {
    LessIrreflexive(a);
    if Less(b, a) { LessTransitive(a, b, a); }
  }

  // ----- parsing -----

  type Parsed<T> = Option<(T, seq<string>)>

  function Simple(k: Kind): (r: Option<Type>) {
    if k.BLOB? then Some(BlobType) else if k.BOOLEAN? then Some(BooleanType) else if k.DATETIME? then Some(DatetimeType)
    else if k.DYNAMIC? then Some(DynamicType) else if k.FLOAT? then Some(FloatType)
    else if k.INTEGER? then Some(IntegerType)
    else if k.NIL? then Some(NilType) else if k.STRING? then Some(StringType) else None
  }

  function Structured(k: Kind, es: seq<Entry>): (r: Type) {
    if k.STRUCTURE? then StructureType(seq(|es|, i requires 0 <= i < |es| => Field(es[i].name, "", None, es[i].schema)))
    else UnionType(seq(|es|, i requires 0 <= i < |es| => Member(es[i].name, "", es[i].schema)))
  }

  function Enumeration(names: seq<string>): (r: Type) {
    EnumType(seq(|names|, i requires 0 <= i < |names| => (names[i], "")))
  }

  function Wrapped(k: Kind, t: Type): (r: Type) {
    if k.ARRAY? then ArrayType(None, t) else if k.OPTIONAL? then OptionalType(t) else ReferenceType(t)
  }

  /** A type and the components after it; no result stands for an exception. */
  function Parse(v: Vocabulary, ts: seq<string>): (r: Parsed<Type>)
    ensures r.Some? ==> |r.value.1| < |ts|
    decreases |ts|, 0
  {
    if ts == [] || v.kind(ts[0]).None? then None else ParseKind(v, v.kind(ts[0]).value, ts[1..])
  }

  /** The components after the type code. */
  function ParseKind(v: Vocabulary, k: Kind, ts: seq<string>): (r: Parsed<Type>)
    ensures r.Some? ==> |r.value.1| <= |ts|
    decreases |ts|, 1
  {
    if Simple(k).Some? then Some((Simple(k).value, ts))
    else if k.NAMED? then
      if |ts| < 3 then None else Some((NamedType(Some(ts[0]), ts[1], ts[2]), ts[3..]))
    else if k.MAP? then
      var key := Parse(v, ts);
      if key.None? then None
      else
        var value := Parse(v, key.value.1);
        if value.None? then None else Some((MapType(key.value.0, value.value.0), value.value.1))
    else if k.ARRAY? || k.OPTIONAL? || k.REFERENCE? then
      var t := Parse(v, ts);
      if t.None? then None else Some((Wrapped(k, t.value.0), t.value.1))
    else if ts == [] || ToCount(ts[0]).None? then None
    else if k.ENUM? then
      var names := ParseNames(ToCount(ts[0]).value, ts[1..], []);
      if names.None? then None else Some((Enumeration(names.value.0), names.value.1))
    else
      var es := ParseEntries(v, ToCount(ts[0]).value, ts[1..], []);
      if es.None? then None else Some((Structured(k, es.value.0), es.value.1))
  }

  function ParseNames(n: nat, ts: seq<string>, names: seq<string>): (r: Parsed<seq<string>>)
    ensures r.Some? ==> |r.value.1| <= |ts|
    decreases n
  {
    if n == 0 then Some((names, ts))
    else if ts == [] then None
    else ParseNames(n - 1, ts[1..], AssignName(names, ts[0]))
  }

  function ParseEntries(v: Vocabulary, n: nat, ts: seq<string>, es: seq<Entry>): (r: Parsed<seq<Entry>>)
    ensures r.Some? ==> |r.value.1| <= |ts|
    decreases |ts|, 2 + n
  {
    if n == 0 then Some((es, ts))
    else if ts == [] then None
    else
      var t := Parse(v, ts[1..]);
      if t.None? then None else ParseEntries(v, n - 1, t.value.1, Assign(es, Entry(ts[0], t.value.0)))
  }

  function ParseString(v: Vocabulary, s: string): (r: Option<Type>) {
    var t := Parse(v, Split(s));
    if t.None? || t.value.1 != [] then None else Some(t.value.0)
  }

  // ----- what is lost -----

  function Entries(t: Type): (r: seq<Entry>)
    requires t.StructureType? || t.UnionType?
    ensures |r| == |Inner(t)| && forall k :: 0 <= k < |r| ==> r[k] == Entry(Labels(t)[k], Inner(t)[k])
  {
    seq(|Inner(t)|, k requires 0 <= k < |Inner(t)| => Entry(Labels(t)[k], Inner(t)[k]))
  }

  /** The type without array sizes, descriptions and omissible flags; a missing account is the
      placeholder. */
  function Erased(v: Vocabulary, t: Type): (r: Type)
    decreases t, 1, 0
  {
    if t.NamedType? then NamedType(Some(AccountOr(t.account, v.hole)), t.app, t.name)
    else if t.EnumType? then Enumeration(EnumNames(t.values))
    else if t.StructureType? || t.UnionType? then Structured(KindOf(t), ErasedEntries(v, t, Entries(t)))
    else if t.MapType? then MapType(Erased(v, t.key), Erased(v, t.value))
    else if t.ArrayType? || t.OptionalType? || t.ReferenceType? then
      Wrapped(KindOf(t), Erased(v, if t.ArrayType? then t.element else if t.OptionalType? then t.item else t.target))
    else t
  }

  function ErasedEntries(v: Vocabulary, ghost owner: Type, es: seq<Entry>): (r: seq<Entry>)
    requires forall k :: 0 <= k < |es| ==> es[k].schema < owner
    ensures |r| == |es| && forall k :: 0 <= k < |r| ==> r[k].name == es[k].name
    decreases owner, 0, |es|
  {
    if es == [] then []
    else [Entry(es[0].name, Erased(v, es[0].schema))] + ErasedEntries(v, owner, es[1..])
  }

  /** Maps are in key order and countable, as they are in the program. */
  ghost predicate Ordered(t: Type)
    decreases t
  {
    && (t.EnumType? ==> Ascending(EnumNames(t.values)) && |t.values| < 0x1_0000_0000_0000_0000)
    && (t.StructureType? || t.UnionType? ==> Ascending(Labels(t)) && |Inner(t)| < 0x1_0000_0000_0000_0000)
    && forall k :: 0 <= k < |Inner(t)| ==> Ordered(Inner(t)[k])
  }

  // ----- parsing what was printed -----

  lemma {:induction false} CountBack(n: nat)
    requires n < 0x1_0000_0000_0000_0000
    ensures ToCount(Decimal(n)) == Some(n)
  {
    DecimalRoundTrip(n);
  }

  lemma {:induction false} ParseNamesBack(names: seq<string>, before: seq<string>, rest: seq<string>)
    requires Ascending(before + names)
    ensures ParseNames(|names|, names + rest, before) == Some((before + names, rest))
    decreases |names|
  {
    if names == [] {
      assert names + rest == rest && before + names == before;
    } else {
      forall k | 0 <= k < |before| ensures Less(before[k], names[0]) {
        assert Less((before + names)[k], (before + names)[|before|]);
      }
      AssignNameLast(before, names[0]);
      assert (names + rest)[1..] == names[1..] + rest;
      assert before + [names[0]] + names[1..] == before + names;
      ParseNamesBack(names[1..], before + [names[0]], rest);
    }
  }

  function EntryNames(es: seq<Entry>): (r: seq<string>)
    ensures |r| == |es|
  {
    seq(|es|, k requires 0 <= k < |es| => es[k].name)
  }

  function Schemas(es: seq<Entry>): (r: seq<Type>)
    ensures |r| == |es|
  {
    seq(|es|, k requires 0 <= k < |es| => es[k].schema)
  }

  lemma {:induction false} ParseEntriesBack(
      v: Vocabulary, owner: Type, es: seq<Entry>, before: seq<Entry>, rest: seq<string>)
    requires Coherent(v) && forall k :: 0 <= k < |es| ==> es[k].schema < owner && Ordered(es[k].schema)
    requires Ascending(EntryNames(before) + EntryNames(es))
    ensures ParseEntries(v, |es|, Labeled(v, owner, EntryNames(es), Schemas(es)) + rest, before)
            == Some((before + ErasedEntries(v, owner, es), rest))
    decreases owner, 0, |es|
  {
    if es == [] {
      assert [] + rest == rest && before + [] == before;
    } else {
      var e := Entry(es[0].name, Erased(v, es[0].schema));
      var later := Labeled(v, owner, EntryNames(es[1..]), Schemas(es[1..]));
      assert EntryNames(es)[1..] == EntryNames(es[1..]) && Schemas(es)[1..] == Schemas(es[1..]);
      AppendEntry(before, e, es);
      ParseBack(v, es[0].schema, later + rest);
      ParseEntriesBack(v, owner, es[1..], before + [e], rest);
      OneEntry(v, |es|, es[0].name, Tokens(v, es[0].schema), later, rest, before, e);
      ErasedStep(before, e, ErasedEntries(v, owner, es[1..]));
    }
  }

  lemma {:induction false} ErasedStep(before: seq<Entry>, e: Entry, later: seq<Entry>)
    ensures before + [e] + later == before + ([e] + later)
  {
  }

  lemma {:induction false} OneEntry(
      v: Vocabulary, n: nat, name: string, tokens: seq<string>, later: seq<string>, rest: seq<string>,
      before: seq<Entry>, e: Entry)
    requires n > 0 && e.name == name && Parse(v, tokens + (later + rest)) == Some((e.schema, later + rest))
    requires Assign(before, e) == before + [e]
    ensures ParseEntries(v, n, [name] + tokens + later + rest, before)
        == ParseEntries(v, n - 1, later + rest, before + [e])
  {
    LabeledStep(name, tokens, later, rest);
  }

  lemma {:induction false} LabeledStep(name: string, tokens: seq<string>, later: seq<string>, rest: seq<string>)
    ensures var ts := [name] + tokens + later + rest; ts[0] == name && ts[1..] == tokens + (later + rest)
  {
  }

  lemma {:induction false} AppendEntry(before: seq<Entry>, e: Entry, es: seq<Entry>)
    requires es != [] && e.name == es[0].name && Ascending(EntryNames(before) + EntryNames(es))
    ensures Assign(before, e) == before + [e]
    ensures EntryNames(before + [e]) + EntryNames(es[1..]) == EntryNames(before) + EntryNames(es)
  {
    var names := EntryNames(before) + EntryNames(es);
    assert forall k :: 0 <= k < |before| ==> names[k] == before[k].name && Less(names[k], names[|before|]);
    AssignLast(before, e);
  }

  /** Parsing the components of a type consumes exactly them, and gives the type without what
      printing loses. */
  lemma {:induction false} ParseBack(v: Vocabulary, t: Type, rest: seq<string>)
    requires Coherent(v) && Ordered(t)
    ensures Parse(v, Tokens(v, t) + rest) == Some((Erased(v, t), rest))
    decreases t, 1, 0
  {
    BodyBack(v, t, rest);
    ParseWord(v, KindOf(t), Body(v, t), rest);
  }

  lemma {:induction false} ParseWord(v: Vocabulary, k: Kind, body: seq<string>, rest: seq<string>)
    requires Coherent(v)
    ensures Parse(v, [v.word(k)] + body + rest) == ParseKind(v, k, body + rest)
  {
    var ts := [v.word(k)] + body + rest;
    assert ts[0] == v.word(k) && ts[1..] == body + rest;
  }

  lemma {:induction false} BodyBack(v: Vocabulary, t: Type, rest: seq<string>)
    requires Coherent(v) && Ordered(t)
    ensures ParseKind(v, KindOf(t), Body(v, t) + rest) == Some((Erased(v, t), rest))
    decreases t, 0, |Inner(t)| + 3
  {
    if t.NamedType? {
      NamedBack(v, t, rest);
    } else if t.EnumType? {
      EnumBack(v, t, rest);
    } else if t.StructureType? || t.UnionType? {
      StructuredBack(v, t, rest);
    } else if t.MapType? {
      MapBack(v, t, rest);
    } else if t.ArrayType? || t.OptionalType? || t.ReferenceType? {
      WrappedBack(v, t, rest);
    } else {
      assert [] + rest == rest;
    }
  }

  lemma {:induction false} NamedBack(v: Vocabulary, t: Type, rest: seq<string>)
    requires t.NamedType?
    ensures ParseKind(v, NAMED, Body(v, t) + rest) == Some((Erased(v, t), rest))
  {
    var body := [AccountOr(t.account, v.hole), t.app, t.name];
    assert (body + rest)[3..] == rest;
  }

  lemma {:induction false} OneTokens(v: Vocabulary, owner: Type, a: Type)
    requires a < owner
    ensures AllTokens(v, owner, [a]) == Tokens(v, a)
  {
    assert [a][1..] == [] && Tokens(v, a) + [] == Tokens(v, a);
  }

  lemma {:induction false} TwoTokens(v: Vocabulary, owner: Type, a: Type, b: Type)
    requires a < owner && b < owner
    ensures AllTokens(v, owner, [a, b]) == Tokens(v, a) + Tokens(v, b)
  {
    OneTokens(v, owner, b);
    assert [a, b][1..] == [b];
  }

  function Part(t: Type): (r: Type)
    requires t.ArrayType? || t.OptionalType? || t.ReferenceType?
    ensures r < t
  {
    if t.ArrayType? then t.element else if t.OptionalType? then t.item else t.target
  }

  lemma {:induction false} WrappedBody(v: Vocabulary, t: Type)
    requires t.ArrayType? || t.OptionalType? || t.ReferenceType?
    ensures Body(v, t) == Tokens(v, Part(t)) && Erased(v, t) == Wrapped(KindOf(t), Erased(v, Part(t)))
    ensures Ordered(t) ==> Ordered(Part(t))
  {
    assert Inner(t)[0] == Part(t);
    OneTokens(v, t, Part(t));
  }

  lemma {:induction false} WrappedParsed(v: Vocabulary, k: Kind, ts: seq<string>, part: Type, rest: seq<string>)
    requires (k.ARRAY? || k.OPTIONAL? || k.REFERENCE?) && Parse(v, ts) == Some((part, rest))
    ensures ParseKind(v, k, ts) == Some((Wrapped(k, part), rest))
  {
  }

  lemma {:induction false} WrappedBack(v: Vocabulary, t: Type, rest: seq<string>)
    requires Coherent(v) && Ordered(t) && (t.ArrayType? || t.OptionalType? || t.ReferenceType?)
    ensures ParseKind(v, KindOf(t), Body(v, t) + rest) == Some((Erased(v, t), rest))
    decreases t, 0, 0
  {
    WrappedBody(v, t);
    ParseBack(v, Part(t), rest);
    WrappedParsed(v, KindOf(t), Tokens(v, Part(t)) + rest, Erased(v, Part(t)), rest);
  }

  lemma {:induction false} MapBody(v: Vocabulary, t: Type)
    requires t.MapType?
    ensures Body(v, t) == Tokens(v, t.key) + Tokens(v, t.value)
    ensures Ordered(t) ==> Ordered(t.key) && Ordered(t.value)
  {
    assert Inner(t)[0] == t.key && Inner(t)[1] == t.value;
    TwoTokens(v, t, t.key, t.value);
  }

  lemma {:induction false} MapParsed(
      v: Vocabulary, ks: seq<string>, vs: seq<string>, rest: seq<string>, key: Type, value: Type)
    requires Parse(v, ks + (vs + rest)) == Some((key, vs + rest)) && Parse(v, vs + rest) == Some((value, rest))
    ensures ParseKind(v, MAP, ks + vs + rest) == Some((MapType(key, value), rest))
  {
    assert ks + vs + rest == ks + (vs + rest);
  }

  lemma {:induction false} MapBack(v: Vocabulary, t: Type, rest: seq<string>)
    requires Coherent(v) && Ordered(t) && t.MapType?
    ensures ParseKind(v, MAP, Body(v, t) + rest) == Some((Erased(v, t), rest))
    decreases t, 0, 0
  {
    MapBody(v, t);
    ParseBack(v, t.key, Tokens(v, t.value) + rest);
    ParseBack(v, t.value, rest);
    MapParsed(v, Tokens(v, t.key), Tokens(v, t.value), rest, Erased(v, t.key), Erased(v, t.value));
  }

  lemma {:induction false} EnumBack(v: Vocabulary, t: Type, rest: seq<string>)
    requires Coherent(v) && Ordered(t) && t.EnumType?
    ensures ParseKind(v, ENUM, Body(v, t) + rest) == Some((Erased(v, t), rest))
  {
    var names := EnumNames(t.values);
    var ts := [Decimal(|names|)] + names + rest;
    assert ts[0] == Decimal(|names|) && ts[1..] == names + rest;
    CountBack(|names|);
    assert [] + names == names;
    ParseNamesBack(names, [], rest);
  }

  lemma {:induction false} StructuredBack(v: Vocabulary, t: Type, rest: seq<string>)
    requires Coherent(v) && Ordered(t) && (t.StructureType? || t.UnionType?)
    ensures ParseKind(v, KindOf(t), Body(v, t) + rest) == Some((Erased(v, t), rest))
    decreases t, 0, |Inner(t)| + 1
  {
    var es := Entries(t);
    assert EntryNames(es) == Labels(t) && Schemas(es) == Inner(t);
    assert EntryNames([]) + EntryNames(es) == EntryNames(es);
    ParseEntriesBack(v, t, es, [], rest);
    assert [] + ErasedEntries(v, t, es) == ErasedEntries(v, t, es);
    CountBack(|es|);
    CountedEntries(v, KindOf(t), |es|, Labeled(v, t, Labels(t), Inner(t)), rest);
  }

  lemma {:induction false} CountedEntries(v: Vocabulary, k: Kind, n: nat, labeled: seq<string>, rest: seq<string>)
    requires (k.STRUCTURE? || k.UNION?) && ToCount(Decimal(n)) == Some(n)
    ensures var es := ParseEntries(v, n, labeled + rest, []);
            ParseKind(v, k, [Decimal(n)] + labeled + rest)
            == if es.None? then None else Some((Structured(k, es.value.0), es.value.1))
  {
    var ts := [Decimal(n)] + labeled + rest;
    assert ts[0] == Decimal(n) && ts[1..] == labeled + rest;
  }
}
