/** URL types as strings: exactly when parsing undoes printing, and what filling in the account
    does. */
module UrlRoundTrip {
  import opened Wrappers
  import opened Types
  import opened UrlSyntax
  import opened UrlTypes
  import opened UrlParsing

  // ----- parsing undoes printing iff every component is clean -----

  lemma {:induction false} CleanConcat(xs: seq<string>, ys: seq<string>)
    ensures AllClean(xs + ys) <==> AllClean(xs) && AllClean(ys)
  {
    if AllClean(xs + ys) {
      forall k | 0 <= k < |xs| ensures Clean(xs[k]) { assert (xs + ys)[k] == xs[k]; }
      forall k | 0 <= k < |ys| ensures Clean(ys[k]) { assert (xs + ys)[|xs| + k] == ys[k]; }
    }
  }

  /** Printing does not show what is lost. */
  lemma {:induction false} ErasedTokens(v: Vocabulary, t: Type)
    ensures Tokens(v, Erased(v, t)) == Tokens(v, t)
    decreases t, 1, 0
  {
    if t.EnumType? {
      assert EnumNames(Erased(v, t).values) == EnumNames(t.values);
    } else if t.StructureType? || t.UnionType? {
      ErasedStructured(v, t);
    } else if t.MapType? {
      ErasedTokens(v, t.key);
      ErasedTokens(v, t.value);
      MapBody(v, t);
      MapBody(v, Erased(v, t));
    } else if t.ArrayType? || t.OptionalType? || t.ReferenceType? {
      ErasedTokens(v, Part(t));
      WrappedBody(v, t);
      WrappedBody(v, Erased(v, t));
    }
  }

  lemma {:induction false} StructuredParts(k: Kind, es: seq<Entry>)
    requires k.STRUCTURE? || k.UNION?
    ensures var t := Structured(k, es);
            && KindOf(t) == k && Labels(t) == EntryNames(es) && Inner(t) == Schemas(es)
            && forall k :: 0 <= k < |es| ==> es[k].schema < t
  {
    var t := Structured(k, es);
    assert Inner(t) == Schemas(es);
    forall k | 0 <= k < |es| ensures es[k].schema < t { assert es[k].schema == Inner(t)[k]; }
  }

  lemma {:induction false} ErasedStructured(v: Vocabulary, t: Type)
    requires t.StructureType? || t.UnionType?
    ensures Tokens(v, Erased(v, t)) == Tokens(v, t)
    decreases t, 0, |Inner(t)| + 1
  {
    var es := Entries(t);
    var u := ErasedEntries(v, t, es);
    var e := Erased(v, t);
    StructuredParts(KindOf(t), u);
    assert EntryNames(es) == Labels(t) && Schemas(es) == Inner(t);
    ErasedLabeled(v, t, es, e, u);
  }

  lemma {:induction false} EntriesBehindFirst(es: seq<Entry>)
    requires es != []
    ensures EntryNames(es)[1..] == EntryNames(es[1..]) && Schemas(es)[1..] == Schemas(es[1..])
    ensures EntryNames(es)[0] == es[0].name && Schemas(es)[0] == es[0].schema
  {
  }

  lemma {:induction false} ErasedLabeled(v: Vocabulary, owner: Type, es: seq<Entry>, e: Type, u: seq<Entry>)
    requires forall k :: 0 <= k < |es| ==> es[k].schema < owner
    requires u == ErasedEntries(v, owner, es) && forall k :: 0 <= k < |u| ==> u[k].schema < e
    ensures Labeled(v, e, EntryNames(u), Schemas(u)) == Labeled(v, owner, EntryNames(es), Schemas(es))
    decreases owner, 0, |es|
  {
    if es != [] {
      ErasedTokens(v, es[0].schema);
      ErasedLabeled(v, owner, es[1..], e, u[1..]);
      EntriesBehindFirst(u);
      EntriesBehindFirst(es);
    }
  }

  ghost predicate CleanEntries(v: Vocabulary, es: seq<Entry>) {
    forall k :: 0 <= k < |es| ==> Clean(es[k].name) && AllClean(Tokens(v, es[k].schema))
  }

  lemma {:induction false} AssignClean(v: Vocabulary, es: seq<Entry>, e: Entry)
    requires CleanEntries(v, es) && Clean(e.name) && AllClean(Tokens(v, e.schema))
    ensures CleanEntries(v, Assign(es, e))
    decreases |es|
  {
    if es != [] { AssignClean(v, es[1..], e); }
  }

  lemma {:induction false} AssignNameClean(names: seq<string>, name: string)
    requires AllClean(names) && Clean(name)
    ensures AllClean(AssignName(names, name))
    decreases |names|
  {
    if names != [] { AssignNameClean(names[1..], name); }
  }

  lemma {:induction false} LabeledClean(v: Vocabulary, owner: Type, es: seq<Entry>)
    requires CleanEntries(v, es) && forall k :: 0 <= k < |es| ==> es[k].schema < owner
    ensures AllClean(Labeled(v, owner, EntryNames(es), Schemas(es)))
    decreases |es|
  {
    if es != [] {
      LabeledClean(v, owner, es[1..]);
      assert EntryNames(es)[1..] == EntryNames(es[1..]) && Schemas(es)[1..] == Schemas(es[1..]);
      CleanConcat([es[0].name], Tokens(v, es[0].schema));
      CleanConcat([es[0].name] + Tokens(v, es[0].schema), Labeled(v, owner, EntryNames(es[1..]), Schemas(es[1..])));
    }
  }

  /** What is parsed from clean components is printed with clean components. */
  lemma {:induction false} ParseClean(v: Vocabulary, ts: seq<string>)
    requires Coherent(v) && AllClean(ts) && Parse(v, ts).Some?
    ensures AllClean(Tokens(v, Parse(v, ts).value.0)) && AllClean(Parse(v, ts).value.1)
    decreases |ts|, 0
  {
    var k := v.kind(ts[0]).value;
    KindClean(v, k, ts[1..]);
    var t := Parse(v, ts).value.0;
    CleanConcat([v.word(KindOf(t))], Body(v, t));
  }

  lemma {:induction false} KindClean(v: Vocabulary, k: Kind, ts: seq<string>)
    requires Coherent(v) && AllClean(ts) && ParseKind(v, k, ts).Some?
    ensures AllClean(Body(v, ParseKind(v, k, ts).value.0)) && AllClean(ParseKind(v, k, ts).value.1)
    decreases |ts|, 2
  {
    if k.MAP? {
      MapClean(v, ts);
    } else if k.ARRAY? || k.OPTIONAL? || k.REFERENCE? {
      WrappedClean(v, k, ts);
    } else if k.ENUM? {
      EnumClean(v, ts);
    } else if k.STRUCTURE? || k.UNION? {
      StructuredClean(v, k, ts);
    } else if k.NAMED? {
      assert Body(v, ParseKind(v, k, ts).value.0) == ts[..3];
    } else {
      SimpleClean(v, k);
    }
  }

  lemma {:induction false} SimpleClean(v: Vocabulary, k: Kind)
    requires Simple(k).Some?
    ensures Body(v, Simple(k).value) == []
  {
    LeafBody(v, Simple(k).value);
  }

  lemma {:induction false} LeafBody(v: Vocabulary, t: Type)
    requires !t.NamedType? && !t.EnumType? && !t.MapType? && !t.StructureType? && !t.UnionType?
    requires !t.ArrayType? && !t.OptionalType? && !t.ReferenceType?
    ensures Body(v, t) == []
  {
    assert Inner(t) == [];
  }

  lemma {:induction false} WrappedClean(v: Vocabulary, k: Kind, ts: seq<string>)
    requires Coherent(v) && AllClean(ts) && (k.ARRAY? || k.OPTIONAL? || k.REFERENCE?) && ParseKind(v, k, ts).Some?
    ensures AllClean(Body(v, ParseKind(v, k, ts).value.0)) && AllClean(ParseKind(v, k, ts).value.1)
    decreases |ts|, 1
  {
    ParseClean(v, ts);
    var (part, rest) := Parse(v, ts).value;
    WrappedParsed(v, k, ts, part, rest);
    WrappedBody(v, Wrapped(k, part));
  }

  lemma {:induction false} MapClean(v: Vocabulary, ts: seq<string>)
    requires Coherent(v) && AllClean(ts) && ParseKind(v, MAP, ts).Some?
    ensures AllClean(Body(v, ParseKind(v, MAP, ts).value.0)) && AllClean(ParseKind(v, MAP, ts).value.1)
    decreases |ts|, 1
  {
    var (key, rest) := Parse(v, ts).value;
    ParseClean(v, ts);
    ParseClean(v, rest);
    var t := ParseKind(v, MAP, ts).value.0;
    MapBody(v, t);
    CleanConcat(Tokens(v, t.key), Tokens(v, t.value));
  }

  lemma {:induction false} EnumClean(v: Vocabulary, ts: seq<string>)
    requires AllClean(ts) && ParseKind(v, ENUM, ts).Some?
    ensures AllClean(Body(v, ParseKind(v, ENUM, ts).value.0)) && AllClean(ParseKind(v, ENUM, ts).value.1)
  {
    var n := ToCount(ts[0]).value;
    NamesClean(n, ts[1..], []);
    var names := ParseNames(n, ts[1..], []).value.0;
    assert EnumNames(Enumeration(names).values) == names;
    DecimalClean(|names|);
    CleanConcat([Decimal(|names|)], names);
  }

  lemma {:induction false} NamesClean(n: nat, ts: seq<string>, names: seq<string>)
    requires AllClean(ts) && AllClean(names) && ParseNames(n, ts, names).Some?
    ensures AllClean(ParseNames(n, ts, names).value.0) && AllClean(ParseNames(n, ts, names).value.1)
    decreases n
  {
    if n > 0 {
      AssignNameClean(names, ts[0]);
      NamesClean(n - 1, ts[1..], AssignName(names, ts[0]));
    }
  }

  lemma {:induction false} StructuredClean(v: Vocabulary, k: Kind, ts: seq<string>)
    requires Coherent(v) && AllClean(ts) && (k.STRUCTURE? || k.UNION?) && ParseKind(v, k, ts).Some?
    ensures AllClean(Body(v, ParseKind(v, k, ts).value.0)) && AllClean(ParseKind(v, k, ts).value.1)
    decreases |ts|, 1
  {
    var n := ToCount(ts[0]).value;
    EntriesClean(v, n, ts[1..], []);
    var es := ParseEntries(v, n, ts[1..], []).value.0;
    var t := Structured(k, es);
    StructuredParts(k, es);
    LabeledClean(v, t, es);
    DecimalClean(|es|);
    CleanConcat([Decimal(|es|)], Labeled(v, t, EntryNames(es), Schemas(es)));
  }

  lemma {:induction false} EntriesClean(v: Vocabulary, n: nat, ts: seq<string>, es: seq<Entry>)
    requires Coherent(v) && AllClean(ts) && CleanEntries(v, es) && ParseEntries(v, n, ts, es).Some?
    ensures CleanEntries(v, ParseEntries(v, n, ts, es).value.0) && AllClean(ParseEntries(v, n, ts, es).value.1)
    decreases |ts|, 2 + n
  {
    if n > 0 {
      EntriesStep(v, n, ts, es);
      ParseClean(v, ts[1..]);
      var (t, rest) := Parse(v, ts[1..]).value;
      AssignClean(v, es, Entry(ts[0], t));
      EntriesClean(v, n - 1, rest, Assign(es, Entry(ts[0], t)));
    }
  }

  lemma {:induction false} EntriesStep(v: Vocabulary, n: nat, ts: seq<string>, es: seq<Entry>)
    requires n > 0 && ParseEntries(v, n, ts, es).Some?
    ensures ts != [] && Parse(v, ts[1..]).Some?
    ensures var (t, rest) := Parse(v, ts[1..]).value;
            ParseEntries(v, n, ts, es) == ParseEntries(v, n - 1, rest, Assign(es, Entry(ts[0], t)))
  {
  }

  /** Parsing a printed type gives the type without what printing loses iff no component of it
      is empty or contains a slash. */
  lemma {:induction false} PrintParse(v: Vocabulary, t: Type)
    requires Coherent(v) && Ordered(t)
    ensures ParseString(v, Template(v, t)) == Some(Erased(v, t)) <==> AllClean(Tokens(v, t))
  {
    TemplateIsJoin(v, t);
    var ts := Split(Template(v, t));
    if AllClean(Tokens(v, t)) {
      SplitJoin(Tokens(v, t));
      ParseBack(v, t, []);
      assert Tokens(v, t) + [] == Tokens(v, t);
    } else if ParseString(v, Template(v, t)) == Some(Erased(v, t)) {
      ParseClean(v, ts);
      ErasedTokens(v, t);
    }
  }

  // ----- filling in the account -----

  /** Every name is changed by `f`, and a missing account is filled in. */
  function Renamed(t: Type, f: string -> string, account: string): (r: Type)
    decreases t
  {
    if t.NamedType? then NamedType(Some(if t.account.Some? then f(t.account.value) else account), f(t.app), f(t.name))
    else if t.EnumType? then
      EnumType(seq(|t.values|, k requires 0 <= k < |t.values| => (f(t.values[k].0), t.values[k].1)))
    else if t.StructureType? then
      assert forall k :: 0 <= k < |t.fields| ==> t.fields[k] < t;
      StructureType(seq(|t.fields|, k requires 0 <= k < |t.fields| =>
        t.fields[k].(name := f(t.fields[k].name), schema := Renamed(t.fields[k].schema, f, account))))
    else if t.UnionType? then
      assert forall k :: 0 <= k < |t.members| ==> t.members[k] < t;
      UnionType(seq(|t.members|, k requires 0 <= k < |t.members| =>
        t.members[k].(name := f(t.members[k].name), schema := Renamed(t.members[k].schema, f, account))))
    else if t.MapType? then MapType(Renamed(t.key, f, account), Renamed(t.value, f, account))
    else if t.ArrayType? then ArrayType(t.size, Renamed(t.element, f, account))
    else if t.OptionalType? then OptionalType(Renamed(t.item, f, account))
    else if t.ReferenceType? then ReferenceType(Renamed(t.target, f, account))
    else t
  }

  function WithAccount(t: Type, account: string): (r: Type) {
    Renamed(t, (s: string) => s, account)
  }

  function FillNames(v: Vocabulary, account: string): string -> string
    requires v.hole != []
  {
    (s: string) => Fill(v.hole, s, account)
  }

  lemma {:induction false} FillEachConcat(hole: string, xs: seq<string>, ys: seq<string>, value: string)
    requires hole != []
    ensures FillEach(hole, xs + ys, value) == FillEach(hole, xs, value) + FillEach(hole, ys, value)
  {
  }

  lemma {:induction false} FillStays(v: Vocabulary, s: string, account: string)
    requires Coherent(v) && '{' !in s
    ensures Fill(v.hole, s, account) == s
  {
    FillNothing(v.hole, s, account);
  }

  lemma {:induction false} RenamedKind(t: Type, f: string -> string, account: string)
    ensures KindOf(Renamed(t, f, account)) == KindOf(t)
  {
  }

  lemma {:induction false} RenamedParts(t: Type, f: string -> string, account: string)
    requires t.StructureType? || t.UnionType?
    ensures var r := Renamed(t, f, account);
            && |Inner(r)| == |Inner(t)|
            && (forall k :: 0 <= k < |Inner(t)| ==>
              Inner(r)[k] == Renamed(Inner(t)[k], f, account) && Labels(r)[k] == f(Labels(t)[k]))
  {
  }

  /** Filling the components of a type fills its names. */
  lemma {:induction false} FillTokens(v: Vocabulary, t: Type, account: string)
    requires Coherent(v)
    ensures FillEach(v.hole, Tokens(v, t), account) == Tokens(v, Renamed(t, FillNames(v, account), account))
    decreases t, 1, 0
  {
    var r := Renamed(t, FillNames(v, account), account);
    RenamedKind(t, FillNames(v, account), account);
    FillBody(v, t, account);
    FillStays(v, v.word(KindOf(t)), account);
    FillEachConcat(v.hole, [v.word(KindOf(t))], Body(v, t), account);
    assert FillEach(v.hole, [v.word(KindOf(t))], account) == [v.word(KindOf(r))];
  }

  lemma {:induction false} FillBody(v: Vocabulary, t: Type, account: string)
    requires Coherent(v)
    ensures FillEach(v.hole, Body(v, t), account) == Body(v, Renamed(t, FillNames(v, account), account))
    decreases t, 0, |Inner(t)| + 3
  {
    if t.NamedType? {
      FillNamed(v, t, account);
    } else if t.EnumType? {
      FillEnum(v, t, account);
    } else if t.StructureType? || t.UnionType? {
      FillStructured(v, t, account);
    } else if t.MapType? {
      FillMap(v, t, account);
    } else if t.ArrayType? || t.OptionalType? || t.ReferenceType? {
      FillWrapped(v, t, account);
    }
  }

  lemma {:induction false} FillNamed(v: Vocabulary, t: Type, account: string)
    requires Coherent(v) && t.NamedType?
    ensures FillEach(v.hole, Body(v, t), account) == Body(v, Renamed(t, FillNames(v, account), account))
  {
    FillHole(v.hole, account);
  }

  lemma {:induction false} FillEnum(v: Vocabulary, t: Type, account: string)
    requires Coherent(v) && t.EnumType?
    ensures FillEach(v.hole, Body(v, t), account) == Body(v, Renamed(t, FillNames(v, account), account))
  {
    var r := Renamed(t, FillNames(v, account), account);
    DecimalClean(|t.values|);
    FillStays(v, Decimal(|t.values|), account);
    FillEachConcat(v.hole, [Decimal(|t.values|)], EnumNames(t.values), account);
    assert FillEach(v.hole, [Decimal(|t.values|)], account) == [Decimal(|r.values|)];
    assert FillEach(v.hole, EnumNames(t.values), account) == EnumNames(r.values);
  }

  lemma {:induction false} FillMap(v: Vocabulary, t: Type, account: string)
    requires Coherent(v) && t.MapType?
    ensures FillEach(v.hole, Body(v, t), account) == Body(v, Renamed(t, FillNames(v, account), account))
    decreases t, 0, 0
  {
    FillTokens(v, t.key, account);
    FillTokens(v, t.value, account);
    MapBody(v, t);
    MapBody(v, Renamed(t, FillNames(v, account), account));
    FillEachConcat(v.hole, Tokens(v, t.key), Tokens(v, t.value), account);
  }

  lemma {:induction false} FillWrapped(v: Vocabulary, t: Type, account: string)
    requires Coherent(v) && (t.ArrayType? || t.OptionalType? || t.ReferenceType?)
    ensures FillEach(v.hole, Body(v, t), account) == Body(v, Renamed(t, FillNames(v, account), account))
    decreases t, 0, 0
  {
    FillTokens(v, Part(t), account);
    WrappedBody(v, t);
    WrappedBody(v, Renamed(t, FillNames(v, account), account));
  }

  lemma {:induction false} FillStructured(v: Vocabulary, t: Type, account: string)
    requires Coherent(v) && (t.StructureType? || t.UnionType?)
    ensures FillEach(v.hole, Body(v, t), account) == Body(v, Renamed(t, FillNames(v, account), account))
    decreases t, 0, |Inner(t)| + 1
  {
    var r := Renamed(t, FillNames(v, account), account);
    var n := |Inner(t)|;
    RenamedKind(t, FillNames(v, account), account);
    RenamedParts(t, FillNames(v, account), account);
    DecimalClean(n);
    FillStays(v, Decimal(n), account);
    FillEachConcat(v.hole, [Decimal(n)], Labeled(v, t, Labels(t), Inner(t)), account);
    assert FillEach(v.hole, [Decimal(n)], account) == [Decimal(n)];
    FillLabeled(v, t, Labels(t), Inner(t), r, Labels(r), Inner(r), account);
  }

  lemma {:induction false} FillLabeled(
      v: Vocabulary, owner: Type, ls: seq<string>, ts: seq<Type>, owner': Type, ls': seq<string>, ts': seq<Type>,
      account: string)
    requires Coherent(v) && |ls| == |ts| == |ls'| == |ts'|
    requires forall k :: 0 <= k < |ts| ==> ts[k] < owner && ts'[k] < owner'
    requires forall k :: 0 <= k < |ts| ==>
        ts'[k] == Renamed(ts[k], FillNames(v, account), account) && ls'[k] == Fill(v.hole, ls[k], account)
    ensures FillEach(v.hole, Labeled(v, owner, ls, ts), account) == Labeled(v, owner', ls', ts')
    decreases owner, 0, |ts|
  {
    if ts != [] {
      FillTokens(v, ts[0], account);
      FillLabeled(v, owner, ls[1..], ts[1..], owner', ls'[1..], ts'[1..], account);
      var rest := Labeled(v, owner, ls[1..], ts[1..]);
      FillEachConcat(v.hole, [ls[0]], Tokens(v, ts[0]), account);
      FillEachConcat(v.hole, [ls[0]] + Tokens(v, ts[0]), rest, account);
      assert FillEach(v.hole, [ls[0]], account) == [ls'[0]];
    }
  }

  /** Filling the template of any type gives the string of the type with its names filled. */
  lemma {:induction false} FillTemplate(v: Vocabulary, t: Type, account: string)
    requires Coherent(v)
    ensures Fill(v.hole, Template(v, t), account) == Template(v, Renamed(t, FillNames(v, account), account))
  {
    TemplateIsJoin(v, t);
    FillJoin(v.hole, Tokens(v, t), account);
    FillTokens(v, t, account);
    TemplateIsJoin(v, Renamed(t, FillNames(v, account), account));
  }

  /** No name of the type contains the first character of the placeholder. */
  ghost predicate WithoutBrace(t: Type)
    decreases t
  {
    && (t.NamedType? ==> '{' !in t.app && '{' !in t.name && '{' !in AccountOr(t.account, []))
    && (t.EnumType? ==> forall k :: 0 <= k < |t.values| ==> '{' !in t.values[k].0)
    && (t.StructureType? || t.UnionType? ==> forall k :: 0 <= k < |Labels(t)| ==> '{' !in Labels(t)[k])
    && forall k :: 0 <= k < |Inner(t)| ==> WithoutBrace(Inner(t)[k])
  }

  lemma {:induction false} NamesStay(v: Vocabulary, t: Type, account: string)
    requires Coherent(v) && WithoutBrace(t)
    ensures Renamed(t, FillNames(v, account), account) == WithAccount(t, account)
    decreases t
  {
    forall s | '{' !in s ensures Fill(v.hole, s, account) == s { FillStays(v, s, account); }
    forall k | 0 <= k < |Inner(t)|
      ensures Renamed(Inner(t)[k], FillNames(v, account), account) == WithAccount(Inner(t)[k], account)
    {
      NamesStay(v, Inner(t)[k], account);
    }
    if t.MapType? {
      assert Inner(t)[0] == t.key && Inner(t)[1] == t.value;
    } else if t.ArrayType? || t.OptionalType? || t.ReferenceType? {
      assert Inner(t)[0] == Part(t);
    } else if t.StructureType? {
      FieldsStay(v, t, account);
    } else if t.UnionType? {
      MembersStay(v, t, account);
    }
  }

  lemma {:induction false} FieldsStay(v: Vocabulary, t: Type, account: string)
    requires v.hole != [] && t.StructureType?
    requires forall k :: 0 <= k < |t.fields| ==> Fill(v.hole, Labels(t)[k], account) == Labels(t)[k]
    requires forall k :: 0 <= k < |t.fields| ==>
        Renamed(Inner(t)[k], FillNames(v, account), account) == WithAccount(Inner(t)[k], account)
    ensures Renamed(t, FillNames(v, account), account) == WithAccount(t, account)
  {
    var a, b := Renamed(t, FillNames(v, account), account), WithAccount(t, account);
    forall k | 0 <= k < |t.fields| ensures a.fields[k] == b.fields[k] {
      assert Inner(t)[k] == t.fields[k].schema && Labels(t)[k] == t.fields[k].name;
    }
  }

  lemma {:induction false} MembersStay(v: Vocabulary, t: Type, account: string)
    requires v.hole != [] && t.UnionType?
    requires forall k :: 0 <= k < |t.members| ==> Fill(v.hole, Labels(t)[k], account) == Labels(t)[k]
    requires forall k :: 0 <= k < |t.members| ==>
        Renamed(Inner(t)[k], FillNames(v, account), account) == WithAccount(Inner(t)[k], account)
    ensures Renamed(t, FillNames(v, account), account) == WithAccount(t, account)
  {
    var a, b := Renamed(t, FillNames(v, account), account), WithAccount(t, account);
    forall k | 0 <= k < |t.members| ensures a.members[k] == b.members[k] {
      assert Inner(t)[k] == t.members[k].schema && Labels(t)[k] == t.members[k].name;
    }
  }

  /** Filling the placeholder in the template is printing the type with the account filled in. */
  lemma {:induction false} FillIsWithAccount(v: Vocabulary, t: Type, account: string)
    requires Coherent(v) && WithoutBrace(t)
    ensures Fill(v.hole, Template(v, t), account) == Template(v, WithAccount(t, account))
  {
    FillTemplate(v, t, account);
    NamesStay(v, t, account);
  }
}
