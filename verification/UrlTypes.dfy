/** Types as URL strings: printing with a placeholder for missing accounts, and parsing. */
module UrlTypes {
  import opened Wrappers
  import opened Types
  import opened UrlSyntax

  datatype Kind =
    | ARRAY | BLOB | BOOLEAN | DATETIME | DYNAMIC | ENUM | FLOAT | INTEGER
    | MAP | NAMED | NIL | OPTIONAL | REFERENCE | STRING | STRUCTURE | UNION

  /** The type codes, and the placeholder for an account. */
  datatype Vocabulary = Vocabulary(word: Kind -> string, kind: string -> Option<Kind>, hole: string)

  ghost predicate Coherent(v: Vocabulary) {
    && (forall k: Kind {:trigger v.word(k)} :: v.kind(v.word(k)) == Some(k) && Clean(v.word(k)) && '{' !in v.word(k))
    && v.hole != [] && v.hole[0] == '{' && Clean(v.hole)
  }

  function KindOf(t: Type): (k: Kind) {
    if t.ArrayType? then ARRAY else if t.BlobType? then BLOB else if t.BooleanType? then BOOLEAN
    else if t.DatetimeType? then DATETIME else if t.DynamicType? then DYNAMIC else if t.EnumType? then ENUM
    else if t.FloatType? then FLOAT else if t.IntegerType? then INTEGER else if t.MapType? then MAP
    else if t.NamedType? then NAMED else if t.NilType? then NIL else if t.OptionalType? then OPTIONAL
    else if t.ReferenceType? then REFERENCE else if t.StringType? then STRING else if t.StructureType? then STRUCTURE
    else UNION
  }

  // ----- the parts of a type -----

  function Inner(t: Type): (r: seq<Type>)
    ensures forall k :: 0 <= k < |r| ==> r[k] < t
  {
    if t.ArrayType? then [t.element]
    else if t.MapType? then [t.key, t.value]
    else if t.OptionalType? then [t.item]
    else if t.ReferenceType? then [t.target]
    else if t.StructureType? then
      assert forall k :: 0 <= k < |t.fields| ==> t.fields[k] < t;
      seq(|t.fields|, k requires 0 <= k < |t.fields| => t.fields[k].schema)
    else if t.UnionType? then
      assert forall k :: 0 <= k < |t.members| ==> t.members[k] < t;
      seq(|t.members|, k requires 0 <= k < |t.members| => t.members[k].schema)
    else []
  }

  /** The names of fields or members. */
  function Labels(t: Type): (r: seq<string>)
    requires t.StructureType? || t.UnionType?
    ensures |r| == |Inner(t)|
  {
    if t.StructureType? then seq(|t.fields|, k requires 0 <= k < |t.fields| => t.fields[k].name)
    else seq(|t.members|, k requires 0 <= k < |t.members| => t.members[k].name)
  }

  function EnumNames(values: seq<(string, string)>): (r: seq<string>)
    ensures |r| == |values|
  {
    seq(|values|, k requires 0 <= k < |values| => values[k].0)
  }

  // ----- printing -----

  function AccountOr(account: Option<string>, other: string): (r: string) {
    if account.Some? then account.value else other
  }

  /** The components of the URL form. */
  function Tokens(v: Vocabulary, t: Type): (r: seq<string>)
    ensures |r| > 0
    decreases t, 1, 0
  {
    [v.word(KindOf(t))] + Body(v, t)
  }

  /** The components after the type code. */
  function Body(v: Vocabulary, t: Type): (r: seq<string>)
    decreases t, 0, |Inner(t)| + 1
  {
    if t.NamedType? then [AccountOr(t.account, v.hole), t.app, t.name]
    else if t.EnumType? then [Decimal(|t.values|)] + EnumNames(t.values)
    else if t.StructureType? || t.UnionType? then [Decimal(|Inner(t)|)] + Labeled(v, t, Labels(t), Inner(t))
    else AllTokens(v, t, Inner(t))
  }

  function AllTokens(v: Vocabulary, ghost owner: Type, ts: seq<Type>): (r: seq<string>)
    requires forall k :: 0 <= k < |ts| ==> ts[k] < owner
    decreases owner, 0, |ts|
  {
    if ts == [] then [] else Tokens(v, ts[0]) + AllTokens(v, owner, ts[1..])
  }

  function Labeled(v: Vocabulary, ghost owner: Type, labels: seq<string>, ts: seq<Type>): (r: seq<string>)
    requires |labels| == |ts| && forall k :: 0 <= k < |ts| ==> ts[k] < owner
    decreases owner, 0, |ts|
  {
    if ts == [] then [] else [labels[0]] + Tokens(v, ts[0]) + Labeled(v, owner, labels[1..], ts[1..])
  }

  /** The string that is built, with a placeholder where the account is missing. */
  function Template(v: Vocabulary, t: Type): (r: string)
    decreases t, 1, 0
  {
    v.word(KindOf(t)) +
    if t.NamedType? then ['/'] + AccountOr(t.account, v.hole) + ['/'] + t.app + ['/'] + t.name
    else if t.EnumType? then ['/'] + Decimal(|t.values|) + Appended(EnumNames(t.values))
    else if t.StructureType? || t.UnionType? then
      ['/'] + Decimal(|Inner(t)|) + LabeledTemplates(v, t, Labels(t), Inner(t))
    else Templates(v, t, Inner(t))
  }

  function Appended(names: seq<string>): (r: string) {
    if names == [] then [] else ['/'] + names[0] + Appended(names[1..])
  }

  function Templates(v: Vocabulary, ghost owner: Type, ts: seq<Type>): (r: string)
    requires forall k :: 0 <= k < |ts| ==> ts[k] < owner
    decreases owner, 0, |ts|
  {
    if ts == [] then [] else ['/'] + Template(v, ts[0]) + Templates(v, owner, ts[1..])
  }

  function LabeledTemplates(v: Vocabulary, ghost owner: Type, labels: seq<string>, ts: seq<Type>): (r: string)
    requires |labels| == |ts| && forall k :: 0 <= k < |ts| ==> ts[k] < owner
    decreases owner, 0, |ts|
  {
    if ts == [] then []
    else ['/'] + labels[0] + (['/'] + Template(v, ts[0])) + LabeledTemplates(v, owner, labels[1..], ts[1..])
  }

  /** Appending components with a slash before each. */
  lemma {:induction false} AppendedConcat(xs: seq<string>, ys: seq<string>)
    ensures Appended(xs + ys) == Appended(xs) + Appended(ys)
    decreases |xs|
  {
    if xs == [] {
      assert xs + ys == ys;
    } else {
      assert (xs + ys)[1..] == xs[1..] + ys;
      AppendedConcat(xs[1..], ys);
      assert ['/'] + xs[0] + (Appended(xs[1..]) + Appended(ys)) == ['/'] + xs[0] + Appended(xs[1..]) + Appended(ys);
    }
  }

  lemma {:induction false} JoinIsAppended(ts: seq<string>)
    requires ts != []
    ensures ['/'] + Join(ts) == Appended(ts)
    decreases |ts|
  {
    if |ts| == 1 {
      assert ts[1..] == [];
    } else {
      JoinIsAppended(ts[1..]);
      assert ['/'] + (ts[0] + ['/'] + Join(ts[1..])) == ['/'] + ts[0] + (['/'] + Join(ts[1..]));
    }
  }

  lemma {:induction false} TemplateAppended(v: Vocabulary, t: Type)
    ensures ['/'] + Template(v, t) == Appended(Tokens(v, t))
    decreases t, 1, 0
  {
    var w := v.word(KindOf(t));
    if t.NamedType? {
      NamedAppended(AccountOr(t.account, v.hole), t.app, t.name);
      AppendedMore(w, [AccountOr(t.account, v.hole), t.app, t.name]);
    } else if t.EnumType? {
      AppendedMore(Decimal(|t.values|), EnumNames(t.values));
      AppendedMore(w, [Decimal(|t.values|)] + EnumNames(t.values));
    } else if t.StructureType? || t.UnionType? {
      LabeledAppended(v, t, Labels(t), Inner(t));
      AppendedMore(Decimal(|Inner(t)|), Labeled(v, t, Labels(t), Inner(t)));
      AppendedMore(w, [Decimal(|Inner(t)|)] + Labeled(v, t, Labels(t), Inner(t)));
    } else {
      TemplatesAppended(v, t, Inner(t));
      AppendedMore(w, AllTokens(v, t, Inner(t)));
    }
  }

  lemma {:induction false} AppendedMore(w: string, ts: seq<string>)
    ensures Appended([w] + ts) == ['/'] + w + Appended(ts) == ['/'] + (w + Appended(ts))
  {
    assert ([w] + ts)[1..] == ts;
  }

  lemma {:induction false} NamedAppended(account: string, app: string, name: string)
    ensures Appended([account, app, name]) == ['/'] + account + ['/'] + app + ['/'] + name
  {
    assert [account, app, name] == [account] + ([app] + ([name] + []));
    AppendedMore(name, []);
    AppendedMore(app, [name] + []);
    AppendedMore(account, [app] + ([name] + []));
    assert Appended([]) == [];
  }

  lemma {:induction false} TemplatesAppended(v: Vocabulary, owner: Type, ts: seq<Type>)
    requires forall k :: 0 <= k < |ts| ==> ts[k] < owner
    ensures Templates(v, owner, ts) == Appended(AllTokens(v, owner, ts))
    decreases owner, 0, |ts|
  {
    if ts != [] {
      TemplateAppended(v, ts[0]);
      TemplatesAppended(v, owner, ts[1..]);
      AppendedConcat(Tokens(v, ts[0]), AllTokens(v, owner, ts[1..]));
    }
  }

  lemma {:induction false} LabeledAppended(v: Vocabulary, owner: Type, labels: seq<string>, ts: seq<Type>)
    requires |labels| == |ts| && forall k :: 0 <= k < |ts| ==> ts[k] < owner
    ensures LabeledTemplates(v, owner, labels, ts) == Appended(Labeled(v, owner, labels, ts))
    decreases owner, 0, |ts|
  {
    if ts != [] {
      TemplateAppended(v, ts[0]);
      LabeledAppended(v, owner, labels[1..], ts[1..]);
      var rest := Labeled(v, owner, labels[1..], ts[1..]);
      AppendedMore(labels[0], Tokens(v, ts[0]));
      AppendedConcat([labels[0]] + Tokens(v, ts[0]), rest);
    }
  }

  /** The string is its components with slashes between them. */
  lemma {:induction false} TemplateIsJoin(v: Vocabulary, t: Type)
    ensures Template(v, t) == Join(Tokens(v, t))
  {
    TemplateAppended(v, t);
    JoinIsAppended(Tokens(v, t));
    assert (['/'] + Template(v, t))[1..] == Template(v, t) && (['/'] + Join(Tokens(v, t)))[1..] == Join(Tokens(v, t));
  }
}
