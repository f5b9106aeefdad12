/** The URL strings of Thinknode, kind by kind, and what parsing keeps of a type. */
module UrlStrings {
  import opened Wrappers
  import opened UrlSyntax
  import opened TextOrder
  import opened Types
  import opened UrlTypes
  import opened UrlParsing
  import opened UrlCodes

  // ----- printing, for any codes -----

  function FieldStrings(v: Vocabulary, fields: seq<Field>): (r: string) {
    if fields == [] then ""
    else "/" + fields[0].name + ("/" + Template(v, fields[0].schema)) + FieldStrings(v, fields[1..])
  }

  function MemberStrings(v: Vocabulary, members: seq<Member>): (r: string) {
    if members == [] then ""
    else "/" + members[0].name + ("/" + Template(v, members[0].schema)) + MemberStrings(v, members[1..])
  }

  function ValueStrings(values: seq<(string, string)>): (r: string) {
    if values == [] then "" else "/" + values[0].0 + ValueStrings(values[1..])
  }

  lemma {:induction false} OneTemplate(v: Vocabulary, owner: Type, t: Type)
    requires t < owner
    ensures Templates(v, owner, [t]) == "/" + Template(v, t)
  {
    assert [t][1..] == [] && Templates(v, owner, []) == [];
    assert ['/'] + Template(v, t) + [] == "/" + Template(v, t);
  }

  lemma {:induction false} TwoTemplates(v: Vocabulary, owner: Type, t: Type, u: Type)
    requires t < owner && u < owner
    ensures Templates(v, owner, [t, u]) == "/" + Template(v, t) + ("/" + Template(v, u))
  {
    assert [t, u][1..] == [u];
    OneTemplate(v, owner, u);
  }

  /** The kinds with one part. */
  lemma {:induction false} WrappedStrings(v: Vocabulary, size: Option<int>, t: Type)
    ensures Template(v, ArrayType(size, t)) == v.word(ARRAY) + ("/" + Template(v, t))
    ensures Template(v, OptionalType(t)) == v.word(OPTIONAL) + ("/" + Template(v, t))
    ensures Template(v, ReferenceType(t)) == v.word(REFERENCE) + ("/" + Template(v, t))
  {
    OneTemplate(v, ArrayType(size, t), t);
    OneTemplate(v, OptionalType(t), t);
    OneTemplate(v, ReferenceType(t), t);
  }

  lemma {:induction false} MapString(v: Vocabulary, key: Type, value: Type)
    ensures Template(v, MapType(key, value))
         == v.word(MAP) + ("/" + Template(v, key) + ("/" + Template(v, value)))
  {
    TwoTemplates(v, MapType(key, value), key, value);
  }

  /** A named type has the placeholder where the account is missing. */
  lemma {:induction false} NamedString(v: Vocabulary, account: Option<string>, app: string, name: string)
    ensures Template(v, NamedType(account, app, name))
         == v.word(NAMED) + ("/" + (if account.Some? then account.value else v.hole) + "/" + app + "/" + name)
  {
  }

  lemma {:induction false} EnumString(v: Vocabulary, values: seq<(string, string)>)
    ensures Template(v, EnumType(values)) == v.word(ENUM) + ("/" + Decimal(|values|) + ValueStrings(values))
  {
    ValuesAppended(values);
  }

  lemma {:induction false} ValuesAppended(values: seq<(string, string)>)
    ensures Appended(EnumNames(values)) == ValueStrings(values)
    decreases |values|
  {
    if values != [] {
      assert EnumNames(values)[1..] == EnumNames(values[1..]);
      ValuesAppended(values[1..]);
    }
  }

  lemma {:induction false} StructureString(v: Vocabulary, fields: seq<Field>)
    ensures Template(v, StructureType(fields))
         == v.word(STRUCTURE) + ("/" + Decimal(|fields|) + FieldStrings(v, fields))
  {
    var t := StructureType(fields);
    FieldsLabeled(v, t, Labels(t), Inner(t), fields);
  }

  lemma {:induction false} FieldsLabeled(
      v: Vocabulary, owner: Type, labels: seq<string>, ts: seq<Type>, fields: seq<Field>)
    requires |labels| == |ts| == |fields| && forall k :: 0 <= k < |ts| ==> ts[k] < owner
    requires forall k :: 0 <= k < |ts| ==> labels[k] == fields[k].name && ts[k] == fields[k].schema
    ensures LabeledTemplates(v, owner, labels, ts) == FieldStrings(v, fields)
    decreases |ts|
  {
    if ts != [] { FieldsLabeled(v, owner, labels[1..], ts[1..], fields[1..]); }
  }

  lemma {:induction false} UnionString(v: Vocabulary, members: seq<Member>)
    ensures Template(v, UnionType(members))
         == v.word(UNION) + ("/" + Decimal(|members|) + MemberStrings(v, members))
  {
    var t := UnionType(members);
    MembersLabeled(v, t, Labels(t), Inner(t), members);
  }

  lemma {:induction false} MembersLabeled(
      v: Vocabulary, owner: Type, labels: seq<string>, ts: seq<Type>, members: seq<Member>)
    requires |labels| == |ts| == |members| && forall k :: 0 <= k < |ts| ==> ts[k] < owner
    requires forall k :: 0 <= k < |ts| ==> labels[k] == members[k].name && ts[k] == members[k].schema
    ensures LabeledTemplates(v, owner, labels, ts) == MemberStrings(v, members)
    decreases |ts|
  {
    if ts != [] { MembersLabeled(v, owner, labels[1..], ts[1..], members[1..]); }
  }

  /** The kinds without parts are their codes. */
  lemma {:induction false} SimpleString(v: Vocabulary, t: Type)
    requires !t.NamedType? && !t.EnumType? && !t.StructureType? && !t.UnionType? && Inner(t) == []
    ensures Template(v, t) == v.word(KindOf(t))
  {
    assert Templates(v, t, []) == [];
    assert v.word(KindOf(t)) + [] == v.word(KindOf(t));
  }

  // ----- the codes of the program -----

  /** A named type without account, as the program prints it. */
  lemma {:induction false} ThinknodePlaceholder(app: string, name: string)
    ensures Template(Thinknode(), NamedType(None, app, name)) == "named" + ("/" + "{account}" + "/" + app + "/" + name)
  {
    NamedString(Thinknode(), None, app, name);
  }

  /** Counts are written without leading zeros. */
  lemma {:induction false} NoLeadingZero(n: nat)
    ensures Decimal(n)[0] == '0' <==> n == 0
    ensures FromDecimal(Decimal(n)) == Some(n)
  {
    DecimalRoundTrip(n);
    FirstDigit(n);
  }

  lemma {:induction false} FirstDigit(n: nat)
    ensures Decimal(n)[0] == '0' <==> n == 0
  {
    if n >= 10 { FirstDigit(n / 10); }
  }

  // ----- what parsing keeps -----

  /** `r` is `t` without array sizes, descriptions and omissible flags, and with the placeholder
      for missing accounts. */
  ghost predicate Bare(v: Vocabulary, t: Type, r: Type)
    decreases t
  {
    match t
    case ArrayType(_, element) => r.ArrayType? && r.size == None && Bare(v, element, r.element)
    case EnumType(values) =>
      r.EnumType? && |r.values| == |values| && forall k :: 0 <= k < |values| ==> r.values[k] == (values[k].0, "")
    case MapType(key, value) => r.MapType? && Bare(v, key, r.key) && Bare(v, value, r.value)
    case NamedType(account, app, name) =>
      r == NamedType(Some(if account.Some? then account.value else v.hole), app, name)
    case OptionalType(item) => r.OptionalType? && Bare(v, item, r.item)
    case ReferenceType(target) => r.ReferenceType? && Bare(v, target, r.target)
    case StructureType(fields) =>
      && r.StructureType? && |r.fields| == |fields|
      && forall k :: 0 <= k < |fields| ==>
           && r.fields[k].name == fields[k].name && r.fields[k].description == "" && r.fields[k].omissible == None
           && Bare(v, fields[k].schema, r.fields[k].schema)
    case UnionType(members) =>
      && r.UnionType? && |r.members| == |members|
      && forall k :: 0 <= k < |members| ==>
           && r.members[k].name == members[k].name && r.members[k].description == ""
           && Bare(v, members[k].schema, r.members[k].schema)
    case _ => r == t
  }

  lemma {:induction false} ErasedIsBare(v: Vocabulary, t: Type)
    ensures Bare(v, t, Erased(v, t))
    decreases t, 1
  {
    match t
    case ArrayType(_, element) => ErasedIsBare(v, element);
    case MapType(key, value) =>
      ErasedIsBare(v, key);
      ErasedIsBare(v, value);
    case OptionalType(item) => ErasedIsBare(v, item);
    case ReferenceType(target) => ErasedIsBare(v, target);
    case StructureType(fields) => ErasedFieldsBare(v, t);
    case UnionType(members) => ErasedMembersBare(v, t);
    case _ =>
  }

  lemma {:induction false} ErasedFieldsBare(v: Vocabulary, t: Type)
    requires t.StructureType?
    ensures Bare(v, t, Erased(v, t))
    decreases t, 0
  {
    var fields, es := t.fields, ErasedEntries(v, t, Entries(t));
    forall k | 0 <= k < |fields| ensures es[k].name == fields[k].name && Bare(v, fields[k].schema, es[k].schema) {
      ErasedAt(v, t, Entries(t), k);
      ErasedIsBare(v, fields[k].schema);
    }
  }

  lemma {:induction false} ErasedMembersBare(v: Vocabulary, t: Type)
    requires t.UnionType?
    ensures Bare(v, t, Erased(v, t))
    decreases t, 0
  {
    var members, es := t.members, ErasedEntries(v, t, Entries(t));
    forall k | 0 <= k < |members| ensures es[k].name == members[k].name && Bare(v, members[k].schema, es[k].schema) {
      ErasedAt(v, t, Entries(t), k);
      ErasedIsBare(v, members[k].schema);
    }
  }

  lemma {:induction false} ErasedAt(v: Vocabulary, owner: Type, es: seq<Entry>, k: nat)
    requires k < |es| && forall j :: 0 <= j < |es| ==> es[j].schema < owner
    ensures ErasedEntries(v, owner, es)[k] == Entry(es[k].name, Erased(v, es[k].schema))
    decreases k
  {
    if k > 0 { ErasedAt(v, owner, es[1..], k - 1); }
  }

  // ----- assigning to maps -----

  ghost predicate InKeyOrder(es: seq<Entry>) {
    forall i, j :: 0 <= i < j < |es| ==> Less(es[i].name, es[j].name)
  }

  /** Assigning an entry replaces the one of its name, and keeps the others and the order. */
  lemma {:induction false} AssignReplaces(es: seq<Entry>, e: Entry)
    requires InKeyOrder(es)
    ensures InKeyOrder(Assign(es, e))
    ensures forall x :: x in Assign(es, e) <==> x == e || (x in es && x.name != e.name)
    decreases |es|
  {
    if es != [] {
      var first, rest := es[0], es[1..];
      assert es == [first] + rest;
      assert forall j :: 0 <= j < |rest| ==> Less(first.name, rest[j].name);
      LessTotal(e.name, first.name);
      LessIrreflexive(e.name);
      if Less(e.name, first.name) {
        forall x | x in es ensures Less(e.name, x.name) && x.name != e.name {
          if x != first { LessTransitive(e.name, first.name, x.name); }
        }
        OrderedBehind(e, es);
      } else if first.name == e.name {
        forall x | x in rest ensures Less(e.name, x.name) && x.name != e.name {}
        OrderedBehind(e, rest);
      } else {
        AssignReplaces(rest, e);
        forall x | x in Assign(rest, e) ensures Less(first.name, x.name) {}
        OrderedBehind(first, Assign(rest, e));
      }
    }
  }

  lemma {:induction false} OrderedBehind(first: Entry, rest: seq<Entry>)
    requires InKeyOrder(rest) && forall x :: x in rest ==> Less(first.name, x.name)
    ensures InKeyOrder([first] + rest)
  {
  }

  lemma {:induction false} AssignNameInserts(names: seq<string>, name: string)
    requires Ascending(names)
    ensures Ascending(AssignName(names, name)) && forall x :: x in AssignName(names, name) <==> x == name || x in names
    decreases |names|
  {
    if names != [] {
      var first, rest := names[0], names[1..];
      assert names == [first] + rest;
      LessTotal(name, first);
      if Less(name, first) {
        forall x | x in names ensures Less(name, x) {
          if x != first { LessTransitive(name, first, x); }
        }
      } else if first != name {
        AssignNameInserts(rest, name);
        forall x | x in AssignName(rest, name) ensures Less(first, x) {}
      }
    }
  }
}
