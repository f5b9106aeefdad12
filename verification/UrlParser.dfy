/** The parser as the program runs it: a token range is consumed in place, and maps are filled
    in counted loops. */
module UrlParser {
  import opened Wrappers
  import opened Types
  import opened UrlSyntax
  import opened UrlTypes
  import opened UrlParsing

  function First<T>(t: Parsed<T>): (r: Option<T>) {
    if t.None? then None else Some(t.value.0)
  }

  class TokenRange {
    const v: Vocabulary
    var rest: seq<string>

    constructor (v: Vocabulary, tokens: seq<string>)
      ensures this.v == v && rest == tokens
    {
      this.v := v;
      this.rest := tokens;
    }

    method GetToken() returns (r: Option<string>)
      modifies this
      ensures old(rest) == [] ==> r.None? && rest == []
      ensures old(rest) != [] ==> r == Some(old(rest)[0]) && rest == old(rest)[1..]
    {
      if rest == [] { return None; }
      r := Some(rest[0]);
      rest := rest[1..];
    }

    method ParseType() returns (r: Option<Type>)
      modifies this
      ensures r == First(Parse(v, old(rest)))
      ensures r.Some? ==> rest == Parse(v, old(rest)).value.1
      decreases |rest|, 0
    {
      var code := GetToken();
      if code.None? || v.kind(code.value).None? { return None; }
      r := ParseAfterCode(v.kind(code.value).value);
    }

    method ParseAfterCode(k: Kind) returns (r: Option<Type>)
      modifies this
      ensures r == First(ParseKind(v, k, old(rest)))
      ensures r.Some? ==> rest == ParseKind(v, k, old(rest)).value.1
      decreases |rest|, 3
    {
      if Simple(k).Some? {
        r := Simple(k);
      } else if k.NAMED? {
        r := ParseNamed();
      } else if k.MAP? {
        var key := ParseType();
        if key.None? { return None; }
        var value := ParseType();
        if value.None? { return None; }
        r := Some(MapType(key.value, value.value));
      } else if k.ARRAY? || k.OPTIONAL? || k.REFERENCE? {
        var t := ParseType();
        if t.None? { return None; }
        r := Some(Wrapped(k, t.value));
      } else {
        r := ParseCounted(k);
      }
    }

    method ParseNamed() returns (r: Option<Type>)
      modifies this
      ensures r == First(ParseKind(v, NAMED, old(rest)))
      ensures r.Some? ==> rest == ParseKind(v, NAMED, old(rest)).value.1
    {
      var account := GetToken();
      var app := GetToken();
      var name := GetToken();
      r := if name.None? then None else Some(NamedType(account, app.value, name.value));
    }

    /** An enum, a structure or a union: a count, and a loop. */
    method ParseCounted(k: Kind) returns (r: Option<Type>)
      requires k.ENUM? || k.STRUCTURE? || k.UNION?
      modifies this
      ensures r == First(ParseKind(v, k, old(rest)))
      ensures r.Some? ==> rest == ParseKind(v, k, old(rest)).value.1
      decreases |rest|, 2
    {
      var count := GetToken();
      if count.None? || ToCount(count.value).None? { return None; }
      if k.ENUM? {
        var names := ParseNameList(ToCount(count.value).value);
        r := if names.None? then None else Some(Enumeration(names.value));
      } else {
        var es := ParseEntryList(ToCount(count.value).value);
        r := if es.None? then None else Some(Structured(k, es.value));
      }
    }

    method ParseNameList(n: nat) returns (r: Option<seq<string>>)
      modifies this
      ensures r == First(ParseNames(n, old(rest), []))
      ensures r.Some? ==> rest == ParseNames(n, old(rest), []).value.1
    {
      var names: seq<string> := [];
      ghost var all := ParseNames(n, rest, []);
      for i := 0 to n
        invariant ParseNames(n - i, rest, names) == all
      {
        var name := GetToken();
        if name.None? { return None; }
        names := AssignName(names, name.value);
      }
      r := Some(names);
    }

    method ParseEntryList(n: nat) returns (r: Option<seq<Entry>>)
      modifies this
      ensures r == First(ParseEntries(v, n, old(rest), []))
      ensures r.Some? ==> rest == ParseEntries(v, n, old(rest), []).value.1
      decreases |rest|, 1
    {
      var es: seq<Entry> := [];
      ghost var all := ParseEntries(v, n, rest, []);
      for i := 0 to n
        invariant |rest| <= |old(rest)| && ParseEntries(v, n - i, rest, es) == all
      {
        var name := GetToken();
        if name.None? { return None; }
        var schema := ParseType();
        if schema.None? { return None; }
        es := Assign(es, Entry(name.value, schema.value));
      }
      r := Some(es);
    }
  }

  /** The whole string is one type, and nothing is left over. */
  method ParseUrlType(v: Vocabulary, s: string) returns (r: Option<Type>)
    ensures r == ParseString(v, s)
  {
    var tokens := new TokenRange(v, Split(s));
    r := tokens.ParseType();
    if tokens.rest != [] { r := None; }
  }
}
