/** The type codes of Thinknode. */
module UrlCodes {
  import opened Wrappers
  import opened UrlSyntax
  import opened Types
  import opened UrlTypes
  import opened UrlParsing
  import opened UrlRoundTrip

  function Code(k: Kind): (r: string) {
    match k
    case ARRAY => "array"
    case BLOB => "blob"
    case BOOLEAN => "boolean"
    case DATETIME => "datetime"
    case DYNAMIC => "dynamic"
    case ENUM => "enum"
    case FLOAT => "float"
    case INTEGER => "integer"
    case MAP => "map"
    case NAMED => "named"
    case NIL => "nil"
    case OPTIONAL => "optional"
    case REFERENCE => "reference"
    case STRING => "string"
    case STRUCTURE => "structure"
    case UNION => "union"
  }

  function KindOfCode(s: string): (r: Option<Kind>) {
    if s == "array" then Some(ARRAY) else if s == "blob" then Some(BLOB) else if s == "boolean" then Some(BOOLEAN)
    else if s == "datetime" then Some(DATETIME) else if s == "dynamic" then Some(DYNAMIC)
    else if s == "enum" then Some(ENUM)
    else if s == "float" then Some(FLOAT) else if s == "integer" then Some(INTEGER) else if s == "map" then Some(MAP)
    else if s == "named" then Some(NAMED) else if s == "nil" then Some(NIL) else if s == "optional" then Some(OPTIONAL)
    else if s == "reference" then Some(REFERENCE) else if s == "string" then Some(STRING)
    else if s == "structure" then Some(STRUCTURE) else if s == "union" then Some(UNION) else None
  }

  function Thinknode(): (v: Vocabulary) {
    Vocabulary(Code, KindOfCode, "{account}")
  }

  lemma {:induction false} CodesDiffer(k: Kind)
    ensures KindOfCode(Code(k)) == Some(k)
  {
  }

  lemma {:induction false} CodesClean(k: Kind)
    ensures Clean(Code(k)) && '{' !in Code(k)
  {
  }

  lemma {:induction false} ThinknodeCoherent()
    ensures Coherent(Thinknode())
  {
    forall k: Kind ensures KindOfCode(Code(k)) == Some(k) && Clean(Code(k)) && '{' !in Code(k) {
      CodesDiffer(k);
      CodesClean(k);
    }
  }

  /** For the codes of Thinknode: parsing undoes printing iff no component is empty or contains a
      slash, and filling in the account commutes with printing if no name contains a brace. */
  lemma {:induction false} ThinknodeTypes(t: Type, account: string)
    requires Ordered(t)
    ensures ParseString(Thinknode(), Template(Thinknode(), t)) == Some(Erased(Thinknode(), t)) <==>
        AllClean(Tokens(Thinknode(), t))
    ensures WithoutBrace(t) ==>
              Fill("{account}", Template(Thinknode(), t), account) == Template(Thinknode(), WithAccount(t, account))
  {
    ThinknodeCoherent();
    PrintParse(Thinknode(), t);
    if WithoutBrace(t) { FillIsWithAccount(Thinknode(), t, account); }
  }
}
