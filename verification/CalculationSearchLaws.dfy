/** What the search of calculations goes by, said of the characters of ids and names, and of the
    kinds of requests. */
module CalculationSearchLaws {
  import opened Wrappers
  import opened Requests
  import opened CalculationSearch

  const HEX := "0123456789abcdefABCDEF"
  const LOWEST := "0123"
  const LOW := "4567"
  const HIGH := "89abAB"
  const HIGHEST := "cdefCDEF"

  // ----- the service of an id -----

  lemma {:induction false} HexCharacters(c: char)
    ensures HexDigit(c).Some? <==> c in HEX
    ensures HexDigit(c).Some? ==> (HexDigit(c).value / 4 == 0 <==> c in LOWEST)
    ensures HexDigit(c).Some? ==> (HexDigit(c).value / 4 == 1 <==> c in LOW)
    ensures HexDigit(c).Some? ==> (HexDigit(c).value / 4 == 2 <==> c in HIGH)
    ensures HexDigit(c).Some? ==> (HexDigit(c).value / 4 == 3 <==> c in HIGHEST)
    ensures (HexDigit(c) == Some(0) <==> c == '0') && (HexDigit(c) == Some(1) <==> c == '1')
  {
  }

  /** Two hexadecimal digits at positions 9 and 10. */
  predicate TwoDigits(id: string) {
    |id| > 10 && id[9] in HEX && id[10] in HEX
  }

  /** One hexadecimal digit at position 9, and none behind it. */
  predicate OneDigit(id: string) {
    |id| > 9 && id[9] in HEX && (|id| > 10 ==> id[10] !in HEX)
  }

  lemma {:induction false} TwoDigitService(id: string, h: nat, l: nat)
    requires TwoDigits(id) && HexDigit(id[9]) == Some(h) && HexDigit(id[10]) == Some(l)
    ensures ServiceOf(id) == ServiceNumbered(4 * h + l / 4)
  {
    BothDigits(id[9..11], h, l);
    Quarter(h, l);
  }

  lemma {:induction false} BothDigits(s: string, h: nat, l: nat)
    requires |s| == 2 && HexDigit(s[0]) == Some(h) && HexDigit(s[1]) == Some(l)
    ensures LeadingHex(s) == Some(16 * h + l)
  {
  }

  lemma {:induction false} Quarter(h: nat, l: nat)
    ensures (16 * h + l) / 4 == 4 * h + l / 4
  {
  }

  /** The services by the two digits of an id. */
  lemma {:induction false} ServiceByTwoDigits(id: string)
    requires TwoDigits(id)
    ensures ServiceOf(id) == Some(CALC) <==> id[9] == '1' && id[10] in LOWEST
    ensures ServiceOf(id) == Some(IAM) <==> id[9] == '0' && id[10] in LOW
    ensures ServiceOf(id) == Some(APM) <==> id[9] == '0' && id[10] in HIGH
    ensures ServiceOf(id) == Some(ISS) <==> id[9] == '0' && id[10] in HIGHEST
    ensures ServiceOf(id) == Some(CAS) <==> id[9] == '1' && id[10] in LOW
    ensures ServiceOf(id) == Some(RKS) <==> id[9] == '1' && id[10] in HIGH
    ensures ServiceOf(id) == Some(IMMUTABLE) <==> id[9] == '1' && id[10] in HIGHEST
    ensures ServiceOf(id) == None <==> (id[9] != '0' && id[9] != '1') || (id[9] == '0' && id[10] in LOWEST)
  {
    HexCharacters(id[9]);
    HexCharacters(id[10]);
    TwoDigitService(id, HexDigit(id[9]).value, HexDigit(id[10]).value);
  }

  /** A single digit stands for itself. */
  lemma {:induction false} ServiceByOneDigit(id: string)
    requires OneDigit(id)
    ensures ServiceOf(id) == if id[9] in LOW then Some(IAM) else if id[9] in HIGH then Some(APM)
                             else if id[9] in HIGHEST then Some(ISS) else None
  {
    HexCharacters(id[9]);
    var s := id[9..if |id| < 11 then |id| else 11];
    assert s[0] == id[9];
    if |id| > 10 {
      assert s[1] == id[10];
      HexCharacters(id[10]);
    }
    assert LeadingHex(s) == HexDigit(id[9]);
  }

  /** An id with no digit at position 9 has no service. */
  lemma {:induction false} NoServiceWithoutDigit(id: string)
    requires !TwoDigits(id) && !OneDigit(id)
    ensures ServiceOf(id) == None
  {
    if |id| > 9 {
      HexCharacters(id[9]);
      assert id[9..if |id| < 11 then |id| else 11][0] == id[9];
    }
  }

  /** The ids of calculations: "10" to "13" at positions 9 and 10. */
  predicate IsCalculationId(id: string) {
    |id| > 10 && id[9] == '1' && id[10] in LOWEST
  }

  /** The ids without a service. */
  predicate IsMalformedId(id: string) {
    if TwoDigits(id) then (id[9] != '0' && id[9] != '1') || (id[9] == '0' && id[10] in LOWEST)
    else if OneDigit(id) then id[9] in LOWEST
    else true
  }

  lemma {:induction false} IdsByCharacters(id: string)
    ensures ServiceOf(id) == Some(CALC) <==> IsCalculationId(id)
    ensures ServiceOf(id) == None <==> IsMalformedId(id)
  {
    if TwoDigits(id) {
      ServiceByTwoDigits(id);
    } else if OneDigit(id) {
      ServiceByOneDigit(id);
      HexCharacters(id[9]);
      if |id| > 10 { LowestAreHex(id[10]); }
    } else {
      NoServiceWithoutDigit(id);
      if |id| > 10 { LowestAreHex(id[10]); }
    }
  }

  lemma {:induction false} LowestAreHex(c: char)
    ensures c in LOWEST ==> c in HEX
    ensures '1' in HEX
  {
  }

  // ----- what is followed -----

  /** The positions that are followed, kind by kind: not item indices and not property fields. */
  ghost predicate FollowedIn(e: Request, c: Request) {
    match e
    case Lambda(_, args) => c in args
    case Function(_, _, _, _, _, args) => c in args
    case ArrayOf(items, _) => c in items
    case Item(list, _, _) => c == list
    case Object(ps, _) => exists k :: 0 <= k < |ps| && c == ps[k].request
    case Property(record, _, _) => c == record
    case Meta(generator, _) => c == generator
    case Cast(_, record) => c == record
    case _ => false
  }

  lemma {:induction false} FollowedAre(e: Request, c: Request)
    ensures c in Followed(e) <==> FollowedIn(e, c)
  {
    var es := Followed(e);
    match e
    case Item(list, index, _) => assert es == [list];
    case Property(record, field, _) => assert es == [record];
    case Object(ps, _) =>
      assert es == Requested(ps);
      if k :| 0 <= k < |ps| && c == ps[k].request { assert es[k] == c; }
    case _ => assert es == Children(e);
  }

  lemma {:induction false} CalcRefIs(e: Request, x: string)
    ensures x in CalcRef(e) <==> e == Reference(x) && IsCalculationId(x)
  {
    IdsByCharacters(x);
  }

  lemma {:induction false} CalcRefsAre(es: seq<Request>, x: string)
    ensures x in CalcRefs(es) <==> Reference(x) in es && IsCalculationId(x)
    decreases |es|
  {
    if es != [] {
      var init, last := es[..|es| - 1], es[|es| - 1];
      CalcRefsAre(init, x);
      CalcRefIs(last, x);
      assert Reference(x) in es <==> Reference(x) in init || Reference(x) == last by { assert es == init + [last]; }
    }
  }

  /** A calculation depends on the calculations that its followed positions mention. */
  lemma {:induction false} DependenciesAre(S: Store, id: string, x: string)
    ensures x in DependsOn(S)(id)
       <==> id in S && S[id].Calc? && FollowedIn(S[id].request, Reference(x)) && IsCalculationId(x)
  {
    if IsCalculation(S, id) {
      CalcRefsAre(Followed(S[id].request), x);
      FollowedAre(S[id].request, Reference(x));
    }
  }

  /** A search fails at a let, a variable or a lambda, and where a followed position mentions an id
      without a service. */
  lemma {:induction false} BadAre(S: Store, id: string)
    ensures Bad(S, id)
       <==> id in S && S[id].Calc?
            && (S[id].request.Let? || S[id].request.Variable? || S[id].request.Lambda?
                || exists x :: FollowedIn(S[id].request, Reference(x)) && IsMalformedId(x))
  {
    if IsCalculation(S, id) {
      var e := S[id].request;
      if c :| c in Followed(e) && BadReference(c) {
        FollowedAre(e, c);
        IdsByCharacters(c.id);
        assert FollowedIn(e, Reference(c.id)) && IsMalformedId(c.id);
      }
      if x :| FollowedIn(e, Reference(x)) && IsMalformedId(x) {
        FollowedAre(e, Reference(x));
        IdsByCharacters(x);
        assert BadReference(Reference(x));
      }
    }
  }

  /** A match is a function calculation whose name has the text in it. */
  lemma {:induction false} MatchesAre(S: Store, text: string, id: string)
    ensures Matches(S, text, id)
       <==> id in S && S[id].Calc? && S[id].request.Function? && exists a, b :: S[id].request.name == a + text + b
  {
    if IsCalculation(S, id) && S[id].request.Function? {
      var name := S[id].request.name;
      if i :| 0 <= i <= |name| && StartsWith(name[i..], text) {
        assert name == name[..i] + text + name[i..][|text|..];
      }
      if a, b :| name == a + text + b {
        assert name[|a|..] == text + b && text <= name[|a|..];
      }
    }
  }
}
