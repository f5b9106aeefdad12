/** What the rewritings of requests give, kind by kind. */
module RewritingLaws {
  import opened Wrappers
  import opened Requests
  import opened RequestForms
  import opened LetSubmission
  import opened LetSubmissionRuns
  // ----- default levels -----

  /** `c` is `e` with level 4 for every function that asks for none, but for item indices and
      property fields, which are as they were. */
  ghost predicate LevelsFilled(e: Request, c: Request)
    decreases e
  {
    match e
    case Function(account, app, name, host, level, args) =>
      && c.Function? && c.account == account && c.app == app && c.name == name && c.host == host
      && c.level == Some(if level.Some? then level.value else 4)
      && |c.args| == |args| && forall k :: 0 <= k < |args| ==> LevelsFilled(args[k], c.args[k])
    case ArrayOf(items, schema) =>
      && c.ArrayOf? && c.itemSchema == schema
      && |c.items| == |items| && forall k :: 0 <= k < |items| ==> LevelsFilled(items[k], c.items[k])
    case Item(list, index, schema) => c.Item? && c.schema == schema && c.index == index && LevelsFilled(list, c.list)
    case Object(ps, schema) =>
      && c.Object? && c.schema == schema && |c.properties| == |ps|
      && forall k :: 0 <= k < |ps| ==>
           c.properties[k].name == ps[k].name && LevelsFilled(ps[k].request, c.properties[k].request)
    case Property(record, field, schema) =>
      c.Property? && c.schema == schema && c.field == field && LevelsFilled(record, c.record)
    case Let(bs, body) =>
      && c.Let? && LevelsFilled(body, c.body) && |c.variables| == |bs|
      && forall k :: 0 <= k < |bs| ==>
           c.variables[k].name == bs[k].name && LevelsFilled(bs[k].request, c.variables[k].request)
    case Meta(generator, schema) => c.Meta? && c.schema == schema && LevelsFilled(generator, c.generator)
    case Cast(schema, record) => c.Cast? && c.schema == schema && LevelsFilled(record, c.record)
    case _ => c == e
  }

  lemma {:induction false} SanitizeFillsLevels(e: Request)
    ensures LevelsFilled(e, Sanitize(e))
    decreases e
  {
    if e.Let? {
      SanitizeFillsLevels(e.body);
      forall k | 0 <= k < |e.variables|
        ensures LevelsFilled(e.variables[k].request, Sanitize(e).variables[k].request)
      {
        SanitizeFillsLevels(e.variables[k].request);
      }
    } else if !e.Lambda? {
      var cs, c := Children(e), Sanitize(e);
      forall k | 0 <= k < Visited(e) ensures Children(c)[k] == Sanitize(cs[k]) && LevelsFilled(cs[k], Children(c)[k]) {
        SanitizeFillsLevels(cs[k]);
      }
      assert forall k :: Visited(e) <= k < |cs| ==> Children(c)[k] == cs[k];
      SanitizedNode(e, c);
    }
  }

  lemma {:induction false} SanitizedNode(e: Request, c: Request)
    requires !e.Let? && !e.Lambda? && |Children(c)| == |Children(e)| && c == WithChildren(Leveled(e), Children(c))
    requires forall k :: 0 <= k < Visited(e) ==> LevelsFilled(Children(e)[k], Children(c)[k])
    requires forall k :: Visited(e) <= k < |Children(e)| ==> Children(c)[k] == Children(e)[k]
    ensures LevelsFilled(e, c)
  {
    var cs, ds := Children(e), Children(c);
    match e
    case Item(_, _, _) => assert LevelsFilled(cs[0], ds[0]) && ds[1] == cs[1];
    case Property(_, _, _) => assert LevelsFilled(cs[0], ds[0]) && ds[1] == cs[1];
    case Object(ps, _) =>
      forall k | 0 <= k < |ps| ensures LevelsFilled(ps[k].request, c.properties[k].request) {
        assert LevelsFilled(cs[k], ds[k]);
      }
    case Meta(_, _) => assert LevelsFilled(cs[0], ds[0]);
    case Cast(_, _) => assert LevelsFilled(cs[0], ds[0]);
    case _ =>
  }

  // ----- the generic form -----

  /** `c` is `e` with Thinknode as host of every function. */
  ghost predicate HostsFilled(e: Request, c: Request)
    decreases e
  {
    match e
    case Function(account, app, name, _, level, args) =>
      && c.Function? && c.account == account && c.app == app && c.name == name && c.level == level
      && c.host == Some(THINKNODE)
      && |c.args| == |args| && forall k :: 0 <= k < |args| ==> HostsFilled(args[k], c.args[k])
    case ArrayOf(items, schema) =>
      && c.ArrayOf? && c.itemSchema == schema
      && |c.items| == |items| && forall k :: 0 <= k < |items| ==> HostsFilled(items[k], c.items[k])
    case Item(list, index, schema) =>
      c.Item? && c.schema == schema && HostsFilled(list, c.list) && HostsFilled(index, c.index)
    case Object(ps, schema) =>
      && c.Object? && c.schema == schema && |c.properties| == |ps|
      && forall k :: 0 <= k < |ps| ==>
           c.properties[k].name == ps[k].name && HostsFilled(ps[k].request, c.properties[k].request)
    case Property(record, field, schema) =>
      c.Property? && c.schema == schema && HostsFilled(record, c.record) && HostsFilled(field, c.field)
    case Let(bs, body) =>
      && c.Let? && HostsFilled(body, c.body) && |c.variables| == |bs|
      && forall k :: 0 <= k < |bs| ==>
           c.variables[k].name == bs[k].name && HostsFilled(bs[k].request, c.variables[k].request)
    case Meta(generator, schema) => c.Meta? && c.schema == schema && HostsFilled(generator, c.generator)
    case Cast(schema, record) => c.Cast? && c.schema == schema && HostsFilled(record, c.record)
    case _ => c == e
  }

  lemma {:induction false} AsGenericFillsHosts(e: Request)
    ensures HostsFilled(e, AsGeneric(e))
    decreases e
  {
    if e.Let? {
      AsGenericFillsHosts(e.body);
      forall k | 0 <= k < |e.variables|
        ensures HostsFilled(e.variables[k].request, AsGeneric(e).variables[k].request)
      {
        AsGenericFillsHosts(e.variables[k].request);
      }
    } else if !e.Lambda? {
      var cs, c := Children(e), AsGeneric(e);
      forall k | 0 <= k < |cs| ensures Children(c)[k] == AsGeneric(cs[k]) && HostsFilled(cs[k], Children(c)[k]) {
        AsGenericFillsHosts(cs[k]);
      }
      GenericNode(e, c);
    }
  }

  lemma {:induction false} GenericNode(e: Request, c: Request)
    requires !e.Let? && !e.Lambda? && |Children(c)| == |Children(e)| && c == WithChildren(Hosted(e), Children(c))
    requires forall k :: 0 <= k < |Children(e)| ==> HostsFilled(Children(e)[k], Children(c)[k])
    ensures HostsFilled(e, c)
  {
    var cs, ds := Children(e), Children(c);
    match e
    case Item(_, _, _) => assert HostsFilled(cs[0], ds[0]) && HostsFilled(cs[1], ds[1]);
    case Property(_, _, _) => assert HostsFilled(cs[0], ds[0]) && HostsFilled(cs[1], ds[1]);
    case Object(ps, _) =>
      forall k | 0 <= k < |ps| ensures HostsFilled(ps[k].request, c.properties[k].request) {
        assert HostsFilled(cs[k], ds[k]);
      }
    case Meta(_, _) => assert HostsFilled(cs[0], ds[0]);
    case Cast(_, _) => assert HostsFilled(cs[0], ds[0]);
    case _ =>
  }

  // ----- substitution -----

  /** `c` is `e` with the variables replaced, but for item indices and property fields. */
  ghost predicate Replaced(subs: Substitutions, e: Request, c: Request)
    decreases e
  {
    match e
    case Variable(x) => x in subs && c == subs[x]
    case Function(account, app, name, host, level, args) =>
      && c.Function? && c == Function(account, app, name, host, level, c.args)
      && |c.args| == |args| && forall k :: 0 <= k < |args| ==> Replaced(subs, args[k], c.args[k])
    case ArrayOf(items, schema) =>
      && c.ArrayOf? && c.itemSchema == schema
      && |c.items| == |items| && forall k :: 0 <= k < |items| ==> Replaced(subs, items[k], c.items[k])
    case Item(list, index, schema) => c.Item? && c.schema == schema && c.index == index && Replaced(subs, list, c.list)
    case Object(ps, schema) =>
      && c.Object? && c.schema == schema && |c.properties| == |ps|
      && forall k :: 0 <= k < |ps| ==>
           c.properties[k].name == ps[k].name && Replaced(subs, ps[k].request, c.properties[k].request)
    case Property(record, field, schema) =>
      c.Property? && c.schema == schema && c.field == field && Replaced(subs, record, c.record)
    case Meta(generator, schema) => c.Meta? && c.schema == schema && Replaced(subs, generator, c.generator)
    case Cast(schema, record) => c.Cast? && c.schema == schema && Replaced(subs, record, c.record)
    case Reference(_) => c == e
    case Value(_) => c == e
    case _ => false
  }

  lemma {:induction false} SubstituteReplaces(subs: Substitutions, e: Request)
    requires Substitute(subs, e).Some?
    ensures Replaced(subs, e, Substitute(subs, e).value)
    decreases e
  {
    if !e.Variable? {
      var cs, c := Children(e), Substitute(subs, e).value;
      assert |Children(c)| == |cs|;
      forall k | 0 <= k < |cs|
        ensures if k < Visited(e) then Replaced(subs, cs[k], Children(c)[k]) else Children(c)[k] == cs[k]
      {
        SubstituteFromAt(subs, e, 0, k);
        if k < Visited(e) { SubstituteReplaces(subs, cs[k]); }
      }
      ReplacedNode(subs, e, c);
    }
  }

  lemma {:induction false} ReplacedNode(subs: Substitutions, e: Request, c: Request)
    requires !e.Let? && !e.Lambda? && !e.Variable?
    requires |Children(c)| == |Children(e)| && c == WithChildren(e, Children(c))
    requires forall k :: 0 <= k < |Children(e)| ==>
               if k < Visited(e) then Replaced(subs, Children(e)[k], Children(c)[k])
                   else Children(c)[k] == Children(e)[k]
    ensures Replaced(subs, e, c)
  {
    var cs, ds := Children(e), Children(c);
    match e
    case Item(_, _, _) => assert Replaced(subs, cs[0], ds[0]) && cs[1] == ds[1];
    case Property(_, _, _) => assert Replaced(subs, cs[0], ds[0]) && cs[1] == ds[1];
    case Object(ps, _) =>
      forall k | 0 <= k < |ps| ensures Replaced(subs, ps[k].request, c.properties[k].request) {
        assert Replaced(subs, cs[k], ds[k]);
      }
    case Meta(_, _) => assert Replaced(subs, cs[0], ds[0]);
    case Cast(_, _) => assert Replaced(subs, cs[0], ds[0]);
    case _ =>
  }

  ghost predicate IsReplaceable(subs: Substitutions, e: Request) {
    exists c :: Replaced(subs, e, c)
  }

  /** Substitution fails iff there is nothing to replace the request by: a let, a lambda or a
      variable without substitution is in its way. */
  lemma {:induction false} SubstituteIff(subs: Substitutions, e: Request)
    ensures Substitute(subs, e).Some? <==> IsReplaceable(subs, e)
  {
    if Substitute(subs, e).Some? {
      SubstituteReplaces(subs, e);
      var c := Substitute(subs, e).value;
      assert Replaced(subs, e, c);
    }
    if c :| Replaced(subs, e, c) { ReplacedSubstitutes(subs, e, c); }
  }

  lemma {:induction false} ReplacedSubstitutes(subs: Substitutions, e: Request, c: Request)
    requires Replaced(subs, e, c)
    ensures Substitutable(subs.Keys, e) && Substitute(subs, e).Some?
    decreases e
  {
    if !e.Variable? {
      forall k | 0 <= k < Visited(e) ensures Substitutable(subs.Keys, Children(e)[k]) {
        var d := ReplacedChild(subs, e, c, k);
        ReplacedSubstitutes(subs, Children(e)[k], d);
      }
    }
    SubstituteSucceeds(subs, e);
  }

  lemma {:induction false} ReplacedChild(subs: Substitutions, e: Request, c: Request, k: nat) returns (d: Request)
    requires Replaced(subs, e, c) && !e.Variable? && k < Visited(e)
    ensures Replaced(subs, Children(e)[k], d)
  {
    match e
    case Function(_, _, _, _, _, _) => d := c.args[k];
    case ArrayOf(_, _) => d := c.items[k];
    case Item(_, _, _) => d := c.list;
    case Object(ps, _) =>
      assert Children(e)[k] == ps[k].request;
      d := c.properties[k].request;
    case Property(_, _, _) => d := c.record;
    case Meta(_, _) => d := c.generator;
    case Cast(_, _) => d := c.record;
  }

  // ----- what is submitted -----

  /** The submission of a calculation that is there adds nothing; of another one, a dry run gives no
      id, and a real run adds it. */
  ghost predicate SubmittedAs(w: World, S: Store, dryRun: bool, c: Request, r: (Option<string>, Store)) {
    var id := w.id(Calc(c));
    r == if id in S then (Some(id), S) else if dryRun then (None, S) else (Some(id), S[id := Calc(c)])
  }

  /** A reference is not submitted, but stands for itself; any other request is submitted with its
      default levels filled in. */
  lemma {:induction false} SubmitPosts(w: World, S: Store, e: Request, dryRun: bool)
    ensures e.Reference? ==> Submit(w, S, e, dryRun) == (Some(e.id), S)
    ensures !e.Reference? ==> exists c :: LevelsFilled(e, c) && SubmittedAs(w, S, dryRun, c, Submit(w, S, e, dryRun))
  {
    SanitizeFillsLevels(e);
    if !e.Reference? { assert SubmittedAs(w, S, dryRun, Sanitize(e), Submit(w, S, e, dryRun)); }
  }

  // ----- the tags of reported calculations -----

  /** A reported function is reported by its name. */
  lemma {:induction false} ReportedByName(bs: seq<Binding>, ids: seq<string>, reportedVariables: seq<string>, k: nat)
    requires |ids| == |bs| && k < |bs| && bs[k].name in reportedVariables
    ensures var e := bs[k].request;
            Reported(ids[k], if e.Function? then e.name else "internal error: unrecognized reported calc")
            in ReportedOf(bs, ids, reportedVariables)
    decreases k
  {
    if k > 0 {
      ReportedByName(bs[1..], ids[1..], reportedVariables, k - 1);
      assert bs[1..][k - 1] == bs[k] && ids[1..][k - 1] == ids[k];
    }
  }

  /** An id is among the others iff some variable that is not reported has it. */
  lemma {:induction false} OthersUnreported(
      bs: seq<Binding>, ids: seq<string>, reportedVariables: seq<string>, id: string)
    requires |ids| == |bs|
    ensures id in OthersOf(bs, ids, reportedVariables)
       <==> exists k :: 0 <= k < |bs| && bs[k].name !in reportedVariables && ids[k] == id
    decreases |bs|
  {
    if bs != [] {
      OthersUnreported(bs[1..], ids[1..], reportedVariables, id);
      if k :| 0 <= k < |bs| && bs[k].name !in reportedVariables && ids[k] == id && k > 0 {
        assert bs[1..][k - 1] == bs[k] && ids[1..][k - 1] == ids[k];
      }
      if k :| 0 <= k < |bs[1..]| && bs[1..][k].name !in reportedVariables && ids[1..][k] == id {
        assert bs[k + 1] == bs[1..][k] && ids[k + 1] == ids[1..][k];
      }
    }
  }
}
