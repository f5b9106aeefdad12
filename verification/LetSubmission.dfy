/** Submitting nested lets variable by variable, with ids substituted for variables. */
module LetSubmission {
  import opened Wrappers
  import opened Requests
  import opened RequestForms
  import opened Resolvers
  import opened Agreement

  type Substitutions = map<string, Request>

  /** Replaces variables.  `None` stands for the exception on a let or on a variable without
      substitution.  Item indices and property fields are not looked at. */
  function Substitute(subs: Substitutions, e: Request): (r: Option<Request>)
    decreases e, |Children(e)| + 1
  {
    if e.Let? || e.Lambda? then None  // a lambda is not a Thinknode request
    else if e.Variable? then (if e.name in subs then Some(subs[e.name]) else None)
    else
      var cs := SubstituteFrom(subs, e, 0);
      if cs.None? then None else Some(WithChildren(e, cs.value))
  }

  function SubstituteFrom(subs: Substitutions, e: Request, k: nat): (r: Option<seq<Request>>)
    requires k <= |Children(e)|
    ensures r.Some? ==> |r.value| == |Children(e)| - k
    decreases e, |Children(e)| - k
  {
    if k == |Children(e)| then Some([])
    else
      var c := Children(e)[k];
      var c' := if k < Visited(e) then Substitute(subs, c) else Some(c);
      var rest := SubstituteFrom(subs, e, k + 1);
      if c'.None? || rest.None? then None else Some([c'.value] + rest.value)
  }

  // ----- what substitution does to values -----

  ghost predicate Both(w: World, T: Store, env: Environment, e: Request, env': Environment, e': Request) {
    Below(w, T, env, e, env', e') && Below(w, T, env', e', env, e)
  }

  /** Every substituted variable has, in env, the value of its substitution. */
  ghost predicate Matches(w: World, T: Store, env: Environment, subs: Substitutions) {
    forall x :: x in subs ==> Both(w, T, env, Variable(x), map[], subs[x])
  }

  /** Item indices and property fields are closed, so it is right not to substitute in them. */
  ghost predicate ClosedPositions(e: Request)
    decreases e
  {
    if e.Let? then
      ClosedPositions(e.body) && forall k :: 0 <= k < |e.variables| ==> ClosedPositions(e.variables[k].request)
    else
      forall k :: 0 <= k < |Children(e)| ==>
        if k < Visited(e) then ClosedPositions(Children(e)[k]) else ClosedIn({}, Children(e)[k])
  }

  lemma {:induction false} ClosedBoth(w: World, T: Store, env: Environment, env': Environment, e: Request)
    requires Lawful(w) && ClosedIn({}, e)
    ensures Both(w, T, env, e, env', e)
  {
    forall v, n: nat | Eval(w, n, T, env, e) == Done(v) ensures Eval(w, n, T, env', e) == Done(v) {
      ClosedEval(w, n, T, {}, env, env', e);
    }
    forall v, n: nat | Eval(w, n, T, env', e) == Done(v) ensures Eval(w, n, T, env, e) == Done(v) {
      ClosedEval(w, n, T, {}, env, env', e);
    }
  }

  lemma {:induction false} ValueBoth(w: World, T: Store, env: Environment, v: Dynamic)
    ensures Both(w, T, env, Value(v), map[], Value(v))
  {
    assert Eval(w, 1, T, env, Value(v)) == Done(v) && Eval(w, 1, T, map[], Value(v)) == Done(v);
    forall u | Evals(w, T, env, Value(v), u) ensures Evals(w, T, map[], Value(v), u) {
      EvalsUnique(w, T, env, Value(v), u, v);
    }
    forall u | Evals(w, T, map[], Value(v), u) ensures Evals(w, T, env, Value(v), u) {
      EvalsUnique(w, T, map[], Value(v), u, v);
    }
  }

  lemma {:induction false} ReferenceBoth(w: World, T: Store, env: Environment, id: string)
    ensures Both(w, T, env, Reference(id), map[], Reference(id))
  {
    forall v ensures Evals(w, T, env, Reference(id), v) <==> Evals(w, T, map[], Reference(id), v) {
      ReferenceDenotes(w, T, env, id, v);
      ReferenceDenotes(w, T, map[], id, v);
    }
  }

  /** Substitution turns evaluation in the environment into evaluation without one. */
  lemma {:induction false} SubstituteMeans(w: World, T: Store, env: Environment, subs: Substitutions, e: Request)
    requires Lawful(w) && Matches(w, T, env, subs) && ClosedPositions(e) && Substitute(subs, e).Some?
    ensures Both(w, T, env, e, map[], Substitute(subs, e).value)
    decreases e, |Children(e)| + 1
  {
    if IsNode(e) || e.Meta? {
      var r := Substitute(subs, e).value;
      SubstituteFromMeans(w, T, env, subs, e, 0);
      assert Children(e)[0..] == Children(e);
      NodeBoth(w, T, env, e, r);
    } else if e.Reference? {
      ReferenceBoth(w, T, env, e.id);
    } else if e.Value? {
      ValueBoth(w, T, env, e.value);
    }
  }

  lemma {:induction false} NodeBoth(w: World, T: Store, env: Environment, e: Request, r: Request)
    requires Lawful(w) && (IsNode(e) || e.Meta?) && |Children(r)| == |Children(e)| && r == WithChildren(e, Children(r))
    requires BelowAll(w, T, env, Children(e), map[], Children(r))
    requires BelowAll(w, T, map[], Children(r), env, Children(e))
    ensures Both(w, T, env, e, map[], r)
  {
    if IsNode(e) {
      assert e == WithChildren(r, Children(e)) by {
        if e.Object? { assert Rebound(r.properties, Requested(e.properties)) == e.properties; }
      }
      assert Plain(r) == WithChildren(Plain(e), Children(r)) && Plain(e) == WithChildren(Plain(r), Children(e));
      BelowNode(w, T, env, e, map[], r);
      BelowNode(w, T, map[], r, env, e);
    } else {
      assert Below(w, T, env, Children(e)[0], map[], Children(r)[0])
          && Below(w, T, map[], Children(r)[0], env, Children(e)[0]);
      BelowMeta(w, T, env, e.generator, map[], r.generator, e.schema);
      BelowMeta(w, T, map[], r.generator, env, e.generator, e.schema);
    }
  }

  lemma {:induction false} SubstituteFromMeans(
      w: World, T: Store, env: Environment, subs: Substitutions, e: Request, k: nat)
    requires Lawful(w) && Matches(w, T, env, subs) && k <= |Children(e)| && SubstituteFrom(subs, e, k).Some?
    requires !e.Let? && ClosedPositions(e)
    ensures BelowAll(w, T, env, Children(e)[k..], map[], SubstituteFrom(subs, e, k).value)
    ensures BelowAll(w, T, map[], SubstituteFrom(subs, e, k).value, env, Children(e)[k..])
    decreases e, |Children(e)| - k
  {
    if k < |Children(e)| {
      var c := Children(e)[k];
      if k < Visited(e) { SubstituteMeans(w, T, env, subs, c); } else { ClosedBoth(w, T, env, map[], c); }
      SubstituteFromMeans(w, T, env, subs, e, k + 1);
      BelowCons(w, T, env, Children(e)[k..], map[], SubstituteFrom(subs, e, k).value);
      BelowCons(w, T, map[], SubstituteFrom(subs, e, k).value, env, Children(e)[k..]);
    }
  }

  lemma {:induction false} BelowCons(
      w: World, T: Store, env: Environment, es: seq<Request>, env': Environment, es': seq<Request>)
    requires es != [] && es' != [] && Below(w, T, env, es[0], env', es'[0])
    requires BelowAll(w, T, env, es[1..], env', es'[1..])
    ensures BelowAll(w, T, env, es, env', es')
  {
    forall k | 0 <= k < |es| ensures Below(w, T, env, es[k], env', es'[k]) {
      if k > 0 { assert es[k] == es[1..][k - 1] && es'[k] == es'[1..][k - 1]; }
    }
  }

  // ----- submission -----

  /** The bindings of a nest of lets, outermost first, and the request inside. */
  function Flatten(e: Request): (r: seq<Binding>)
    decreases e
  {
    if e.Let? then e.variables + Flatten(e.body) else []
  }

  function Innermost(e: Request): (r: Request)
    ensures !r.Let?
    decreases e
  {
    if e.Let? then Innermost(e.body) else e
  }

  /** Posts a calculation and returns its id.  A dry run posts nothing and returns an id only
      if the calculation exists. */
  function Submit(w: World, S: Store, e: Request, dryRun: bool): (r: (Option<string>, Store)) {
    if e.Reference? then (Some(e.id), S)
    else
      var c := Calc(Sanitize(e));
      if w.id(c) in S then (Some(w.id(c)), S)
      else if dryRun then (None, S)
      else (Some(w.id(c)), S[w.id(c) := c])
  }

  datatype Reported = Reported(id: string, tag: string)

  datatype Progress = Progress(store: Store, subs: Substitutions, reported: seq<Reported>, others: seq<string>)

  datatype Info = Info(main: string, reported: seq<Reported>, others: seq<string>)

  /** The result of a submission: an exception, none (a calculation of a dry run does not
      exist), or a result. */
  datatype Submission<T> = Threw | Absent | Ok(value: T)

  function Label(e: Request): (r: string) {
    if e.Function? then e.name else "internal error: unrecognized reported calc"
  }

  function Record(p: Progress, S: Store, b: Binding, id: string, reportedVariables: seq<string>): (r: Progress) {
    Progress(S, p.subs[b.name := Reference(id)],
             if b.name in reportedVariables then p.reported + [Reported(id, Label(b.request))] else p.reported,
             if b.name in reportedVariables then p.others else p.others + [id])
  }

  function SubmitOne(
      w: World, p: Progress, b: Binding, reportedVariables: seq<string>, dryRun: bool): (r: Submission<Progress>) {
    match Substitute(p.subs, b.request)
    case None => Threw
    case Some(e) =>
      var (id, S) := Submit(w, p.store, e, dryRun);
      if id.None? then Absent else Ok(Record(p, S, b, id.value, reportedVariables))
  }

  function SubmitAll(
      w: World, p: Progress, bs: seq<Binding>, reportedVariables: seq<string>, dryRun: bool): (r: Submission<Progress>)
    decreases |bs|
  {
    if bs == [] then Ok(p)
    else match SubmitOne(w, p, bs[0], reportedVariables, dryRun)
      case Ok(p') => SubmitAll(w, p', bs[1..], reportedVariables, dryRun)
      case Threw => Threw
      case Absent => Absent
  }

  function SubmitMain(w: World, p: Progress, e: Request, dryRun: bool): (r: Submission<(Info, Store)>) {
    match Substitute(p.subs, e)
    case None => Threw
    case Some(e') =>
      var (id, S) := Submit(w, p.store, e', dryRun);
      if id.None? then Absent else Ok((Info(id.value, p.reported, p.others), S))
  }

  function Start(S: Store): Progress {
    Progress(S, map[], [], [])
  }

  function SubmitLet(
      w: World, S: Store, e: Request, reportedVariables: seq<string>, dryRun: bool): (r: Submission<(Info, Store)>) {
    match SubmitAll(w, Start(S), Flatten(e), reportedVariables, dryRun)
    case Ok(p) => SubmitMain(w, p, Innermost(e), dryRun)
    case Threw => Threw
    case Absent => Absent
  }

  /** The two nested loops of the submission: levels outside, variables inside. */
  method SubmitThinknodeLetCalc(w: World, S: Store, request: Request, reportedVariables: seq<string>, dryRun: bool)
      returns (r: Submission<(Info, Store)>)
    ensures r == SubmitLet(w, S, request, reportedVariables, dryRun)
  {
    var p := Start(S);
    var current := request;
    while current.Let?
      invariant Innermost(current) == Innermost(request)
      invariant SubmitAll(w, p, Flatten(current), reportedVariables, dryRun)
             == SubmitAll(w, Start(S), Flatten(request), reportedVariables, dryRun)
      decreases current
    {
      var level := SubmitVariables(w, p, current.variables, reportedVariables, dryRun);
      SubmitAllConcat(w, p, current.variables, Flatten(current.body), reportedVariables, dryRun);
      if level.Threw? { return Threw; }
      if level.Absent? { return Absent; }
      p, current := level.value, current.body;
    }
    r := SubmitMain(w, p, current, dryRun);
  }

  method SubmitVariables(w: World, start: Progress, bs: seq<Binding>, reportedVariables: seq<string>, dryRun: bool)
      returns (r: Submission<Progress>)
    ensures r == SubmitAll(w, start, bs, reportedVariables, dryRun)
  {
    var p := start;
    for i := 0 to |bs|
      invariant SubmitAll(w, p, bs[i..], reportedVariables, dryRun)
          == SubmitAll(w, start, bs, reportedVariables, dryRun)
    {
      assert bs[i..][1..] == bs[i + 1..];
      var e := Substitute(p.subs, bs[i].request);
      if e.None? { return Threw; }
      var (id, S') := Submit(w, p.store, e.value, dryRun);
      if id.None? { return Absent; }
      p := Record(p, S', bs[i], id.value, reportedVariables);
    }
    r := Ok(p);
  }

  lemma {:induction false} SubmitAllConcat(
      w: World, p: Progress, a: seq<Binding>, b: seq<Binding>, reportedVariables: seq<string>, dryRun: bool)
    ensures var first := SubmitAll(w, p, a, reportedVariables, dryRun);
            SubmitAll(w, p, a + b, reportedVariables, dryRun)
            == if first.Ok? then SubmitAll(w, first.value, b, reportedVariables, dryRun) else first
    decreases |a|
  {
    if a == [] {
      assert a + b == b;
    } else {
      assert (a + b)[0] == a[0] && (a + b)[1..] == a[1..] + b;
      var one := SubmitOne(w, p, a[0], reportedVariables, dryRun);
      if one.Ok? { SubmitAllConcat(w, one.value, a[1..], b, reportedVariables, dryRun); }
    }
  }

  // ----- the meaning of the submitted calculation -----

  ghost predicate DistinctNames(bs: seq<Binding>) {
    forall i, j :: 0 <= i < j < |bs| ==> bs[i].name != bs[j].name
  }

  lemma {:induction false} SubmitGrows(w: World, S: Store, e: Request, dryRun: bool)
    requires Lawful(w) && ValidStore(w, S)
    ensures Grows(w, S, Submit(w, S, e, dryRun).1)
  {
    ExtendsSelf(S);
  }

  lemma {:induction false} SubmitAllGrows(
      w: World, p: Progress, bs: seq<Binding>, reportedVariables: seq<string>, dryRun: bool)
    requires Lawful(w) && ValidStore(w, p.store) && SubmitAll(w, p, bs, reportedVariables, dryRun).Ok?
    ensures Grows(w, p.store, SubmitAll(w, p, bs, reportedVariables, dryRun).value.store)
    decreases |bs|
  {
    ExtendsSelf(p.store);
    if bs != [] {
      SubmitGrows(w, p.store, Substitute(p.subs, bs[0].request).value, dryRun);
      SubmitAllGrows(w, SubmitOne(w, p, bs[0], reportedVariables, dryRun).value, bs[1..], reportedVariables, dryRun);
    }
  }

  /** A submitted request's id has its value, in every later store. */
  lemma {:induction false} SubmitMeans(
      w: World, S: Store, T: Store, env: Environment, e: Request, e': Request, dryRun: bool)
    requires Lawful(w) && ValidStore(w, S) && Both(w, T, env, e, map[], e')
    requires Submit(w, S, e', dryRun).0.Some? && Extends(Submit(w, S, e', dryRun).1, T)
    ensures Same(w, T, env, e, Submit(w, S, e', dryRun).0.value)
  {
    if !e'.Reference? {
      SameAsPosted(w, T, env, e, Submit(w, S, e', dryRun).0.value, e');
    }
  }

  lemma {:induction false} BindConcat(env: Environment, a: seq<Binding>, b: seq<Binding>)
    ensures Bind(env, a + b) == Bind(Bind(env, a), b)
    decreases |b|
  {
    if b == [] {
      assert a + b == a;
    } else {
      assert (a + b)[..|a + b| - 1] == a + b[..|b| - 1];
      BindConcat(env, a, b[..|b| - 1]);
    }
  }

  lemma {:induction false} NestMeans(w: World, T: Store, env: Environment, e: Request, id: string)
    requires Same(w, T, Bind(env, Flatten(e)), Innermost(e), id)
    ensures Same(w, T, env, e, id)
    decreases e
  {
    if e.Let? {
      BindConcat(env, e.variables, Flatten(e.body));
      NestMeans(w, T, Bind(env, e.variables), e.body, id);
      SameLet(w, T, env, e.variables, e.body, id);
    }
  }
}
