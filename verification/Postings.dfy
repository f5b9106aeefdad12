/** Where functions run: what a resolver posts, and what it does not. */
module Postings {
  import opened Wrappers
  import opened Requests
  import opened RequestForms
  import opened Resolvers
  import opened Depth

  // ----- what the returned id holds -----

  ghost predicate AllReferences(es: seq<Request>) {
    forall k :: 0 <= k < |es| ==> es[k].Reference?
  }

  /** The calculation for a request, kind by kind: references in place of the parts, no host, and
      level 4 for a function that asks for none. */
  ghost predicate PostedAs(e: Request, c: Request) {
    match e
    case Function(account, app, name, _, level, args) =>
      && c.Function? && c.account == account && c.app == app && c.name == name && c.host == None
      && c.level == Some(if level.Some? then level.value else 4) && |c.args| == |args| && AllReferences(c.args)
    case ArrayOf(items, schema) =>
      c.ArrayOf? && c.itemSchema == schema && |c.items| == |items| && AllReferences(c.items)
    case Item(_, _, schema) => c.Item? && c.schema == schema && c.list.Reference? && c.index.Reference?
    case Object(ps, schema) =>
      && c.Object? && c.schema == schema && |c.properties| == |ps|
      && forall k :: 0 <= k < |ps| ==> c.properties[k].name == ps[k].name && c.properties[k].request.Reference?
    case Property(_, _, schema) => c.Property? && c.schema == schema && c.record.Reference? && c.field.Reference?
    case Meta(_, schema) => c.Meta? && c.schema == schema && c.generator.Reference?
    case Cast(schema, _) => c.Cast? && c.schema == schema && c.record.Reference?
    case _ => false
  }

  /** A lambda, and a function that is to run here. */
  predicate RunsHere(e: Request) {
    match e
    case Lambda(_, _) => true
    case Function(_, _, _, host, _, _) => host == Some(LOCAL)
    case _ => false
  }

  lemma {:induction false} SanitizedShallow(e: Request, ids: seq<string>)
    requires (IsNode(e) || e.Meta?) && !e.Lambda? && |ids| == |Children(e)|
    ensures var r, c := ShallowForm(e, ids), Sanitize(ShallowForm(e, ids));
            c == WithChildren(Leveled(r), Refs(ids))
  {
    var r, c := ShallowForm(e, ids), Sanitize(ShallowForm(e, ids));
    forall k | 0 <= k < |ids| ensures Children(c)[k] == Refs(ids)[k] {
      assert Children(r)[k] == Reference(ids[k]);
      assert Sanitize(Reference(ids[k])) == Reference(ids[k]);
    }
    assert Children(c) == Refs(ids);
  }

  lemma {:induction false} ShallowPosted(e: Request, ids: seq<string>)
    requires (IsNode(e) || e.Meta?) && !e.Lambda? && |ids| == |Children(e)|
    ensures PostedAs(e, Sanitize(ShallowForm(e, ids)))
  {
    SanitizedShallow(e, ids);
  }

  /** The id returned for a lambda, or for a function that asks to run here, is that of its value;
      for a value, that of the value; for every other request of a kind of its own, that of its
      calculation. */
  lemma {:induction false} RemotePosts(w: World, n: nat, S: Store, env: Environment, e: Request)
    requires Remote(w, n, S, env, e).Done?
    ensures var (id, S') := Remote(w, n, S, env, e).value;
            if e.Reference? then id == e.id && S' == S
            else if e.Let? || e.Variable? then true
            else
              && id in S' && id == w.id(S'[id])
              && (e.Value? ==> S'[id] == Data(e.value))
              && (RunsHere(e) ==> S'[id].Data?)
              && (!e.Value? && !RunsHere(e) ==> S'[id].Calc? && PostedAs(e, S'[id].request))
  {
    if IsNode(e) || e.Meta? {
      if RunsHere(e) {
        PostsLocal(w, n, S, env, e);
      } else {
        PostsShallow(w, n, S, env, e);
        var ids := RemoteAll(w, n - 1, S, env, Children(e)).value.0;
        ShallowPosted(e, ids);
      }
    }
  }

  /** A function that asks for Thinknode is posted there even where its value is wanted here. */
  lemma {:induction false} ThinknodeFunctionPosted(w: World, n: nat, S: Store, env: Environment, e: Request)
    requires e.Function? && e.host == Some(THINKNODE) && Local(w, n, S, env, e).Done?
    ensures var S' := Local(w, n, S, env, e).value.1;
            exists id :: id in S' && S'[id].Calc? && PostedAs(e, S'[id].request)
  {
    LocalFetches(w, n, S, env, e);
    RemotePosts(w, n - 1, S, env, e);
    var id := Remote(w, n - 1, S, env, e).value.0;
    assert id in Local(w, n, S, env, e).value.1;
  }

  // ----- what stays here -----

  /** No function asks for Thinknode, and no request is generated. */
  ghost predicate AllHere(e: Request)
    decreases e
  {
    if e.Let? then
      AllHere(e.body) && forall k :: 0 <= k < |e.variables| ==> AllHere(e.variables[k].request)
    else
      && !e.Meta? && (e.Function? ==> e.host != Some(THINKNODE))
      && forall k :: 0 <= k < |Children(e)| ==> AllHere(Children(e)[k])
  }

  ghost predicate AllHereIn(env: Environment) {
    forall x :: x in env ==> AllHere(env[x])
  }

  lemma {:induction false} BindAllHere(env: Environment, bs: seq<Binding>)
    requires AllHereIn(env) && forall k :: 0 <= k < |bs| ==> AllHere(bs[k].request)
    ensures AllHereIn(Bind(env, bs))
    decreases |bs|
  {
    if bs != [] { BindAllHere(env, bs[..|bs| - 1]); }
  }

  /** The local resolver posts nothing unless some function asks for Thinknode. */
  lemma {:induction false} LocalLeavesStore(w: World, n: nat, S: Store, env: Environment, e: Request)
    requires AllHereIn(env) && AllHere(e) && Local(w, n, S, env, e).Done?
    ensures Local(w, n, S, env, e).value.1 == S
    decreases n, 0
  {
    if IsNode(e) {
      LocalAllLeavesStore(w, n - 1, S, env, Children(e), ItemSchema(e));
    } else if e.Let? {
      BindAllHere(env, e.variables);
      LocalLeavesStore(w, n - 1, S, Bind(env, e.variables), e.body);
    } else if e.Variable? {
      LocalLeavesStore(w, n - 1, S, env, env[e.name]);
    }
  }

  lemma {:induction false} LocalAllLeavesStore(
      w: World, n: nat, S: Store, env: Environment, es: seq<Request>, schema: Option<Schema>)
    requires AllHereIn(env) && (forall k :: 0 <= k < |es| ==> AllHere(es[k]))
    requires LocalAll(w, n, S, env, es, schema).Done?
    ensures LocalAll(w, n, S, env, es, schema).value.1 == S
    decreases n, 1 + |es|
  {
    if es != [] {
      LocalLeavesStore(w, n, S, env, es[0]);
      LocalAllLeavesStore(w, n, S, env, es[1..], schema);
    }
  }

  // ----- which calculations a run can add -----

  /** Every calculation that is in `S'` but was not in `S` is admitted by `P`. */
  ghost predicate AddsOnly(P: Request -> bool, S: Store, S': Store) {
    forall id :: id in S' && S'[id].Calc? ==> (id in S && S[id] == S'[id]) || P(S'[id].request)
  }

  /** Whatever is posted for a part of the request is admitted; no request is generated. */
  ghost predicate Admitted(P: Request -> bool, e: Request)
    decreases e
  {
    if e.Let? then
      Admitted(P, e.body) && forall k :: 0 <= k < |e.variables| ==> Admitted(P, e.variables[k].request)
    else
      && !e.Meta? && (IsNode(e) && !RunsHere(e) ==> forall c :: PostedAs(e, c) ==> P(c))
      && forall k :: 0 <= k < |Children(e)| ==> Admitted(P, Children(e)[k])
  }

  ghost predicate AdmittedIn(P: Request -> bool, env: Environment) {
    forall x :: x in env ==> Admitted(P, env[x])
  }

  lemma {:induction false} BindAdmitted(P: Request -> bool, env: Environment, bs: seq<Binding>)
    requires AdmittedIn(P, env) && forall k :: 0 <= k < |bs| ==> Admitted(P, bs[k].request)
    ensures AdmittedIn(P, Bind(env, bs))
    decreases |bs|
  {
    if bs != [] { BindAdmitted(P, env, bs[..|bs| - 1]); }
  }

  lemma {:induction false} LocalAddsOnly(
      P: Request -> bool, w: World, n: nat, S: Store, env: Environment, e: Request)
    requires AdmittedIn(P, env) && Admitted(P, e) && Local(w, n, S, env, e).Done?
    ensures AddsOnly(P, S, Local(w, n, S, env, e).value.1)
    decreases n, 0
  {
    if HandedToRemote(e) {
      LocalFetches(w, n, S, env, e);
      RemoteAddsOnly(P, w, n - 1, S, env, e);
    } else if IsNode(e) {
      LocalAllAddsOnly(P, w, n - 1, S, env, Children(e), ItemSchema(e));
    } else if e.Let? {
      BindAdmitted(P, env, e.variables);
      LocalAddsOnly(P, w, n - 1, S, Bind(env, e.variables), e.body);
    } else if e.Variable? {
      LocalAddsOnly(P, w, n - 1, S, env, env[e.name]);
    }
  }

  lemma {:induction false} LocalAllAddsOnly(
      P: Request -> bool, w: World, n: nat, S: Store, env: Environment, es: seq<Request>, schema: Option<Schema>)
    requires AdmittedIn(P, env) && (forall k :: 0 <= k < |es| ==> Admitted(P, es[k]))
    requires LocalAll(w, n, S, env, es, schema).Done?
    ensures AddsOnly(P, S, LocalAll(w, n, S, env, es, schema).value.1)
    decreases n, 1 + |es|
  {
    if es != [] {
      LocalAddsOnly(P, w, n, S, env, es[0]);
      LocalAllAddsOnly(P, w, n, Local(w, n, S, env, es[0]).value.1, env, es[1..], schema);
    }
  }

  lemma {:induction false} RemoteAddsOnly(
      P: Request -> bool, w: World, n: nat, S: Store, env: Environment, e: Request)
    requires AdmittedIn(P, env) && Admitted(P, e) && Remote(w, n, S, env, e).Done?
    ensures AddsOnly(P, S, Remote(w, n, S, env, e).value.1)
    decreases n, 0
  {
    if RunsHere(e) {
      PostsLocal(w, n, S, env, e);
      LocalAddsOnly(P, w, n - 1, S, env, e);
    } else if IsNode(e) {
      RemoteNodeAddsOnly(P, w, n, S, env, e);
    } else if e.Let? {
      BindAdmitted(P, env, e.variables);
      RemoteAddsOnly(P, w, n - 1, S, Bind(env, e.variables), e.body);
    } else if e.Variable? {
      RemoteAddsOnly(P, w, n - 1, S, env, env[e.name]);
    }
  }

  lemma {:induction false} RemoteNodeAddsOnly(
      P: Request -> bool, w: World, n: nat, S: Store, env: Environment, e: Request)
    requires n > 0 && AdmittedIn(P, env) && IsNode(e) && !RunsHere(e) && Remote(w, n, S, env, e).Done?
    requires forall k :: 0 <= k < |Children(e)| ==> Admitted(P, Children(e)[k])
    requires forall c :: PostedAs(e, c) ==> P(c)
    ensures AddsOnly(P, S, Remote(w, n, S, env, e).value.1)
    decreases n - 1, 2 + |Children(e)|
  {
    PostsShallow(w, n, S, env, e);
    RemoteAllAddsOnly(P, w, n - 1, S, env, Children(e));
    ShallowPosted(e, RemoteAll(w, n - 1, S, env, Children(e)).value.0);
  }

  lemma {:induction false} RemoteAllAddsOnly(
      P: Request -> bool, w: World, n: nat, S: Store, env: Environment, es: seq<Request>)
    requires AdmittedIn(P, env) && (forall k :: 0 <= k < |es| ==> Admitted(P, es[k]))
    requires RemoteAll(w, n, S, env, es).Done?
    ensures AddsOnly(P, S, RemoteAll(w, n, S, env, es).value.1)
    decreases n, 1 + |es|
  {
    if es != [] {
      RemoteAddsOnly(P, w, n, S, env, es[0]);
      RemoteAllAddsOnly(P, w, n, Remote(w, n, S, env, es[0]).value.1, env, es[1..]);
    }
  }

  // ----- functions that only run here -----

  predicate IsCallOf(e: Request, account: string, app: string, name: string) {
    e.Function? && e.account == account && e.app == app && e.name == name
  }

  /** The function, wherever it is called, asks to run here; no request is generated. */
  ghost predicate OnlyHere(account: string, app: string, name: string, e: Request)
    decreases e
  {
    if e.Let? then
      && OnlyHere(account, app, name, e.body)
      && forall k :: 0 <= k < |e.variables| ==> OnlyHere(account, app, name, e.variables[k].request)
    else
      && !e.Meta? && (IsCallOf(e, account, app, name) ==> e.host == Some(LOCAL))
      && forall k :: 0 <= k < |Children(e)| ==> OnlyHere(account, app, name, Children(e)[k])
  }

  lemma {:induction false} OnlyHereAdmitted(account: string, app: string, name: string, e: Request)
    requires OnlyHere(account, app, name, e)
    ensures Admitted((c: Request) => !IsCallOf(c, account, app, name), e)
    decreases e
  {
    var P := (c: Request) => !IsCallOf(c, account, app, name);
    if e.Let? {
      OnlyHereAdmitted(account, app, name, e.body);
      forall k | 0 <= k < |e.variables| ensures Admitted(P, e.variables[k].request) {
        OnlyHereAdmitted(account, app, name, e.variables[k].request);
      }
    } else {
      forall k | 0 <= k < |Children(e)| ensures Admitted(P, Children(e)[k]) {
        OnlyHereAdmitted(account, app, name, Children(e)[k]);
      }
    }
  }

  /** Neither resolver ever posts a calculation of a function that asks, in every call, to run
      here. */
  lemma {:induction false} LocalFunctionNeverPosted(
      w: World, n: nat, S: Store, env: Environment, e: Request, account: string, app: string, name: string, id: string)
    requires OnlyHere(account, app, name, e) && forall x :: x in env ==> OnlyHere(account, app, name, env[x])
    requires id !in S
    ensures var r := Remote(w, n, S, env, e);
            r.Done? && id in r.value.1 && r.value.1[id].Calc? ==> !IsCallOf(r.value.1[id].request, account, app, name)
    ensures var r := Local(w, n, S, env, e);
            r.Done? && id in r.value.1 && r.value.1[id].Calc? ==> !IsCallOf(r.value.1[id].request, account, app, name)
  {
    var P := (c: Request) => !IsCallOf(c, account, app, name);
    OnlyHereAdmitted(account, app, name, e);
    forall x | x in env ensures Admitted(P, env[x]) { OnlyHereAdmitted(account, app, name, env[x]); }
    if Remote(w, n, S, env, e).Done? { RemoteAddsOnly(P, w, n, S, env, e); }
    if Local(w, n, S, env, e).Done? { LocalAddsOnly(P, w, n, S, env, e); }
  }

  // ----- levels -----

  /** The call is somewhere in the request, or in a right-hand side inside it. */
  ghost predicate Within(g: Request, e: Request)
    decreases e
  {
    g == e ||
    if e.Let? then Within(g, e.body) || exists k :: 0 <= k < |e.variables| && Within(g, e.variables[k].request)
    else exists k :: 0 <= k < |Children(e)| && Within(g, Children(e)[k])
  }

  ghost predicate MetaFree(e: Request)
    decreases e
  {
    if e.Let? then MetaFree(e.body) && forall k :: 0 <= k < |e.variables| ==> MetaFree(e.variables[k].request)
    else !e.Meta? && forall k :: 0 <= k < |Children(e)| ==> MetaFree(Children(e)[k])
  }

  /** Some call of the function in the request or its environment asks for this level, or for
      none if it is 4. */
  ghost predicate LevelAsked(env: Environment, e: Request, c: Request)
    requires c.Function?
  {
    exists g :: Somewhere(env, e, g) && IsCallOf(g, c.account, c.app, c.name) && g.host != Some(LOCAL)
      && c.level == Some(if g.level.Some? then g.level.value else 4)
  }

  ghost predicate Somewhere(env: Environment, e: Request, g: Request) {
    Within(g, e) || exists x :: x in env && Within(g, env[x])
  }

  ghost function LevelsAsked(env: Environment, e: Request): Request -> bool {
    (c: Request) => c.Function? ==> LevelAsked(env, e, c)
  }

  lemma {:induction false} PartsAdmitted(env: Environment, e: Request, part: Request)
    requires MetaFree(part) && forall g :: Within(g, part) ==> Somewhere(env, e, g)
    ensures Admitted(LevelsAsked(env, e), part)
    decreases part
  {
    var P := LevelsAsked(env, e);
    if part.Let? {
      PartsAdmitted(env, e, part.body);
      forall k | 0 <= k < |part.variables| ensures Admitted(P, part.variables[k].request) {
        PartsAdmitted(env, e, part.variables[k].request);
      }
    } else {
      forall k | 0 <= k < |Children(part)| ensures Admitted(P, Children(part)[k]) {
        PartsAdmitted(env, e, Children(part)[k]);
      }
      assert Within(part, part);
    }
  }

  /** Every function calculation that the remote resolver adds has the level that a call of the
      function asks for, and 4 if the call asks for none. */
  lemma {:induction false} PostedLevels(w: World, n: nat, S: Store, env: Environment, e: Request, id: string)
    requires MetaFree(e) && (forall x :: x in env ==> MetaFree(env[x])) && Remote(w, n, S, env, e).Done?
    requires var S' := Remote(w, n, S, env, e).value.1; id !in S && id in S' && S'[id].Calc? && S'[id].request.Function?
    ensures LevelAsked(env, e, Remote(w, n, S, env, e).value.1[id].request)
  {
    PartsAdmitted(env, e, e);
    forall x | x in env ensures Admitted(LevelsAsked(env, e), env[x]) { PartsAdmitted(env, e, env[x]); }
    RemoteAddsOnly(LevelsAsked(env, e), w, n, S, env, e);
  }
}
