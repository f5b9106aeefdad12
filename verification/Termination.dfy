/** The two mutually recursive resolvers end on acyclic environments: some depth is enough for
    either to return a result or to fail. */
module Termination {
  import opened Wrappers
  import opened Requests
  import opened RequestForms
  import opened Resolvers
  import opened Agreement
  import opened Completeness
  import opened Depth

  /** Gives every name, or every id, a height. */
  type Heights = string -> nat

  // ----- acyclic requests, environments and stores -----

  /** No meta request, and only variables below `height`; right-hand sides, however deeply
      nested, have only variables below the name they are bound to. */
  ghost predicate Acyclic(names: Heights, height: nat, e: Request)
    decreases e
  {
    if e.Let? then
      && Acyclic(names, height, e.body)
      && forall k :: 0 <= k < |e.variables| ==> Acyclic(names, names(e.variables[k].name), e.variables[k].request)
    else if e.Variable? then names(e.name) < height
    else !e.Meta? && forall k :: 0 <= k < |Children(e)| ==> Acyclic(names, height, Children(e)[k])
  }

  ghost predicate AcyclicEnvironment(names: Heights, env: Environment) {
    forall x :: x in env ==> Acyclic(names, names(x), env[x])
  }

  /** Every id mentioned anywhere in a request is below `height`. */
  ghost predicate IdsBelow(ids: Heights, height: nat, e: Request)
    decreases e
  {
    if e.Let? then
      && IdsBelow(ids, height, e.body)
      && forall k :: 0 <= k < |e.variables| ==> IdsBelow(ids, height, e.variables[k].request)
    else if e.Reference? then ids(e.id) < height
    else forall k :: 0 <= k < |Children(e)| ==> IdsBelow(ids, height, Children(e)[k])
  }

  ghost predicate IdsBelowAll(ids: Heights, height: nat, env: Environment) {
    forall x :: x in env ==> IdsBelow(ids, height, env[x])
  }

  /** The id of a calculation is above the ids inside it, as ids that are hashes of their
      contents are. */
  ghost predicate IdsOrdered(w: World, ids: Heights) {
    forall e :: IdsBelow(ids, ids(w.id(Calc(e))), e)
  }

  /** A stored calculation mentions only ids below its own, and has no cyclic bindings. */
  ghost predicate AcyclicContent(ids: Heights, id: string, e: Request) {
    IdsBelow(ids, ids(id), e) && exists names: Heights, height: nat :: Acyclic(names, height, e)
  }

  ghost predicate AcyclicStore(ids: Heights, S: Store) {
    forall id :: id in S && S[id].Calc? ==> AcyclicContent(ids, id, S[id].request)
  }

  lemma {:induction false} BindAcyclic(names: Heights, env: Environment, bs: seq<Binding>)
    requires AcyclicEnvironment(names, env)
    requires forall k :: 0 <= k < |bs| ==> Acyclic(names, names(bs[k].name), bs[k].request)
    ensures AcyclicEnvironment(names, Bind(env, bs))
    decreases |bs|
  {
    if bs != [] { BindAcyclic(names, env, bs[..|bs| - 1]); }
  }

  lemma {:induction false} BindBelow(ids: Heights, height: nat, env: Environment, bs: seq<Binding>)
    requires IdsBelowAll(ids, height, env) && forall k :: 0 <= k < |bs| ==> IdsBelow(ids, height, bs[k].request)
    ensures IdsBelowAll(ids, height, Bind(env, bs))
    decreases |bs|
  {
    if bs != [] { BindBelow(ids, height, env, bs[..|bs| - 1]); }
  }

  // ----- evaluation ends -----

  ghost predicate FetchEnds(w: World, n: nat, S: Store, id: string) {
    !Fetch(w, n, S, id).Exhausted?
  }

  lemma {:induction false} FetchingEnds(w: World, S: Store, ids: Heights, id: string) returns (n: nat)
    requires AcyclicStore(ids, S)
    ensures FetchEnds(w, n, S, id)
    decreases 2 * ids(id) + 1, 0, Reference(id), 0
  {
    n := 0;
    if id in S && S[id].Calc? {
      var e := S[id].request;
      assert AcyclicContent(ids, id, e);
      var names: Heights, height: nat :| Acyclic(names, height, e);
      n := EvalEnds(w, S, ids, ids(id), names, height, map[], e);
    }
    n := n + 1;
  }

  lemma {:induction false} EvalEnds(
      w: World, S: Store, ids: Heights, top: nat, names: Heights, height: nat, env: Environment,
      e: Request) returns (n: nat)
    requires AcyclicStore(ids, S) && AcyclicEnvironment(names, env) && IdsBelowAll(ids, top, env)
    requires Acyclic(names, height, e) && IdsBelow(ids, top, e)
    ensures !Eval(w, n, S, env, e).Exhausted?
    decreases 2 * top, height, e, |Children(e)| + 1
  {
    n := 0;
    if IsNode(e) {
      n := EvalAllEnds(w, S, ids, top, names, height, env, e, 0);
      assert Children(e)[0..] == Children(e);
    } else if e.Reference? {
      n := FetchingEnds(w, S, ids, e.id);
    } else if e.Let? {
      BindAcyclic(names, env, e.variables);
      BindBelow(ids, top, env, e.variables);
      n := EvalEnds(w, S, ids, top, names, height, Bind(env, e.variables), e.body);
    } else if e.Variable? && e.name in env {
      n := EvalEnds(w, S, ids, top, names, names(e.name), env, env[e.name]);
    }
    n := n + 1;
  }

  lemma {:induction false} EvalAllEnds(
      w: World, S: Store, ids: Heights, top: nat, names: Heights, height: nat, env: Environment, e: Request, k: nat)
      returns (n: nat)
    requires AcyclicStore(ids, S) && AcyclicEnvironment(names, env) && IdsBelowAll(ids, top, env)
    requires IsNode(e) && Acyclic(names, height, e) && IdsBelow(ids, top, e) && k <= |Children(e)|
    ensures !EvalAll(w, n, S, env, Children(e)[k..], ItemSchema(e)).Exhausted?
    decreases 2 * top, height, e, |Children(e)| - k
  {
    n := 0;
    if k < |Children(e)| {
      var es := Children(e)[k..];
      var n0 := EvalEnds(w, S, ids, top, names, height, env, Children(e)[k]);
      var n1 := EvalAllEnds(w, S, ids, top, names, height, env, e, k + 1);
      assert es[1..] == Children(e)[k + 1..];
      n := Max(n0, n1);
      EvalFirstAndRestEnd(w, n0, n1, S, env, es, ItemSchema(e));
    }
  }

  lemma {:induction false} EvalFirstAndRestEnd(
      w: World, n: nat, m: nat, S: Store, env: Environment, es: seq<Request>, schema: Option<Schema>)
    requires es != [] && !Eval(w, n, S, env, es[0]).Exhausted? && !EvalAll(w, m, S, env, es[1..], schema).Exhausted?
    ensures !EvalAll(w, Max(n, m), S, env, es, schema).Exhausted?
  {
    EvalDeeper(w, n, Max(n, m), S, env, es[0]);
    EvalAllDeeper(w, m, Max(n, m), S, env, es[1..], schema);
  }

  // ----- the store stays acyclic -----

  lemma {:induction false} PostedAcyclic(w: World, ids: Heights, S: Store, e: Request, children: seq<string>)
    requires IdsOrdered(w, ids) && AcyclicStore(ids, S)
    requires IsNode(e) && !e.Lambda? && |children| == |Children(e)|
    ensures AcyclicStore(ids, PostCalc(w, S, ShallowForm(e, children)).1)
  {
    var c := Sanitize(ShallowForm(e, children));
    ShallowFormShallow(e, children);
    NodeSanitized(ShallowForm(e, children));
    assert Acyclic(_ => 0, 0, c) by {
      forall k | 0 <= k < |Children(c)| ensures Acyclic(_ => 0, 0, Children(c)[k]) { assert Children(c)[k].Reference?; }
    }
    assert AcyclicContent(ids, w.id(Calc(c)), c);
  }

  lemma {:induction false} NodeSanitized(e: Request)
    requires IsNode(e)
    ensures IsNode(Sanitize(e))
  {
  }

  lemma {:induction false} LocalKeepsAcyclic(
      w: World, ids: Heights, names: Heights, height: nat, n: nat, S: Store, env: Environment, e: Request)
    requires IdsOrdered(w, ids) && AcyclicStore(ids, S) && AcyclicEnvironment(names, env) && Acyclic(names, height, e)
    requires Local(w, n, S, env, e).Done?
    ensures AcyclicStore(ids, Local(w, n, S, env, e).value.1)
    decreases n, 0
  {
    if HandedToRemote(e) {
      LocalFetches(w, n, S, env, e);
      RemoteKeepsAcyclic(w, ids, names, height, n - 1, S, env, e);
    } else if IsNode(e) {
      LocalNodeKeepsAcyclic(w, ids, names, height, n, S, env, e);
    } else if e.Let? {
      BindAcyclic(names, env, e.variables);
      LocalKeepsAcyclic(w, ids, names, height, n - 1, S, Bind(env, e.variables), e.body);
    } else if e.Variable? {
      LocalKeepsAcyclic(w, ids, names, names(e.name), n - 1, S, env, env[e.name]);
    }
  }

  lemma {:induction false} LocalNodeKeepsAcyclic(
      w: World, ids: Heights, names: Heights, height: nat, n: nat, S: Store, env: Environment, e: Request)
    requires IdsOrdered(w, ids) && AcyclicStore(ids, S) && AcyclicEnvironment(names, env)
    requires IsNode(e) && !HandedToRemote(e) && forall k :: 0 <= k < |Children(e)| ==>
        Acyclic(names, height, Children(e)[k])
    requires n > 0 && Local(w, n, S, env, e).Done?
    ensures AcyclicStore(ids, Local(w, n, S, env, e).value.1)
    decreases n - 1, 2 + |Children(e)|
  {
    LocalAllKeepsAcyclic(w, ids, names, height, n - 1, S, env, Children(e), ItemSchema(e));
  }

  lemma {:induction false} LocalAllKeepsAcyclic(
      w: World, ids: Heights, names: Heights, height: nat, n: nat, S: Store, env: Environment, es: seq<Request>,
      schema: Option<Schema>)
    requires IdsOrdered(w, ids) && AcyclicStore(ids, S) && AcyclicEnvironment(names, env)
    requires forall k :: 0 <= k < |es| ==> Acyclic(names, height, es[k])
    requires LocalAll(w, n, S, env, es, schema).Done?
    ensures AcyclicStore(ids, LocalAll(w, n, S, env, es, schema).value.1)
    decreases n, 1 + |es|
  {
    if es != [] {
      LocalKeepsAcyclic(w, ids, names, height, n, S, env, es[0]);
      LocalAllKeepsAcyclic(w, ids, names, height, n, Local(w, n, S, env, es[0]).value.1, env, es[1..], schema);
    }
  }

  lemma {:induction false} RemoteKeepsAcyclic(
      w: World, ids: Heights, names: Heights, height: nat, n: nat, S: Store, env: Environment, e: Request)
    requires IdsOrdered(w, ids) && AcyclicStore(ids, S) && AcyclicEnvironment(names, env) && Acyclic(names, height, e)
    requires Remote(w, n, S, env, e).Done?
    ensures AcyclicStore(ids, Remote(w, n, S, env, e).value.1)
    decreases n, 0
  {
    if HandedToLocal(e) {
      PostsLocal(w, n, S, env, e);
      LocalKeepsAcyclic(w, ids, names, height, n - 1, S, env, e);
    } else if IsNode(e) {
      RemoteNodeKeepsAcyclic(w, ids, names, height, n, S, env, e);
    } else if e.Let? {
      BindAcyclic(names, env, e.variables);
      RemoteKeepsAcyclic(w, ids, names, height, n - 1, S, Bind(env, e.variables), e.body);
    } else if e.Variable? {
      RemoteKeepsAcyclic(w, ids, names, names(e.name), n - 1, S, env, env[e.name]);
    }
  }

  lemma {:induction false} RemoteNodeKeepsAcyclic(
      w: World, ids: Heights, names: Heights, height: nat, n: nat, S: Store, env: Environment, e: Request)
    requires IdsOrdered(w, ids) && AcyclicStore(ids, S) && AcyclicEnvironment(names, env)
    requires IsNode(e) && !HandedToLocal(e) && forall k :: 0 <= k < |Children(e)| ==>
        Acyclic(names, height, Children(e)[k])
    requires n > 0 && Remote(w, n, S, env, e).Done?
    ensures AcyclicStore(ids, Remote(w, n, S, env, e).value.1)
    decreases n - 1, 2 + |Children(e)|
  {
    PostsShallow(w, n, S, env, e);
    var (children, S1) := RemoteAll(w, n - 1, S, env, Children(e)).value;
    RemoteAllKeepsAcyclic(w, ids, names, height, n - 1, S, env, Children(e));
    PostedAcyclic(w, ids, S1, e, children);
  }

  lemma {:induction false} RemoteAllKeepsAcyclic(
      w: World, ids: Heights, names: Heights, height: nat, n: nat, S: Store, env: Environment, es: seq<Request>)
    requires IdsOrdered(w, ids) && AcyclicStore(ids, S) && AcyclicEnvironment(names, env)
    requires forall k :: 0 <= k < |es| ==> Acyclic(names, height, es[k])
    requires RemoteAll(w, n, S, env, es).Done?
    ensures AcyclicStore(ids, RemoteAll(w, n, S, env, es).value.1)
    decreases n, 1 + |es|
  {
    if es != [] {
      RemoteKeepsAcyclic(w, ids, names, height, n, S, env, es[0]);
      RemoteAllKeepsAcyclic(w, ids, names, height, n, Remote(w, n, S, env, es[0]).value.1, env, es[1..]);
    }
  }

  // ----- the resolvers end -----

  /** The one hand-over of a request to the other resolver counts as a step of its own: a request
      that is handed over is never handed back. */
  lemma {:induction false} LocalEnds(
      w: World, S: Store, ids: Heights, names: Heights, height: nat, env: Environment, e: Request) returns (n: nat)
    requires IdsOrdered(w, ids) && AcyclicStore(ids, S) && AcyclicEnvironment(names, env) && Acyclic(names, height, e)
    ensures !Local(w, n, S, env, e).Exhausted?
    decreases height, e, if HandedToRemote(e) then 1 else 0, |Children(e)| + 2
  {
    n := 0;
    if HandedToRemote(e) {
      n := LocalHandedEnds(w, S, ids, names, height, env, e);
    } else if IsNode(e) {
      n := LocalNodeEnds(w, S, ids, names, height, env, e);
    } else if e.Reference? {
      n := FetchingEnds(w, S, ids, e.id);
    } else if e.Let? {
      BindAcyclic(names, env, e.variables);
      n := LocalEnds(w, S, ids, names, height, Bind(env, e.variables), e.body);
    } else if e.Variable? && e.name in env {
      n := LocalEnds(w, S, ids, names, names(e.name), env, env[e.name]);
    }
    n := n + 1;
  }

  lemma {:induction false} LocalHandedEnds(
      w: World, S: Store, ids: Heights, names: Heights, height: nat, env: Environment, e: Request) returns (n: nat)
    requires IdsOrdered(w, ids) && AcyclicStore(ids, S) && AcyclicEnvironment(names, env) && Acyclic(names, height, e)
    requires HandedToRemote(e)
    ensures !Local(w, n + 1, S, env, e).Exhausted?
    decreases height, e, 1, |Children(e)| + 1
  {
    n := FetchedEnds(w, S, ids, names, height, env, e);
    LocalFetches(w, n + 1, S, env, e);
  }

  lemma {:induction false} FetchedEnds(
      w: World, S: Store, ids: Heights, names: Heights, height: nat, env: Environment, e: Request) returns (n: nat)
    requires IdsOrdered(w, ids) && AcyclicStore(ids, S) && AcyclicEnvironment(names, env) && Acyclic(names, height, e)
    requires HandedToRemote(e)
    ensures !RemotelyFetched(w, n, S, env, e).Exhausted?
    decreases height, e, 1, |Children(e)|
  {
    n := RemoteEnds(w, S, ids, names, height, env, e);
    var o := Remote(w, n, S, env, e);
    if o.Done? {
      RemoteKeepsAcyclic(w, ids, names, height, n, S, env, e);
      var m := FetchingEnds(w, o.value.1, ids, o.value.0);
      FetchDeeper(w, m, Max(n, m), o.value.1, o.value.0);
      RemoteDeeper(w, n, Max(n, m), S, env, e);
      n := Max(n, m);
    }
  }

  lemma {:induction false} LocalNodeEnds(
      w: World, S: Store, ids: Heights, names: Heights, height: nat, env: Environment, e: Request) returns (n: nat)
    requires IdsOrdered(w, ids) && AcyclicStore(ids, S) && AcyclicEnvironment(names, env) && Acyclic(names, height, e)
    requires IsNode(e) && !HandedToRemote(e)
    ensures !Local(w, n + 1, S, env, e).Exhausted?
    decreases height, e, 0, |Children(e)| + 1
  {
    n := LocalAllEnds(w, S, ids, names, height, env, e, 0);
    assert Children(e)[0..] == Children(e);
  }

  lemma {:induction false} LocalAllEnds(
      w: World, S: Store, ids: Heights, names: Heights, height: nat, env: Environment, e: Request,
      k: nat) returns (n: nat)
    requires IdsOrdered(w, ids) && AcyclicStore(ids, S) && AcyclicEnvironment(names, env) && Acyclic(names, height, e)
    requires IsNode(e) && k <= |Children(e)|
    ensures !LocalAll(w, n, S, env, Children(e)[k..], ItemSchema(e)).Exhausted?
    decreases height, e, 0, |Children(e)| - k
  {
    n := 0;
    if k < |Children(e)| {
      var es := Children(e)[k..];
      n := LocalEnds(w, S, ids, names, height, env, es[0]);
      assert es[1..] == Children(e)[k + 1..];
      var u := Local(w, n, S, env, es[0]);
      if u.Done? && CoerceTo(w, ItemSchema(e), u.value.0).Some? {
        LocalKeepsAcyclic(w, ids, names, height, n, S, env, es[0]);
        var m := LocalAllEnds(w, u.value.1, ids, names, height, env, e, k + 1);
        LocalFirstAndRestEnd(w, n, m, S, env, es, ItemSchema(e));
        n := Max(n, m);
      }
    }
  }

  lemma {:induction false} LocalFirstAndRestEnd(
      w: World, n: nat, m: nat, S: Store, env: Environment, es: seq<Request>, schema: Option<Schema>)
    requires es != [] && Local(w, n, S, env, es[0]).Done?
    requires !LocalAll(w, m, Local(w, n, S, env, es[0]).value.1, env, es[1..], schema).Exhausted?
    ensures !LocalAll(w, Max(n, m), S, env, es, schema).Exhausted?
  {
    LocalDeeper(w, n, Max(n, m), S, env, es[0]);
    LocalAllDeeper(w, m, Max(n, m), Local(w, n, S, env, es[0]).value.1, env, es[1..], schema);
  }

  lemma {:induction false} RemoteEnds(
      w: World, S: Store, ids: Heights, names: Heights, height: nat, env: Environment, e: Request) returns (n: nat)
    requires IdsOrdered(w, ids) && AcyclicStore(ids, S) && AcyclicEnvironment(names, env) && Acyclic(names, height, e)
    ensures !Remote(w, n, S, env, e).Exhausted?
    decreases height, e, if HandedToLocal(e) then 1 else 0, |Children(e)| + 2
  {
    n := 0;
    if HandedToLocal(e) {
      n := LocalEnds(w, S, ids, names, height, env, e);
      PostsLocal(w, n + 1, S, env, e);
    } else if IsNode(e) {
      n := RemoteNodeEnds(w, S, ids, names, height, env, e);
    } else if e.Let? {
      BindAcyclic(names, env, e.variables);
      n := RemoteEnds(w, S, ids, names, height, Bind(env, e.variables), e.body);
    } else if e.Variable? && e.name in env {
      n := RemoteEnds(w, S, ids, names, names(e.name), env, env[e.name]);
    }
    n := n + 1;
  }

  lemma {:induction false} RemoteNodeEnds(
      w: World, S: Store, ids: Heights, names: Heights, height: nat, env: Environment, e: Request) returns (n: nat)
    requires IdsOrdered(w, ids) && AcyclicStore(ids, S) && AcyclicEnvironment(names, env) && Acyclic(names, height, e)
    requires IsNode(e) && !HandedToLocal(e)
    ensures !Remote(w, n + 1, S, env, e).Exhausted?
    decreases height, e, 0, |Children(e)| + 1
  {
    n := RemoteAllEnds(w, S, ids, names, height, env, e, 0);
    assert Children(e)[0..] == Children(e);
    PostsShallow(w, n + 1, S, env, e);
  }

  lemma {:induction false} RemoteAllEnds(
      w: World, S: Store, ids: Heights, names: Heights, height: nat, env: Environment, e: Request,
      k: nat) returns (n: nat)
    requires IdsOrdered(w, ids) && AcyclicStore(ids, S) && AcyclicEnvironment(names, env) && Acyclic(names, height, e)
    requires IsNode(e) && k <= |Children(e)|
    ensures !RemoteAll(w, n, S, env, Children(e)[k..]).Exhausted?
    decreases height, e, 0, |Children(e)| - k
  {
    n := 0;
    if k < |Children(e)| {
      var es := Children(e)[k..];
      n := RemoteEnds(w, S, ids, names, height, env, es[0]);
      assert es[1..] == Children(e)[k + 1..];
      var u := Remote(w, n, S, env, es[0]);
      if u.Done? {
        RemoteKeepsAcyclic(w, ids, names, height, n, S, env, es[0]);
        var m := RemoteAllEnds(w, u.value.1, ids, names, height, env, e, k + 1);
        RemoteFirstAndRestEnd(w, n, m, S, env, es);
        n := Max(n, m);
      }
    }
  }

  lemma {:induction false} RemoteFirstAndRestEnd(w: World, n: nat, m: nat, S: Store, env: Environment, es: seq<Request>)
    requires es != [] && Remote(w, n, S, env, es[0]).Done?
    requires !RemoteAll(w, m, Remote(w, n, S, env, es[0]).value.1, env, es[1..]).Exhausted?
    ensures !RemoteAll(w, Max(n, m), S, env, es).Exhausted?
  {
    RemoteDeeper(w, n, Max(n, m), S, env, es[0]);
    RemoteAllDeeper(w, m, Max(n, m), Remote(w, n, S, env, es[0]).value.1, env, es[1..]);
  }

  // ----- the main result -----

  /** From depth n on, the run of a resolver no longer depends on the depth, and has ended. */
  ghost predicate LocalSettles(w: World, n: nat, S: Store, env: Environment, e: Request) {
    !Local(w, n, S, env, e).Exhausted? && forall m: nat :: n <= m ==> Local(w, m, S, env, e) == Local(w, n, S, env, e)
  }

  ghost predicate RemoteSettles(w: World, n: nat, S: Store, env: Environment, e: Request) {
    !Remote(w, n, S, env, e).Exhausted? && forall m: nat :: n <= m ==>
        Remote(w, m, S, env, e) == Remote(w, n, S, env, e)
  }

  /** On acyclic environments and stores both resolvers end, with a result or a failure, and the
      depth they are given plays no part once it suffices. */
  lemma {:induction false} ResolversEnd(
      w: World, S: Store, ids: Heights, names: Heights, height: nat, env: Environment, e: Request)
    requires IdsOrdered(w, ids) && AcyclicStore(ids, S) && AcyclicEnvironment(names, env) && Acyclic(names, height, e)
    ensures exists n: nat :: LocalSettles(w, n, S, env, e)
    ensures exists n: nat :: RemoteSettles(w, n, S, env, e)
  {
    var n := LocalEnds(w, S, ids, names, height, env, e);
    forall m: nat | n <= m ensures Local(w, m, S, env, e) == Local(w, n, S, env, e) { LocalDeeper(w, n, m, S, env, e); }
    assert LocalSettles(w, n, S, env, e);
    var k := RemoteEnds(w, S, ids, names, height, env, e);
    forall m: nat | k <= m ensures Remote(w, m, S, env, e) == Remote(w, k, S, env, e) {
      RemoteDeeper(w, k, m, S, env, e);
    }
    assert RemoteSettles(w, k, S, env, e);
  }

  /** A resolver that ends without a result was given a request without a value. */
  lemma {:induction false} FailureMeansNoValue(w: World, n: nat, S: Store, env: Environment, e: Request)
    requires Lawful(w) && ValidStore(w, S)
    requires Local(w, n, S, env, e).Failed? || Remote(w, n, S, env, e).Failed?
    ensures forall v :: !Evals(w, S, env, e, v)
  {
    forall v | Evals(w, S, env, e, v) ensures false {
      var k: nat :| Eval(w, k, S, env, e) == Done(v);
      var l := LocalComplete(w, k, S, env, e);
      var r := RemoteComplete(w, k, S, env, e);
      var m := Max(n, Max(l, r));
      LocalDeeper(w, l, m, S, env, e);
      RemoteDeeper(w, r, m, S, env, e);
      if Local(w, n, S, env, e).Failed? { LocalDeeper(w, n, m, S, env, e); } else { RemoteDeeper(w, n, m, S, env, e); }
    }
  }
}
