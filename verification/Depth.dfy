/** A run that has ended, with a result or a failure, ends in the same way at every greater
    recursion depth. */
module Depth {
  import opened Wrappers
  import opened Requests
  import opened Resolvers

  // ----- evaluation -----

  lemma {:induction false} FetchDeeper(w: World, n: nat, m: nat, S: Store, id: string)
    requires n <= m && !Fetch(w, n, S, id).Exhausted?
    ensures Fetch(w, m, S, id) == Fetch(w, n, S, id)
    decreases n, 0
  {
    if id in S && S[id].Calc? { EvalDeeper(w, n - 1, m - 1, S, map[], S[id].request); }
  }

  lemma {:induction false} EvalDeeper(w: World, n: nat, m: nat, S: Store, env: Environment, e: Request)
    requires n <= m && !Eval(w, n, S, env, e).Exhausted?
    ensures Eval(w, m, S, env, e) == Eval(w, n, S, env, e)
    decreases n, 0
  {
    if IsNode(e) {
      EvalAllDeeper(w, n - 1, m - 1, S, env, Children(e), ItemSchema(e));
    } else if e.Reference? {
      FetchDeeper(w, n - 1, m - 1, S, e.id);
    } else if e.Let? {
      EvalDeeper(w, n - 1, m - 1, S, Bind(env, e.variables), e.body);
    } else if e.Variable? {
      if e.name in env { EvalDeeper(w, n - 1, m - 1, S, env, env[e.name]); }
    } else if e.Meta? {
      EvalMetaDeeper(w, n, m, S, env, e);
    }
  }

  lemma {:induction false} EvalMetaDeeper(w: World, n: nat, m: nat, S: Store, env: Environment, e: Request)
    requires 0 < n <= m && !Eval(w, n, S, env, e).Exhausted? && e.Meta?
    ensures Eval(w, m, S, env, e) == Eval(w, n, S, env, e)
    decreases n - 1, 3
  {
    EvalDeeper(w, n - 1, m - 1, S, env, e.generator);
    var g := Eval(w, n - 1, S, env, e.generator);
    if g.Done? && w.decode(g.value).Some? { EvalDeeper(w, n - 1, m - 1, S, env, w.decode(g.value).value); }
  }

  lemma {:induction false} EvalAllDeeper(
      w: World, n: nat, m: nat, S: Store, env: Environment, es: seq<Request>, schema: Option<Schema>)
    requires n <= m && !EvalAll(w, n, S, env, es, schema).Exhausted?
    ensures EvalAll(w, m, S, env, es, schema) == EvalAll(w, n, S, env, es, schema)
    decreases n, 1 + |es|
  {
    if es != [] {
      EvalDeeper(w, n, m, S, env, es[0]);
      var u := Eval(w, n, S, env, es[0]);
      if u.Done? && CoerceTo(w, schema, u.value).Some? { EvalAllDeeper(w, n, m, S, env, es[1..], schema); }
    }
  }

  // ----- the local resolver -----

  lemma {:induction false} LocalDeeper(w: World, n: nat, m: nat, S: Store, env: Environment, e: Request)
    requires n <= m && !Local(w, n, S, env, e).Exhausted?
    ensures Local(w, m, S, env, e) == Local(w, n, S, env, e)
    decreases n, 0
  {
    if HandedToRemote(e) {
      LocalHandedDeeper(w, n, m, S, env, e);
    } else if IsNode(e) {
      LocalAllDeeper(w, n - 1, m - 1, S, env, Children(e), ItemSchema(e));
    } else if e.Reference? {
      FetchDeeper(w, n - 1, m - 1, S, e.id);
    } else if e.Let? {
      LocalDeeper(w, n - 1, m - 1, S, Bind(env, e.variables), e.body);
    } else if e.Variable? {
      if e.name in env { LocalDeeper(w, n - 1, m - 1, S, env, env[e.name]); }
    } else if e.Meta? {
      LocalMetaDeeper(w, n, m, S, env, e);
    }
  }

  function Fetched(w: World, n: nat, o: Outcome<(string, Store)>): (r: Outcome<(Dynamic, Store)>) {
    var (id, S) :- o;
    var v :- Fetch(w, n, S, id);
    Done((v, S))
  }

  function RemotelyFetched(w: World, n: nat, S: Store, env: Environment, e: Request): (r: Outcome<(Dynamic, Store)>) {
    Fetched(w, n, Remote(w, n, S, env, e))
  }

  lemma {:induction false} LocalFetches(w: World, n: nat, S: Store, env: Environment, e: Request)
    requires n > 0 && HandedToRemote(e)
    ensures Local(w, n, S, env, e) == RemotelyFetched(w, n - 1, S, env, e)
  {
  }

  lemma {:induction false} FetchedDeeper(w: World, n: nat, m: nat, o: Outcome<(string, Store)>)
    requires n <= m && !Fetched(w, n, o).Exhausted?
    ensures Fetched(w, m, o) == Fetched(w, n, o)
  {
    if o.Done? { FetchDeeper(w, n, m, o.value.1, o.value.0); }
  }

  lemma {:induction false} FetchedRemoteDeeper(w: World, n: nat, m: nat, S: Store, env: Environment, e: Request)
    requires n <= m && !RemotelyFetched(w, n, S, env, e).Exhausted?
    ensures RemotelyFetched(w, m, S, env, e) == RemotelyFetched(w, n, S, env, e)
    decreases n, 3
  {
    RemoteDeeper(w, n, m, S, env, e);
    FetchedDeeper(w, n, m, Remote(w, n, S, env, e));
  }

  lemma {:induction false} LocalHandedDeeper(w: World, n: nat, m: nat, S: Store, env: Environment, e: Request)
    requires 0 < n <= m && HandedToRemote(e) && !Local(w, n, S, env, e).Exhausted?
    ensures Local(w, m, S, env, e) == Local(w, n, S, env, e)
    decreases n - 1, 4
  {
    LocalFetches(w, n, S, env, e);
    FetchedRemoteDeeper(w, n - 1, m - 1, S, env, e);
    LocalFetches(w, m, S, env, e);
  }

  lemma {:induction false} LocalMetaDeeper(w: World, n: nat, m: nat, S: Store, env: Environment, e: Request)
    requires 0 < n <= m && !Local(w, n, S, env, e).Exhausted? && e.Meta?
    ensures Local(w, m, S, env, e) == Local(w, n, S, env, e)
    decreases n - 1, 3
  {
    LocalDeeper(w, n - 1, m - 1, S, env, e.generator);
    var g := Local(w, n - 1, S, env, e.generator);
    if g.Done? && w.decode(g.value.0).Some? {
      LocalDeeper(w, n - 1, m - 1, g.value.1, env, w.decode(g.value.0).value);
    }
  }

  lemma {:induction false} LocalAllDeeper(
      w: World, n: nat, m: nat, S: Store, env: Environment, es: seq<Request>, schema: Option<Schema>)
    requires n <= m && !LocalAll(w, n, S, env, es, schema).Exhausted?
    ensures LocalAll(w, m, S, env, es, schema) == LocalAll(w, n, S, env, es, schema)
    decreases n, 1 + |es|
  {
    if es != [] {
      LocalDeeper(w, n, m, S, env, es[0]);
      var u := Local(w, n, S, env, es[0]);
      if u.Done? && CoerceTo(w, schema, u.value.0).Some? { LocalAllDeeper(w, n, m, u.value.1, env, es[1..], schema); }
    }
  }

  // ----- the remote resolver -----

  lemma {:induction false} RemoteDeeper(w: World, n: nat, m: nat, S: Store, env: Environment, e: Request)
    requires n <= m && !Remote(w, n, S, env, e).Exhausted?
    ensures Remote(w, m, S, env, e) == Remote(w, n, S, env, e)
    decreases n, 0
  {
    if HandedToLocal(e) {
      LocalDeeper(w, n - 1, m - 1, S, env, e);
      PostsLocal(w, n, S, env, e);
      PostsLocal(w, m, S, env, e);
    } else if IsNode(e) || e.Meta? {
      RemoteAllDeeper(w, n - 1, m - 1, S, env, Children(e));
      PostsShallow(w, n, S, env, e);
      PostsShallow(w, m, S, env, e);
    } else if e.Let? {
      RemoteDeeper(w, n - 1, m - 1, S, Bind(env, e.variables), e.body);
    } else if e.Variable? {
      if e.name in env { RemoteDeeper(w, n - 1, m - 1, S, env, env[e.name]); }
    }
  }

  function PostedValue(w: World, o: Outcome<(Dynamic, Store)>): (r: Outcome<(string, Store)>) {
    var (v, S) :- o;
    Done(Post(w, S, Data(v)))
  }

  function PostedForm(w: World, e: Request, o: Outcome<(seq<string>, Store)>): (r: Outcome<(string, Store)>)
    requires o.Done? ==> |o.value.0| == |Children(e)|
  {
    var (ids, S) :- o;
    Done(PostCalc(w, S, ShallowForm(e, ids)))
  }

  lemma {:induction false} PostsLocal(w: World, n: nat, S: Store, env: Environment, e: Request)
    requires n > 0 && HandedToLocal(e)
    ensures Remote(w, n, S, env, e) == PostedValue(w, Local(w, n - 1, S, env, e))
  {
  }

  lemma {:induction false} PostsShallow(w: World, n: nat, S: Store, env: Environment, e: Request)
    requires n > 0 && !HandedToLocal(e) && (IsNode(e) || e.Meta?)
    ensures Remote(w, n, S, env, e) == PostedForm(w, e, RemoteAll(w, n - 1, S, env, Children(e)))
  {
  }

  lemma {:induction false} RemoteAllDeeper(w: World, n: nat, m: nat, S: Store, env: Environment, es: seq<Request>)
    requires n <= m && !RemoteAll(w, n, S, env, es).Exhausted?
    ensures RemoteAll(w, m, S, env, es) == RemoteAll(w, n, S, env, es)
    decreases n, 1 + |es|
  {
    if es != [] {
      RemoteDeeper(w, n, m, S, env, es[0]);
      var id := Remote(w, n, S, env, es[0]);
      if id.Done? { RemoteAllDeeper(w, n, m, id.value.1, env, es[1..]); }
    }
  }
}
