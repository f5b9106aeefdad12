/** The two resolvers as functions: one computes a value here, the other posts shallow
    calculations and returns the id of the result. */
module Resolvers {
  import opened Wrappers
  import opened Requests
  import opened RequestForms

  function Post(w: World, S: Store, c: Content): (r: (string, Store)) {
    (w.id(c), S[w.id(c) := c])
  }

  function PostCalc(w: World, S: Store, e: Request): (r: (string, Store)) {
    Post(w, S, Calc(Sanitize(e)))
  }

  function Refs(ids: seq<string>): (r: seq<Request>)
    ensures |r| == |ids| && forall k :: 0 <= k < |ids| ==> r[k] == Reference(ids[k])
  {
    seq(|ids|, k requires 0 <= k < |ids| => Reference(ids[k]))
  }

  /** A calculation whose children are references, without host selection. */
  function ShallowForm(e: Request, ids: seq<string>): (r: Request)
    requires |ids| == |Children(e)|
    ensures Children(r) == Refs(ids)
  {
    var top := if e.Function? then e.(host := None) else e;
    WithChildren(top, Refs(ids))
  }

  /** The function of a node runs where the other resolver works. */
  predicate HandedToRemote(e: Request) {
    e.Function? && e.host == Some(THINKNODE)
  }

  predicate HandedToLocal(e: Request) {
    e.Lambda? || (e.Function? && e.host == Some(LOCAL))
  }

  /** The local resolver. */
  function Local(w: World, n: nat, S: Store, env: Environment, e: Request): (r: Outcome<(Dynamic, Store)>)
    decreases n, 0
  {
    if n == 0 then Exhausted
    else if HandedToRemote(e) then
      var (id, S1) :- Remote(w, n - 1, S, env, e);
      var v :- Fetch(w, n - 1, S1, id);
      Done((v, S1))
    else if IsNode(e) then
      var (vs, S1) :- LocalAll(w, n - 1, S, env, Children(e), ItemSchema(e));
      var v :- FromOption(Assemble(w, e, vs));
      Done((v, S1))
    else if e.Reference? then
      var v :- Fetch(w, n - 1, S, e.id);
      Done((v, S))
    else if e.Value? then Done((e.value, S))
    else if e.Let? then Local(w, n - 1, S, Bind(env, e.variables), e.body)
    else if e.Variable? then (if e.name in env then Local(w, n - 1, S, env, env[e.name]) else Failed)
    else
      var (g, S1) :- Local(w, n - 1, S, env, e.generator);
      var r :- FromOption(w.decode(g));
      var (u, S2) :- Local(w, n - 1, S1, env, r);
      var v :- FromOption(w.coerce(e.schema, u));
      Done((v, S2))
  }

  function LocalAll(w: World, n: nat, S: Store, env: Environment, es: seq<Request>, schema: Option<Schema>)
    : (r: Outcome<(seq<Dynamic>, Store)>)
    ensures r.Done? ==> |r.value.0| == |es|
    decreases n, 1 + |es|
  {
    if es == [] then Done(([], S))
    else
      var (u, S1) :- Local(w, n, S, env, es[0]);
      var v :- FromOption(CoerceTo(w, schema, u));
      var (vs, S2) :- LocalAll(w, n, S1, env, es[1..], schema);
      Done(([v] + vs, S2))
  }

  /** The remote resolver. */
  function Remote(w: World, n: nat, S: Store, env: Environment, e: Request): (r: Outcome<(string, Store)>)
    decreases n, 0
  {
    if n == 0 then Exhausted
    else if HandedToLocal(e) then
      var (v, S1) :- Local(w, n - 1, S, env, e);
      Done(Post(w, S1, Data(v)))
    else if IsNode(e) || e.Meta? then
      var (ids, S1) :- RemoteAll(w, n - 1, S, env, Children(e));
      Done(PostCalc(w, S1, ShallowForm(e, ids)))
    else if e.Reference? then Done((e.id, S))
    else if e.Value? then Done(Post(w, S, Data(e.value)))
    else if e.Let? then Remote(w, n - 1, S, Bind(env, e.variables), e.body)
    else (if e.name in env then Remote(w, n - 1, S, env, env[e.name]) else Failed)
  }

  function RemoteAll(w: World, n: nat, S: Store, env: Environment, es: seq<Request>): (r: Outcome<(seq<string>, Store)>)
    ensures r.Done? ==> |r.value.0| == |es|
    decreases n, 1 + |es|
  {
    if es == [] then Done(([], S))
    else
      var (id, S1) :- Remote(w, n, S, env, es[0]);
      var (ids, S2) :- RemoteAll(w, n, S1, env, es[1..]);
      Done(([id] + ids, S2))
  }

  // ----- posting only ever adds -----

  ghost predicate Grows(w: World, S: Store, S': Store) {
    Extends(S, S') && ValidStore(w, S')
  }

  lemma {:induction false} PostGrows(w: World, S: Store, c: Content)
    requires Lawful(w) && ValidStore(w, S)
    ensures Grows(w, S, Post(w, S, c).1) && Post(w, S, c).1[Post(w, S, c).0] == c
  {
  }

  lemma {:induction false} LocalGrows(w: World, n: nat, S: Store, env: Environment, e: Request)
    requires Lawful(w) && ValidStore(w, S) && Local(w, n, S, env, e).Done?
    ensures Grows(w, S, Local(w, n, S, env, e).value.1)
    decreases n, 0
  {
    if HandedToRemote(e) {
      RemoteGrows(w, n - 1, S, env, e);
    } else if IsNode(e) {
      LocalAllGrows(w, n - 1, S, env, Children(e), ItemSchema(e));
    } else if e.Let? {
      LocalGrows(w, n - 1, S, Bind(env, e.variables), e.body);
    } else if e.Variable? {
      LocalGrows(w, n - 1, S, env, env[e.name]);
    } else if e.Meta? {
      var (g, S1) := Local(w, n - 1, S, env, e.generator).value;
      LocalGrows(w, n - 1, S, env, e.generator);
      LocalGrows(w, n - 1, S1, env, w.decode(g).value);
    }
  }

  lemma {:induction false} LocalAllGrows(
      w: World, n: nat, S: Store, env: Environment, es: seq<Request>, schema: Option<Schema>)
    requires Lawful(w) && ValidStore(w, S) && LocalAll(w, n, S, env, es, schema).Done?
    ensures Grows(w, S, LocalAll(w, n, S, env, es, schema).value.1)
    decreases n, 1 + |es|
  {
    if es != [] {
      LocalGrows(w, n, S, env, es[0]);
      LocalAllGrows(w, n, Local(w, n, S, env, es[0]).value.1, env, es[1..], schema);
    }
  }

  lemma {:induction false} RemoteGrows(w: World, n: nat, S: Store, env: Environment, e: Request)
    requires Lawful(w) && ValidStore(w, S) && Remote(w, n, S, env, e).Done?
    ensures Grows(w, S, Remote(w, n, S, env, e).value.1)
    decreases n, 0
  {
    if HandedToLocal(e) {
      LocalGrows(w, n - 1, S, env, e);
      var (v, S1) := Local(w, n - 1, S, env, e).value;
      PostGrows(w, S1, Data(v));
    } else if IsNode(e) || e.Meta? {
      RemoteAllGrows(w, n - 1, S, env, Children(e));
      var (ids, S1) := RemoteAll(w, n - 1, S, env, Children(e)).value;
      PostGrows(w, S1, Calc(Sanitize(ShallowForm(e, ids))));
    } else if e.Value? {
      PostGrows(w, S, Data(e.value));
    } else if e.Let? {
      RemoteGrows(w, n - 1, S, Bind(env, e.variables), e.body);
    } else if e.Variable? {
      RemoteGrows(w, n - 1, S, env, env[e.name]);
    }
  }

  lemma {:induction false} RemoteAllGrows(w: World, n: nat, S: Store, env: Environment, es: seq<Request>)
    requires Lawful(w) && ValidStore(w, S) && RemoteAll(w, n, S, env, es).Done?
    ensures Grows(w, S, RemoteAll(w, n, S, env, es).value.1)
    decreases n, 1 + |es|
  {
    if es != [] {
      RemoteGrows(w, n, S, env, es[0]);
      RemoteAllGrows(w, n, Remote(w, n, S, env, es[0]).value.1, env, es[1..]);
    }
  }
}
