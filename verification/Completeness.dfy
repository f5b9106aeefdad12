/** Whatever has a value, both resolvers find; and what the remote resolver posts is shallow. */
module Completeness {
  import opened Wrappers
  import opened Requests
  import opened RequestForms
  import opened Resolvers
  import opened Agreement
  import opened Depth

  // ----- completeness -----

  lemma {:induction false} LocalComplete(w: World, n: nat, S: Store, env: Environment, e: Request) returns (m: nat)
    requires Lawful(w) && ValidStore(w, S) && Eval(w, n, S, env, e).Done?
    ensures Local(w, m, S, env, e).Done? && Local(w, m, S, env, e).value.0 == Eval(w, n, S, env, e).value
    decreases n, if HandedToRemote(e) then 1 else 0, 1
  {
    if HandedToRemote(e) {
      m := LocalViaRemote(w, n, S, env, e);
    } else if IsNode(e) {
      m := LocalAllComplete(w, n - 1, S, S, env, Children(e), ItemSchema(e));
      m := m + 1;
    } else if e.Reference? {
      m := n;
    } else if e.Value? {
      m := 1;
    } else if e.Let? {
      m := LocalComplete(w, n - 1, S, Bind(env, e.variables), e.body);
      m := m + 1;
    } else if e.Variable? {
      m := LocalComplete(w, n - 1, S, env, env[e.name]);
      m := m + 1;
    } else {
      m := LocalMetaComplete(w, n, S, env, e);
    }
  }

  lemma {:induction false} LocalViaRemote(w: World, n: nat, S: Store, env: Environment, e: Request) returns (m: nat)
    requires Lawful(w) && ValidStore(w, S) && Eval(w, n, S, env, e).Done? && HandedToRemote(e)
    ensures Local(w, m, S, env, e).Done? && Local(w, m, S, env, e).value.0 == Eval(w, n, S, env, e).value
    decreases n, 1, 0
  {
    var v := Eval(w, n, S, env, e).value;
    var k := RemoteComplete(w, n, S, env, e);
    var (id, S1) := Remote(w, k, S, env, e).value;
    RemoteGrows(w, k, S, env, e);
    ExtendsSelf(S1);
    RemoteSound(w, k, S, S1, env, e);
    SameDenotes(w, S1, env, e, id);
    EvalMonotone(w, n, n, S, S1, env, e);
    assert Evals(w, S1, env, e, v);
    var j: nat :| Fetch(w, j, S1, id) == Done(v);
    m := Max(k, j);
    RemoteDeeper(w, k, m, S, env, e);
    FetchMonotone(w, j, m, S1, S1, id);
    m := m + 1;
  }

  lemma {:induction false} LocalMetaComplete(w: World, n: nat, S: Store, env: Environment, e: Request) returns (m: nat)
    requires Lawful(w) && ValidStore(w, S) && Eval(w, n, S, env, e).Done? && e.Meta?
    ensures Local(w, m, S, env, e).Done? && Local(w, m, S, env, e).value.0 == Eval(w, n, S, env, e).value
    decreases n, 0, 0
  {
    var r := w.decode(Eval(w, n - 1, S, env, e.generator).value).value;
    var m0 := LocalComplete(w, n - 1, S, env, e.generator);
    LocalGrows(w, m0, S, env, e.generator);
    var S1 := Local(w, m0, S, env, e.generator).value.1;
    EvalMonotone(w, n - 1, n - 1, S, S1, env, r);
    var m1 := LocalComplete(w, n - 1, S1, env, r);
    m := Max(m0, m1);
    LocalDeeper(w, m0, m, S, env, e.generator);
    LocalDeeper(w, m1, m, S1, env, r);
    m := m + 1;
  }

  lemma {:induction false} LocalAllComplete(
      w: World, n: nat, S: Store, T: Store, env: Environment, es: seq<Request>, schema: Option<Schema>)
      returns (m: nat)
    requires Lawful(w) && ValidStore(w, T) && Extends(S, T) && EvalAll(w, n, S, env, es, schema).Done?
    ensures LocalAll(w, m, T, env, es, schema).Done?
    ensures LocalAll(w, m, T, env, es, schema).value.0 == EvalAll(w, n, S, env, es, schema).value
    decreases n, 2 + |es|, 0
  {
    if es == [] {
      m := 0;
    } else {
      EvalMonotone(w, n, n, S, T, env, es[0]);
      var m0 := LocalComplete(w, n, T, env, es[0]);
      LocalGrows(w, m0, T, env, es[0]);
      var T1 := Local(w, m0, T, env, es[0]).value.1;
      var m1 := LocalAllComplete(w, n, S, T1, env, es[1..], schema);
      m := Max(m0, m1);
      LocalDeeper(w, m0, m, T, env, es[0]);
      LocalAllDeeper(w, m1, m, T1, env, es[1..], schema);
    }
  }

  lemma {:induction false} RemoteComplete(w: World, n: nat, S: Store, env: Environment, e: Request) returns (m: nat)
    requires Lawful(w) && ValidStore(w, S) && Eval(w, n, S, env, e).Done?
    ensures Remote(w, m, S, env, e).Done?
    decreases n, if HandedToLocal(e) then 1 else 0, 1
  {
    if HandedToLocal(e) {
      m := LocalComplete(w, n, S, env, e);
    } else if IsNode(e) {
      m := RemoteAllComplete(w, n - 1, S, S, env, Children(e), ItemSchema(e));
    } else if e.Let? {
      m := RemoteComplete(w, n - 1, S, Bind(env, e.variables), e.body);
    } else if e.Variable? {
      m := RemoteComplete(w, n - 1, S, env, env[e.name]);
    } else if e.Meta? {
      m := RemoteComplete(w, n - 1, S, env, e.generator);
      RemoteOne(w, m, S, env, e.generator);
    } else {
      m := 0;
    }
    m := m + 1;
  }

  lemma {:induction false} RemoteOne(w: World, n: nat, S: Store, env: Environment, e: Request)
    requires Remote(w, n, S, env, e).Done?
    ensures RemoteAll(w, n, S, env, [e]).Done?
  {
    var S1 := Remote(w, n, S, env, e).value.1;
    assert [e][1..] == [] && RemoteAll(w, n, S1, env, [e][1..]).Done?;
  }

  lemma {:induction false} RemoteAllComplete(
      w: World, n: nat, S: Store, T: Store, env: Environment, es: seq<Request>, schema: Option<Schema>)
      returns (m: nat)
    requires Lawful(w) && ValidStore(w, T) && Extends(S, T) && EvalAll(w, n, S, env, es, schema).Done?
    ensures RemoteAll(w, m, T, env, es).Done?
    decreases n, 2 + |es|, 0
  {
    if es == [] {
      m := 0;
    } else {
      EvalMonotone(w, n, n, S, T, env, es[0]);
      var m0 := RemoteComplete(w, n, T, env, es[0]);
      RemoteGrows(w, m0, T, env, es[0]);
      var T1 := Remote(w, m0, T, env, es[0]).value.1;
      var m1 := RemoteAllComplete(w, n, S, T1, env, es[1..], schema);
      m := Max(m0, m1);
      RemoteDeeper(w, m0, m, T, env, es[0]);
      RemoteAllDeeper(w, m1, m, T1, env, es[1..]);
    }
  }

  // ----- the main results -----

  ghost predicate LocallyResolves(w: World, S: Store, env: Environment, e: Request, v: Dynamic) {
    exists n: nat :: Local(w, n, S, env, e).Done? && Local(w, n, S, env, e).value.0 == v
  }

  /** The id that the remote resolver returns denotes exactly the values that the local
      resolver computes, in the store left behind and in every later one. */
  lemma {:induction false} ResolversAgree(w: World, n: nat, S: Store, T: Store, env: Environment, e: Request)
    requires Lawful(w) && ValidStore(w, S) && ValidStore(w, T) && Remote(w, n, S, env, e).Done?
    requires Extends(Remote(w, n, S, env, e).value.1, T)
    ensures forall v :: Denotes(w, T, Remote(w, n, S, env, e).value.0, v) ==> LocallyResolves(w, T, env, e, v)
    ensures forall m: nat, v: Dynamic, S': Store ::
              Local(w, m, S, env, e) == Done((v, S')) && Extends(S', T) ==>
                  Denotes(w, T, Remote(w, n, S, env, e).value.0, v)
  {
    var id := Remote(w, n, S, env, e).value.0;
    RemoteSound(w, n, S, T, env, e);
    SameDenotes(w, T, env, e, id);
    forall v | Denotes(w, T, id, v) ensures LocallyResolves(w, T, env, e, v) {
      var k: nat :| Eval(w, k, T, env, e) == Done(v);
      var m := LocalComplete(w, k, T, env, e);
    }
    forall m: nat, v: Dynamic, S': Store | Local(w, m, S, env, e) == Done((v, S')) && Extends(S', T)
      ensures Denotes(w, T, id, v)
    {
      LocalSound(w, m, S, T, env, e);
    }
  }

  /** A request with a value is resolved by both, the local result is that value, and the
      remote result denotes it. */
  lemma {:induction false} ResolversFind(w: World, S: Store, env: Environment, e: Request, v: Dynamic)
    requires Lawful(w) && ValidStore(w, S) && Evals(w, S, env, e, v)
    ensures LocallyResolves(w, S, env, e, v)
    ensures exists n: nat ::
              && Remote(w, n, S, env, e).Done?
              && Denotes(w, Remote(w, n, S, env, e).value.1, Remote(w, n, S, env, e).value.0, v)
  {
    var k: nat :| Eval(w, k, S, env, e) == Done(v);
    var m := LocalComplete(w, k, S, env, e);
    var n := RemoteComplete(w, k, S, env, e);
    var (id, S') := Remote(w, n, S, env, e).value;
    RemoteGrows(w, n, S, env, e);
    ExtendsSelf(S');
    RemoteSound(w, n, S, S', env, e);
    SameDenotes(w, S', env, e, id);
    EvalMonotone(w, k, k, S, S', env, e);
    assert Evals(w, S', env, e, v);
  }

  /** Whatever one request resolves to, a request of the same meaning resolves to as well. */
  lemma {:induction false} ResolvesAlike(w: World, n: nat, S: Store, e: Request, e': Request)
    requires Lawful(w) && ValidStore(w, S) && Local(w, n, S, map[], e).Done?
    requires forall k: nat, T :: Eval(w, k, T, map[], e) == Eval(w, k, T, map[], e')
    ensures var (v, S') := Local(w, n, S, map[], e).value; LocallyResolves(w, S', map[], e', v)
  {
    var (v, S') := Local(w, n, S, map[], e).value;
    LocalGrows(w, n, S, map[], e);
    ExtendsSelf(S');
    LocalSound(w, n, S, S', map[], e);
    var k: nat :| Eval(w, k, S', map[], e) == Done(v);
    var m := LocalComplete(w, k, S', map[], e');
  }

  /** Sending every function of a request to Thinknode does not change what it resolves to: what
      either form resolves to, the other resolves to in the store left behind. */
  lemma {:induction false} GenericFormResolvesAlike(w: World, n: nat, S: Store, e: Request)
    requires Lawful(w) && ValidStore(w, S)
    ensures var r := Local(w, n, S, map[], AsGeneric(e)); r.Done? ==> LocallyResolves(w, r.value.1, map[], e, r.value.0)
    ensures var r := Local(w, n, S, map[], e); r.Done? ==> LocallyResolves(w, r.value.1, map[], AsGeneric(e), r.value.0)
  {
    forall k: nat, T: Store ensures Eval(w, k, T, map[], AsGeneric(e)) == Eval(w, k, T, map[], e) {
      RewritingKeepsMeaning(w, k, T, e);
    }
    if Local(w, n, S, map[], AsGeneric(e)).Done? { ResolvesAlike(w, n, S, AsGeneric(e), e); }
    if Local(w, n, S, map[], e).Done? { ResolvesAlike(w, n, S, e, AsGeneric(e)); }
  }

  // ----- posted calculations are shallow -----

  /** A node or meta request all of whose children are references: no let, no variable. */
  predicate Shallow(e: Request) {
    && (IsNode(e) || e.Meta?) && !e.Lambda? && (e.Function? ==> e.host.None?)
    && forall k :: 0 <= k < |Children(e)| ==> Children(e)[k].Reference?
  }

  ghost predicate ShallowStore(S: Store) {
    forall id :: id in S && S[id].Calc? ==> Shallow(S[id].request)
  }

  lemma {:induction false} ShallowFormShallow(e: Request, ids: seq<string>)
    requires (IsNode(e) || e.Meta?) && !e.Lambda? && |ids| == |Children(e)|
    ensures Shallow(ShallowForm(e, ids)) && Shallow(Sanitize(ShallowForm(e, ids)))
  {
    var r := ShallowForm(e, ids);
    forall k | 0 <= k < |Children(r)| ensures Children(Sanitize(r))[k] == Children(r)[k] {
      assert Children(r)[k] == Reference(ids[k]);
      assert Sanitize(Reference(ids[k])) == Reference(ids[k]);
    }
  }

  lemma {:induction false} LocalPostsShallow(w: World, n: nat, S: Store, env: Environment, e: Request)
    requires ShallowStore(S) && Local(w, n, S, env, e).Done?
    ensures ShallowStore(Local(w, n, S, env, e).value.1)
    decreases n, 0
  {
    if HandedToRemote(e) {
      RemotePostsShallow(w, n - 1, S, env, e);
    } else if IsNode(e) {
      LocalAllPostsShallow(w, n - 1, S, env, Children(e), ItemSchema(e));
    } else if e.Let? {
      LocalPostsShallow(w, n - 1, S, Bind(env, e.variables), e.body);
    } else if e.Variable? {
      LocalPostsShallow(w, n - 1, S, env, env[e.name]);
    } else if e.Meta? {
      var (g, S1) := Local(w, n - 1, S, env, e.generator).value;
      LocalPostsShallow(w, n - 1, S, env, e.generator);
      LocalPostsShallow(w, n - 1, S1, env, w.decode(g).value);
    }
  }

  lemma {:induction false} LocalAllPostsShallow(
      w: World, n: nat, S: Store, env: Environment, es: seq<Request>, schema: Option<Schema>)
    requires ShallowStore(S) && LocalAll(w, n, S, env, es, schema).Done?
    ensures ShallowStore(LocalAll(w, n, S, env, es, schema).value.1)
    decreases n, 1 + |es|
  {
    if es != [] {
      LocalPostsShallow(w, n, S, env, es[0]);
      LocalAllPostsShallow(w, n, Local(w, n, S, env, es[0]).value.1, env, es[1..], schema);
    }
  }

  /** Every calculation in the store after a run is shallow if every one before it was. */
  lemma {:induction false} RemotePostsShallow(w: World, n: nat, S: Store, env: Environment, e: Request)
    requires ShallowStore(S) && Remote(w, n, S, env, e).Done?
    ensures ShallowStore(Remote(w, n, S, env, e).value.1)
    decreases n, 0
  {
    if HandedToLocal(e) {
      LocalPostsShallow(w, n - 1, S, env, e);
    } else if IsNode(e) || e.Meta? {
      RemoteNodePostsShallow(w, n, S, env, e);
    } else if e.Let? {
      RemotePostsShallow(w, n - 1, S, Bind(env, e.variables), e.body);
    } else if e.Variable? {
      RemotePostsShallow(w, n - 1, S, env, env[e.name]);
    }
  }

  lemma {:induction false} RemoteNodePostsShallow(w: World, n: nat, S: Store, env: Environment, e: Request)
    requires n > 0 && ShallowStore(S) && Remote(w, n, S, env, e).Done? && !HandedToLocal(e) && (IsNode(e) || e.Meta?)
    ensures ShallowStore(Remote(w, n, S, env, e).value.1)
    decreases n - 1, 2 + |Children(e)|
  {
    PostsShallow(w, n, S, env, e);
    var (ids, S1) := RemoteAll(w, n - 1, S, env, Children(e)).value;
    RemoteAllPostsShallow(w, n - 1, S, env, Children(e));
    ShallowFormShallow(e, ids);
  }

  lemma {:induction false} RemoteAllPostsShallow(w: World, n: nat, S: Store, env: Environment, es: seq<Request>)
    requires ShallowStore(S) && RemoteAll(w, n, S, env, es).Done?
    ensures ShallowStore(RemoteAll(w, n, S, env, es).value.1)
    decreases n, 1 + |es|
  {
    if es != [] {
      RemotePostsShallow(w, n, S, env, es[0]);
      RemoteAllPostsShallow(w, n, Remote(w, n, S, env, es[0]).value.1, env, es[1..]);
    }
  }
}
