/** The two resolvers agree with the environment semantics, and hence with each other. */
module Agreement {
  import opened Wrappers
  import opened Requests
  import opened RequestForms
  import opened Resolvers

  ghost predicate Evals(w: World, S: Store, env: Environment, e: Request, v: Dynamic) {
    exists n: nat :: Eval(w, n, S, env, e) == Done(v)
  }

  /** The object that an id names in the store. */
  ghost predicate Denotes(w: World, S: Store, id: string, v: Dynamic) {
    exists n: nat :: Fetch(w, n, S, id) == Done(v)
  }

  ghost function Max(a: nat, b: nat): (r: nat)
    ensures a <= r && b <= r
  {
    if a < b then b else a
  }

  lemma {:induction false} ExtendsSelf(S: Store)
    ensures Extends(S, S)
  {
  }

  /** Values are unique. */
  lemma {:induction false} EvalsUnique(w: World, S: Store, env: Environment, e: Request, v: Dynamic, v': Dynamic)
    requires Evals(w, S, env, e, v) && Evals(w, S, env, e, v')
    ensures v == v'
  {
    var n: nat :| Eval(w, n, S, env, e) == Done(v);
    var m: nat :| Eval(w, m, S, env, e) == Done(v');
    EvalMonotone(w, n, Max(n, m), S, S, env, e);
    EvalMonotone(w, m, Max(n, m), S, S, env, e);
  }

  // ----- replacing parts of a request by others of the same value -----

  /** Whatever e evaluates to in env, e' evaluates to in env'. */
  ghost predicate Below(w: World, S: Store, env: Environment, e: Request, env': Environment, e': Request) {
    forall v :: Evals(w, S, env, e, v) ==> Evals(w, S, env', e', v)
  }

  ghost predicate BelowAll(
      w: World, S: Store, env: Environment, es: seq<Request>, env': Environment, es': seq<Request>) {
    |es| == |es'| && forall k :: 0 <= k < |es| ==> Below(w, S, env, es[k], env', es'[k])
  }

  lemma {:induction false} Step(
      w: World, S: Store, env: Environment, e: Request, env': Environment, e': Request, n: nat) returns (m: nat)
    requires Below(w, S, env, e, env', e') && Eval(w, n, S, env, e).Done?
    ensures forall k: nat :: m <= k ==> Eval(w, k, S, env', e') == Eval(w, n, S, env, e)
  {
    var v := Eval(w, n, S, env, e).value;
    assert Evals(w, S, env, e, v);
    m :| Eval(w, m, S, env', e') == Done(v);
    forall k: nat | m <= k ensures Eval(w, k, S, env', e') == Eval(w, n, S, env, e) {
      EvalMonotone(w, m, k, S, S, env', e');
    }
  }

  lemma {:induction false} StepAll(
      w: World, S: Store, env: Environment, es: seq<Request>, env': Environment, es': seq<Request>,
      schema: Option<Schema>, n: nat)
      returns (m: nat)
    requires BelowAll(w, S, env, es, env', es') && EvalAll(w, n, S, env, es, schema).Done?
    ensures forall k: nat :: m <= k ==> EvalAll(w, k, S, env', es', schema) == EvalAll(w, n, S, env, es, schema)
    decreases |es|
  {
    if es == [] {
      m := 0;
    } else {
      var m0 := Step(w, S, env, es[0], env', es'[0], n);
      var m1 := StepAll(w, S, env, es[1..], env', es'[1..], schema, n);
      m := Max(m0, m1);
    }
  }

  /** Replacing the children of a node, and its host and level, by others below. */
  lemma {:induction false} BelowNode(w: World, S: Store, env: Environment, e: Request, env': Environment, e': Request)
    requires IsNode(e) && BelowAll(w, S, env, Children(e), env', Children(e'))
    requires Plain(e') == WithChildren(Plain(e), Children(e'))
    ensures Below(w, S, env, e, env', e')
  {
    forall v | Evals(w, S, env, e, v) ensures Evals(w, S, env', e', v) {
      var n: nat :| Eval(w, n, S, env, e) == Done(v);
      var vs := EvalAll(w, n - 1, S, env, Children(e), ItemSchema(e)).value;
      var m := StepAll(w, S, env, Children(e), env', Children(e'), ItemSchema(e), n - 1);
      AssembleSame(w, e, e', vs);
      assert Eval(w, m + 1, S, env', e') == Done(v);
    }
  }

  /** Generated requests are closed, so they mean the same in both environments. */
  lemma {:induction false} BelowMeta(
      w: World, S: Store, env: Environment, e: Request, env': Environment, e': Request, schema: Schema)
    requires Lawful(w) && Below(w, S, env, e, env', e')
    ensures Below(w, S, env, Meta(e, schema), env', Meta(e', schema))
  {
    forall v | Evals(w, S, env, Meta(e, schema), v) ensures Evals(w, S, env', Meta(e', schema), v) {
      var n: nat :| Eval(w, n, S, env, Meta(e, schema)) == Done(v);
      MetaBelow(w, n, S, env, e, env', e', schema);
    }
  }

  lemma {:induction false} MetaBelow(
      w: World, n: nat, S: Store, env: Environment, e: Request, env': Environment, e': Request, schema: Schema)
    requires Lawful(w) && Below(w, S, env, e, env', e') && Eval(w, n, S, env, Meta(e, schema)).Done?
    ensures Evals(w, S, env', Meta(e', schema), Eval(w, n, S, env, Meta(e, schema)).value)
  {
    var m := Step(w, S, env, e, env', e', n - 1);
    var r := w.decode(Eval(w, n - 1, S, env, e).value).value;
    var k := Max(m, n);
    EvalMonotone(w, n - 1, k, S, S, env, r);
    ClosedEval(w, k, S, {}, env, env', r);
    assert Eval(w, k + 1, S, env', Meta(e', schema)) == Eval(w, n, S, env, Meta(e, schema));
  }

  // ----- an id that names the value of a request -----

  /** In S the id denotes exactly the value that e has in env. */
  ghost predicate Same(w: World, S: Store, env: Environment, e: Request, id: string) {
    Below(w, S, env, e, map[], Reference(id)) && Below(w, S, map[], Reference(id), env, e)
  }

  ghost predicate SameAll(w: World, S: Store, env: Environment, es: seq<Request>, ids: seq<string>) {
    |es| == |ids| && forall k :: 0 <= k < |es| ==> Same(w, S, env, es[k], ids[k])
  }

  lemma {:induction false} ReferenceDenotes(w: World, S: Store, env: Environment, id: string, v: Dynamic)
    ensures Evals(w, S, env, Reference(id), v) <==> Denotes(w, S, id, v)
  {
    if Denotes(w, S, id, v) {
      var n: nat :| Fetch(w, n, S, id) == Done(v);
      assert Eval(w, n + 1, S, env, Reference(id)) == Done(v);
    }
    if Evals(w, S, env, Reference(id), v) {
      var n: nat :| Eval(w, n, S, env, Reference(id)) == Done(v);
      assert Fetch(w, n - 1, S, id) == Done(v);
    }
  }

  lemma {:induction false} SameDenotes(w: World, S: Store, env: Environment, e: Request, id: string)
    requires Same(w, S, env, e, id)
    ensures forall v :: Denotes(w, S, id, v) <==> Evals(w, S, env, e, v)
  {
    forall v ensures Denotes(w, S, id, v) <==> Evals(w, S, env, e, v) {
      ReferenceDenotes(w, S, map[], id, v);
    }
  }

  /** An id that holds a calculation of the value of e. */
  lemma {:induction false} SameAsPosted(w: World, S: Store, env: Environment, e: Request, id: string, shallow: Request)
    requires Lawful(w) && id in S && S[id] == Calc(Sanitize(shallow))
    requires Below(w, S, env, e, map[], shallow) && Below(w, S, map[], shallow, env, e)
    ensures Same(w, S, env, e, id)
  {
    forall v ensures Denotes(w, S, id, v) <==> Evals(w, S, map[], shallow, v) {
      if Denotes(w, S, id, v) {
        var n: nat :| Fetch(w, n, S, id) == Done(v);
        RewritingKeepsMeaning(w, n - 1, S, shallow);
      }
      if Evals(w, S, map[], shallow, v) {
        var n: nat :| Eval(w, n, S, map[], shallow) == Done(v);
        RewritingKeepsMeaning(w, n, S, shallow);
        assert Fetch(w, n + 1, S, id) == Done(v);
      }
    }
    forall v ensures Evals(w, S, map[], Reference(id), v) <==> Denotes(w, S, id, v) {
      ReferenceDenotes(w, S, map[], id, v);
    }
  }

  /** An id that holds the value of e. */
  lemma {:induction false} SameAsData(w: World, S: Store, env: Environment, e: Request, id: string, v: Dynamic)
    requires id in S && S[id] == Data(v) && Evals(w, S, env, e, v)
    ensures Same(w, S, env, e, id)
  {
    assert Fetch(w, 1, S, id) == Done(v);
    assert Denotes(w, S, id, v);
    forall u ensures Evals(w, S, map[], Reference(id), u) <==> u == v {
      ReferenceDenotes(w, S, map[], id, u);
    }
    forall u | Evals(w, S, env, e, u) ensures u == v { EvalsUnique(w, S, env, e, u, v); }
  }

  lemma {:induction false} SameLet(w: World, S: Store, env: Environment, bs: seq<Binding>, body: Request, id: string)
    requires Same(w, S, Bind(env, bs), body, id)
    ensures Same(w, S, env, Let(bs, body), id)
  {
    forall v ensures Evals(w, S, env, Let(bs, body), v) <==> Evals(w, S, Bind(env, bs), body, v) {
      if Evals(w, S, Bind(env, bs), body, v) {
        var n: nat :| Eval(w, n, S, Bind(env, bs), body) == Done(v);
        assert Eval(w, n + 1, S, env, Let(bs, body)) == Done(v);
      }
      if Evals(w, S, env, Let(bs, body), v) {
        var n: nat :| Eval(w, n, S, env, Let(bs, body)) == Done(v);
        assert Eval(w, n - 1, S, Bind(env, bs), body) == Done(v);
      }
    }
  }

  lemma {:induction false} SameVariable(w: World, S: Store, env: Environment, x: string, id: string)
    requires x in env && Same(w, S, env, env[x], id)
    ensures Same(w, S, env, Variable(x), id)
  {
    forall v ensures Evals(w, S, env, Variable(x), v) <==> Evals(w, S, env, env[x], v) {
      if Evals(w, S, env, env[x], v) {
        var n: nat :| Eval(w, n, S, env, env[x]) == Done(v);
        assert Eval(w, n + 1, S, env, Variable(x)) == Done(v);
      }
      if Evals(w, S, env, Variable(x), v) {
        var n: nat :| Eval(w, n, S, env, Variable(x)) == Done(v);
        assert Eval(w, n - 1, S, env, env[x]) == Done(v);
      }
    }
  }

  // ----- soundness: what a resolver returns is right in every later store -----

  lemma {:induction false} LocalSound(w: World, n: nat, S: Store, T: Store, env: Environment, e: Request)
    requires Lawful(w) && ValidStore(w, S) && ValidStore(w, T) && Local(w, n, S, env, e).Done?
    requires Extends(Local(w, n, S, env, e).value.1, T)
    ensures Evals(w, T, env, e, Local(w, n, S, env, e).value.0)
    decreases n, 1
  {
    var (v, S') := Local(w, n, S, env, e).value;
    if HandedToRemote(e) {
      LocalRemoteSound(w, n, S, T, env, e);
    } else if IsNode(e) {
      var m := LocalAllSound(w, n - 1, S, T, env, Children(e), ItemSchema(e));
      assert Eval(w, m + 1, T, env, e) == Done(v);
    } else if e.Reference? {
      FetchMonotone(w, n - 1, n - 1, S, T, e.id);
      assert Eval(w, n, T, env, e) == Done(v);
    } else if e.Value? {
      assert Eval(w, 1, T, env, e) == Done(v);
    } else if e.Let? {
      LocalSound(w, n - 1, S, T, Bind(env, e.variables), e.body);
      var m: nat :| Eval(w, m, T, Bind(env, e.variables), e.body) == Done(v);
      assert Eval(w, m + 1, T, env, e) == Done(v);
    } else if e.Variable? {
      LocalSound(w, n - 1, S, T, env, env[e.name]);
      var m: nat :| Eval(w, m, T, env, env[e.name]) == Done(v);
      assert Eval(w, m + 1, T, env, e) == Done(v);
    } else {
      LocalMetaSound(w, n, S, T, env, e);
    }
  }

  lemma {:induction false} LocalRemoteSound(w: World, n: nat, S: Store, T: Store, env: Environment, e: Request)
    requires Lawful(w) && ValidStore(w, S) && ValidStore(w, T) && n > 0 && Local(w, n, S, env, e).Done?
    requires Extends(Local(w, n, S, env, e).value.1, T) && HandedToRemote(e)
    ensures Evals(w, T, env, e, Local(w, n, S, env, e).value.0)
    decreases n, 0
  {
    var (id, S1) := Remote(w, n - 1, S, env, e).value;
    RemoteSound(w, n - 1, S, T, env, e);
    SameDenotes(w, T, env, e, id);
    FetchMonotone(w, n - 1, n - 1, S1, T, id);
    assert Denotes(w, T, id, Fetch(w, n - 1, S1, id).value);
  }

  lemma {:induction false} LocalMetaSound(w: World, n: nat, S: Store, T: Store, env: Environment, e: Request)
    requires Lawful(w) && ValidStore(w, S) && ValidStore(w, T) && n > 0 && Local(w, n, S, env, e).Done?
    requires Extends(Local(w, n, S, env, e).value.1, T) && e.Meta?
    ensures Evals(w, T, env, e, Local(w, n, S, env, e).value.0)
    decreases n, 0
  {
    var (g, S1) := Local(w, n - 1, S, env, e.generator).value;
    var r := w.decode(g).value;
    var (u, S2) := Local(w, n - 1, S1, env, r).value;
    LocalGrows(w, n - 1, S, env, e.generator);
    LocalGrows(w, n - 1, S1, env, r);
    LocalSound(w, n - 1, S, T, env, e.generator);
    LocalSound(w, n - 1, S1, T, env, r);
    var m0: nat :| Eval(w, m0, T, env, e.generator) == Done(g);
    var m1: nat :| Eval(w, m1, T, env, r) == Done(u);
    EvalMonotone(w, m0, Max(m0, m1), T, T, env, e.generator);
    EvalMonotone(w, m1, Max(m0, m1), T, T, env, r);
    assert Eval(w, Max(m0, m1) + 1, T, env, e) == Done(Local(w, n, S, env, e).value.0);
  }

  lemma {:induction false} LocalAllSound(
      w: World, n: nat, S: Store, T: Store, env: Environment, es: seq<Request>, schema: Option<Schema>)
      returns (m: nat)
    requires Lawful(w) && ValidStore(w, S) && ValidStore(w, T) && LocalAll(w, n, S, env, es, schema).Done?
    requires Extends(LocalAll(w, n, S, env, es, schema).value.1, T)
    ensures EvalAll(w, m, T, env, es, schema) == Done(LocalAll(w, n, S, env, es, schema).value.0)
    decreases n, 2 + |es|
  {
    if es == [] {
      m := 0;
    } else {
      var (u, S1) := Local(w, n, S, env, es[0]).value;
      LocalGrows(w, n, S, env, es[0]);
      LocalAllGrows(w, n, S1, env, es[1..], schema);
      LocalSound(w, n, S, T, env, es[0]);
      var m0: nat :| Eval(w, m0, T, env, es[0]) == Done(u);
      var m1 := LocalAllSound(w, n, S1, T, env, es[1..], schema);
      m := Max(m0, m1);
      EvalMonotone(w, m0, m, T, T, env, es[0]);
      EvalAllMonotone(w, m1, m, T, T, env, es[1..], schema);
    }
  }

  lemma {:induction false} RemoteSound(w: World, n: nat, S: Store, T: Store, env: Environment, e: Request)
    requires Lawful(w) && ValidStore(w, S) && ValidStore(w, T) && Remote(w, n, S, env, e).Done?
    requires Extends(Remote(w, n, S, env, e).value.1, T)
    ensures Same(w, T, env, e, Remote(w, n, S, env, e).value.0)
    decreases n, 1
  {
    var (id, S') := Remote(w, n, S, env, e).value;
    if HandedToLocal(e) {
      RemoteDataSound(w, n, S, T, env, e);
    } else if IsNode(e) || e.Meta? {
      RemoteShallowSound(w, n, S, T, env, e);
    } else if e.Reference? {
      forall v ensures Evals(w, T, env, e, v) <==> Evals(w, T, map[], Reference(id), v) {
        ReferenceDenotes(w, T, env, id, v);
        ReferenceDenotes(w, T, map[], id, v);
      }
    } else if e.Value? {
      assert Eval(w, 1, T, env, e) == Done(e.value);
      SameAsData(w, T, env, e, id, e.value);
    } else if e.Let? {
      RemoteSound(w, n - 1, S, T, Bind(env, e.variables), e.body);
      SameLet(w, T, env, e.variables, e.body, id);
    } else {
      RemoteSound(w, n - 1, S, T, env, env[e.name]);
      SameVariable(w, T, env, e.name, id);
    }
  }

  /** A request that the remote resolver hands to the local one, which does not hand it back. */
  lemma {:induction false} RemoteDataSound(w: World, n: nat, S: Store, T: Store, env: Environment, e: Request)
    requires Lawful(w) && ValidStore(w, S) && ValidStore(w, T) && n > 0 && Remote(w, n, S, env, e).Done?
    requires Extends(Remote(w, n, S, env, e).value.1, T) && HandedToLocal(e)
    ensures Same(w, T, env, e, Remote(w, n, S, env, e).value.0)
    decreases n, 0
  {
    var (v, S1) := Local(w, n - 1, S, env, e).value;
    LocalGrows(w, n - 1, S, env, e);
    PostGrows(w, S1, Data(v));
    LocalSound(w, n - 1, S, T, env, e);
    SameAsData(w, T, env, e, w.id(Data(v)), v);
  }

  /** A request posted in shallow form. */
  lemma {:induction false} RemoteShallowSound(w: World, n: nat, S: Store, T: Store, env: Environment, e: Request)
    requires Lawful(w) && ValidStore(w, S) && ValidStore(w, T) && n > 0 && Remote(w, n, S, env, e).Done?
    requires Extends(Remote(w, n, S, env, e).value.1, T) && !HandedToLocal(e) && (IsNode(e) || e.Meta?)
    ensures Same(w, T, env, e, Remote(w, n, S, env, e).value.0)
    decreases n, 0
  {
    var (ids, S1) := RemoteAll(w, n - 1, S, env, Children(e)).value;
    var shallow := ShallowForm(e, ids);
    RemoteAllGrows(w, n - 1, S, env, Children(e));
    PostGrows(w, S1, Calc(Sanitize(shallow)));
    RemoteAllSound(w, n - 1, S, T, env, Children(e));
    ShallowFormSame(w, T, env, e, ids);
    SameAsPosted(w, T, env, e, w.id(Calc(Sanitize(shallow))), shallow);
  }

  lemma {:induction false} ShallowFormSame(w: World, T: Store, env: Environment, e: Request, ids: seq<string>)
    requires Lawful(w) && (IsNode(e) || e.Meta?) && SameAll(w, T, env, Children(e), ids)
    ensures Below(w, T, env, e, map[], ShallowForm(e, ids)) && Below(w, T, map[], ShallowForm(e, ids), env, e)
  {
    var shallow := ShallowForm(e, ids);
    BothAll(w, T, env, Children(e), ids);
    if IsNode(e) {
      ShallowFormPlain(e, ids);
      BelowNode(w, T, env, e, map[], shallow);
      BelowNode(w, T, map[], shallow, env, e);
    } else {
      assert Below(w, T, env, Children(e)[0], map[], Refs(ids)[0])
          && Below(w, T, map[], Refs(ids)[0], env, Children(e)[0]);
      BelowMeta(w, T, env, e.generator, map[], Reference(ids[0]), e.schema);
      BelowMeta(w, T, map[], Reference(ids[0]), env, e.generator, e.schema);
    }
  }

  lemma {:induction false} ShallowFormPlain(e: Request, ids: seq<string>)
    requires IsNode(e) && |ids| == |Children(e)|
    ensures IsNode(ShallowForm(e, ids)) && Plain(ShallowForm(e, ids)) == WithChildren(Plain(e), Refs(ids))
    ensures Plain(e) == WithChildren(Plain(ShallowForm(e, ids)), Children(e))
  {
    if e.Object? {
      assert Rebound(e.properties, Requested(e.properties)) == e.properties;
      assert Rebound(Rebound(e.properties, Refs(ids)), Requested(e.properties)) == e.properties;
    }
  }

  lemma {:induction false} BothAll(w: World, T: Store, env: Environment, es: seq<Request>, ids: seq<string>)
    requires SameAll(w, T, env, es, ids)
    ensures BelowAll(w, T, env, es, map[], Refs(ids)) && BelowAll(w, T, map[], Refs(ids), env, es)
  {
    forall k | 0 <= k < |es|
      ensures Below(w, T, env, es[k], map[], Refs(ids)[k]) && Below(w, T, map[], Refs(ids)[k], env, es[k])
    {
      assert Same(w, T, env, es[k], ids[k]);
    }
  }

  lemma {:induction false} RemoteAllSound(w: World, n: nat, S: Store, T: Store, env: Environment, es: seq<Request>)
    requires Lawful(w) && ValidStore(w, S) && ValidStore(w, T) && RemoteAll(w, n, S, env, es).Done?
    requires Extends(RemoteAll(w, n, S, env, es).value.1, T)
    ensures SameAll(w, T, env, es, RemoteAll(w, n, S, env, es).value.0)
    decreases n, 2 + |es|
  {
    if es != [] {
      var (id, S1) := Remote(w, n, S, env, es[0]).value;
      RemoteGrows(w, n, S, env, es[0]);
      RemoteAllGrows(w, n, S1, env, es[1..]);
      RemoteSound(w, n, S, T, env, es[0]);
      RemoteAllSound(w, n, S1, T, env, es[1..]);
    }
  }
}
