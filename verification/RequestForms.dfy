/** Rewritings of requests that must not change their meaning: the default level that is
    filled in before posting, and the generic form of a Thinknode request. */
module RequestForms {
  import opened Wrappers
  import opened Requests

  /** How many children a rewriting visits: it leaves item indices and property fields alone. */
  function Visited(e: Request): (r: nat)
    ensures r <= |Children(e)|
  {
    if e.Item? || e.Property? then 1 else |Children(e)|
  }

  function Leveled(e: Request): (r: Request)
    ensures Children(r) == Children(e) && Plain(r) == Plain(e)
  {
    if e.Function? && e.level.None? then e.(level := Some(4)) else e
  }

  /** Fills in the default level 4. */
  function Sanitize(e: Request): (r: Request)
    decreases e
  {
    if e.Let? then
      Let(Rebound(e.variables,
          seq(|e.variables|, k requires 0 <= k < |e.variables| => Sanitize(e.variables[k].request))),
          Sanitize(e.body))
    else if e.Lambda? then e  // not a Thinknode request
    else
      var cs := Children(e);
      WithChildren(Leveled(e), seq(|cs|, k requires 0 <= k < |cs| => if k < Visited(e) then Sanitize(cs[k]) else cs[k]))
  }

  function Hosted(e: Request): (r: Request)
    ensures Children(r) == Children(e) && Plain(r) == Plain(e)
  {
    if e.Function? then e.(host := Some(THINKNODE)) else e
  }

  /** The generic request that asks for every function to run in Thinknode. */
  function AsGeneric(e: Request): (r: Request)
    decreases e
  {
    if e.Let? then
      Let(Rebound(e.variables,
          seq(|e.variables|, k requires 0 <= k < |e.variables| => AsGeneric(e.variables[k].request))),
          AsGeneric(e.body))
    else if e.Lambda? then e  // not a Thinknode request
    else
      var cs := Children(e);
      WithChildren(Hosted(e), seq(|cs|, k requires 0 <= k < |cs| => AsGeneric(cs[k])))
  }

  // ----- requests that are the same up to hosts and levels -----

  ghost predicate Alike(e: Request, e': Request)
    decreases e
  {
    if e.Let? then
      && e'.Let? && |e'.variables| == |e.variables| && Alike(e.body, e'.body)
      && forall k :: 0 <= k < |e.variables| ==>
           e'.variables[k].name == e.variables[k].name && Alike(e.variables[k].request, e'.variables[k].request)
    else
      && |Children(e')| == |Children(e)| && Plain(e') == WithChildren(Plain(e), Children(e'))
      && forall k :: 0 <= k < |Children(e)| ==> Alike(Children(e)[k], Children(e')[k])
  }

  ghost predicate AlikeAll(es: seq<Request>, es': seq<Request>) {
    |es'| == |es| && forall k :: 0 <= k < |es| ==> Alike(es[k], es'[k])
  }

  ghost predicate AlikeEnvironments(env: Environment, env': Environment) {
    env'.Keys == env.Keys && forall x :: x in env ==> Alike(env[x], env'[x])
  }

  lemma {:induction false} AlikeSelf(e: Request)
    ensures Alike(e, e)
    decreases e
  {
    if e.Let? {
      AlikeSelf(e.body);
      forall k | 0 <= k < |e.variables| ensures Alike(e.variables[k].request, e.variables[k].request) {
        AlikeSelf(e.variables[k].request);
      }
    } else {
      forall k | 0 <= k < |Children(e)| ensures Alike(Children(e)[k], Children(e)[k]) { AlikeSelf(Children(e)[k]); }
      PlainChildren(e, e, Children(e));
    }
  }

  /** A request whose plain form differs from that of e at most in the children. */
  lemma {:induction false} PlainChildren(e: Request, top: Request, cs: seq<Request>)
    requires !e.Let? && Plain(top) == Plain(e) && Children(top) == Children(e) && |cs| == |Children(e)|
    ensures Plain(WithChildren(top, cs)) == WithChildren(Plain(e), cs)
    ensures cs == Children(e) ==> WithChildren(top, cs) == top
  {
    if e.Object? {
      assert Rebound(e.properties, Requested(e.properties)) == e.properties;
    }
  }

  lemma {:induction false} SanitizeAlike(e: Request)
    ensures Alike(e, Sanitize(e))
    decreases e
  {
    if e.Let? {
      SanitizeAlike(e.body);
      forall k | 0 <= k < |e.variables| ensures Alike(e.variables[k].request, Sanitize(e).variables[k].request) {
        SanitizeAlike(e.variables[k].request);
      }
    } else if e.Lambda? {
      AlikeSelf(e);
    } else {
      forall k | 0 <= k < |Children(e)| ensures Alike(Children(e)[k], Children(Sanitize(e))[k]) {
        SanitizeAlike(Children(e)[k]);
        AlikeSelf(Children(e)[k]);
      }
      PlainChildren(e, Leveled(e), Children(Sanitize(e)));
    }
  }

  lemma {:induction false} AsGenericAlike(e: Request)
    ensures Alike(e, AsGeneric(e))
    decreases e
  {
    if e.Let? {
      AsGenericAlike(e.body);
      forall k | 0 <= k < |e.variables| ensures Alike(e.variables[k].request, AsGeneric(e).variables[k].request) {
        AsGenericAlike(e.variables[k].request);
      }
    } else if e.Lambda? {
      AlikeSelf(e);
    } else {
      forall k | 0 <= k < |Children(e)| ensures Alike(Children(e)[k], Children(AsGeneric(e))[k]) {
        AsGenericAlike(Children(e)[k]);
      }
      PlainChildren(e, Hosted(e), Children(AsGeneric(e)));
    }
  }

  lemma {:induction false} AlikeBind(env: Environment, env': Environment, bs: seq<Binding>, bs': seq<Binding>)
    requires AlikeEnvironments(env, env') && |bs'| == |bs|
    requires forall k :: 0 <= k < |bs| ==> bs'[k].name == bs[k].name && Alike(bs[k].request, bs'[k].request)
    ensures AlikeEnvironments(Bind(env, bs), Bind(env', bs'))
    decreases |bs|
  {
    if bs != [] { AlikeBind(env, env', bs[..|bs| - 1], bs'[..|bs| - 1]); }
  }

  /** Hosts and levels do not matter to the value of a request. */
  lemma {:induction false} EvalAlike(
      w: World, n: nat, S: Store, env: Environment, env': Environment, e: Request, e': Request)
    requires Lawful(w) && AlikeEnvironments(env, env') && Alike(e, e')
    ensures Eval(w, n, S, env', e') == Eval(w, n, S, env, e)
    decreases n, 1
  {
    if n > 0 {
      if IsNode(e) {
        EvalNodeAlike(w, n, S, env, env', e, e');
      } else if e.Let? {
        EvalLetAlike(w, n, S, env, env', e, e');
      } else if e.Meta? {
        EvalMetaAlike(w, n, S, env, env', e, e');
      } else if e.Variable? {
        if e.name in env { EvalAlike(w, n - 1, S, env, env', env[e.name], env'[e.name]); }
      }
    }
  }

  lemma {:induction false} EvalNodeAlike(
      w: World, n: nat, S: Store, env: Environment, env': Environment, e: Request, e': Request)
    requires Lawful(w) && AlikeEnvironments(env, env') && Alike(e, e') && IsNode(e) && n > 0
    ensures Eval(w, n, S, env', e') == Eval(w, n, S, env, e)
    decreases n, 0
  {
    var cs, cs' := Children(e), Children(e');
    NodeAlike(w, e, e');
    EvalAllAlike(w, n - 1, S, env, env', cs, cs', ItemSchema(e));
    var vs := EvalAll(w, n - 1, S, env, cs, ItemSchema(e));
    if vs.Done? { AssembleSame(w, e, e', vs.value); }
  }

  lemma {:induction false} EvalLetAlike(
      w: World, n: nat, S: Store, env: Environment, env': Environment, e: Request, e': Request)
    requires Lawful(w) && AlikeEnvironments(env, env') && Alike(e, e') && e.Let? && n > 0
    ensures Eval(w, n, S, env', e') == Eval(w, n, S, env, e)
    decreases n, 0
  {
    AlikeBind(env, env', e.variables, e'.variables);
    EvalAlike(w, n - 1, S, Bind(env, e.variables), Bind(env', e'.variables), e.body, e'.body);
  }

  lemma {:induction false} NodeAlike(w: World, e: Request, e': Request)
    requires IsNode(e) && Alike(e, e')
    ensures IsNode(e') && ItemSchema(e') == ItemSchema(e) && AlikeAll(Children(e), Children(e'))
  {
    AssembleSame(w, e, e', seq(|Children(e)|, _ => Nil));
  }

  lemma {:induction false} EvalMetaAlike(
      w: World, n: nat, S: Store, env: Environment, env': Environment, e: Request, e': Request)
    requires Lawful(w) && AlikeEnvironments(env, env') && Alike(e, e') && e.Meta? && n > 0
    ensures Eval(w, n, S, env', e') == Eval(w, n, S, env, e)
    decreases n, 0
  {
    assert e' == Meta(Children(e')[0], e.schema) && Alike(Children(e)[0], Children(e')[0]);
    EvalAlike(w, n - 1, S, env, env', e.generator, e'.generator);
    var g := Eval(w, n - 1, S, env, e.generator);
    if g.Done? && w.decode(g.value).Some? {
      ClosedEval(w, n - 1, S, {}, env, env', w.decode(g.value).value);
    }
  }

  lemma {:induction false} EvalAllAlike(
      w: World, n: nat, S: Store, env: Environment, env': Environment, es: seq<Request>, es': seq<Request>,
      schema: Option<Schema>)
    requires Lawful(w) && AlikeEnvironments(env, env') && AlikeAll(es, es')
    ensures EvalAll(w, n, S, env', es', schema) == EvalAll(w, n, S, env, es, schema)
    decreases n, 2 + |es|
  {
    if es != [] {
      EvalAlike(w, n, S, env, env', es[0], es'[0]);
      EvalAllAlike(w, n, S, env, env', es[1..], es'[1..], schema);
    }
  }

  /** Neither rewriting changes the value of a request, at any recursion depth. */
  lemma {:induction false} RewritingKeepsMeaning(w: World, n: nat, S: Store, e: Request)
    requires Lawful(w)
    ensures Eval(w, n, S, map[], Sanitize(e)) == Eval(w, n, S, map[], e)
    ensures Eval(w, n, S, map[], AsGeneric(e)) == Eval(w, n, S, map[], e)
  {
    SanitizeAlike(e);
    AsGenericAlike(e);
    EvalAlike(w, n, S, map[], map[], e, Sanitize(e));
    EvalAlike(w, n, S, map[], map[], e, AsGeneric(e));
  }
}
