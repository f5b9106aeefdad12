/** The calculation-request language, the content-addressed store of Thinknode, and the
    environment semantics of requests. */
module Requests {
  import opened Wrappers

  datatype Dynamic =
    | Nil
    | Boolean(b: bool)
    | Integer(i: int)
    | Text(s: string)
    | Opaque(encoding: string)  // floats, datetimes and blobs
    | Array(items: seq<Dynamic>)
    | Map(entries: map<Dynamic, Dynamic>)

  /** A type, named by its URL form. */
  type Schema = string

  datatype Host = ANY | THINKNODE | LOCAL

  datatype Binding = Binding(name: string, request: Request)

  /** A calculation request.  A std::map is the sequence of its bindings in key order.
      A Thinknode request is one without lambdas and host selections. */
  datatype Request =
    | Reference(id: string)
    | Value(value: Dynamic)
    | Lambda(lambda: string, args: seq<Request>)
    | Function(account: string, app: string, name: string, host: Option<Host>, level: Option<int>, args: seq<Request>)
    | ArrayOf(items: seq<Request>, itemSchema: Schema)
    | Item(list: Request, index: Request, schema: Schema)
    | Object(properties: seq<Binding>, schema: Schema)
    | Property(record: Request, field: Request, schema: Schema)
    | Let(variables: seq<Binding>, body: Request)
    | Variable(name: string)
    | Meta(generator: Request, schema: Schema)
    | Cast(schema: Schema, record: Request)

  datatype Content = Data(value: Dynamic) | Calc(request: Request)

  type Store = map<string, Content>

  type Environment = map<string, Request>

  /** What the resolvers call but do not define: the functions of apps (the same locally and
      remotely), lambdas, coercion to a type, the decoding of generated requests, and the ids
      that Thinknode gives to contents. */
  datatype World = World(
    apply: (string, string, string, seq<Dynamic>) -> Option<Dynamic>,
    lambda: (string, seq<Dynamic>) -> Option<Dynamic>,
    coerce: (Schema, Dynamic) -> Option<Dynamic>,
    decode: Dynamic -> Option<Request>,
    id: Content -> string)

  /** Ids are collision-free and generated requests are closed. */
  ghost predicate Lawful(w: World) {
    && (forall c, d :: w.id(c) == w.id(d) ==> c == d)
    && (forall d :: w.decode(d).Some? ==> ClosedIn({}, w.decode(d).value))
  }

  /** An id of a content holds that content or nothing. */
  ghost predicate ValidStore(w: World, S: Store) {
    forall c :: w.id(c) in S ==> S[w.id(c)] == c
  }

  ghost predicate Extends(S: Store, S': Store) {
    forall id :: id in S ==> id in S' && S'[id] == S[id]
  }

  function Requested(bs: seq<Binding>): (r: seq<Request>)
    ensures |r| == |bs|
    ensures forall k :: 0 <= k < |bs| ==> r[k] == bs[k].request
  {
    seq(|bs|, k requires 0 <= k < |bs| => bs[k].request)
  }

  /** The same names with other requests. */
  function Rebound(bs: seq<Binding>, es: seq<Request>): (r: seq<Binding>)
    requires |bs| == |es|
    ensures |r| == |bs|
    ensures forall k :: 0 <= k < |bs| ==> r[k] == Binding(bs[k].name, es[k])
  {
    seq(|bs|, k requires 0 <= k < |bs| => Binding(bs[k].name, es[k]))
  }

  /** Assigns the bindings to the environment in order. */
  function Bind(env: Environment, bs: seq<Binding>): (r: Environment) {
    if bs == [] then env
    else Bind(env, bs[..|bs| - 1])[bs[|bs| - 1].name := bs[|bs| - 1].request]
  }

  function Named(bs: seq<Binding>, vs: seq<Dynamic>): (r: map<Dynamic, Dynamic>)
    requires |bs| == |vs|
  {
    if bs == [] then map[]
    else Named(bs[..|bs| - 1], vs[..|bs| - 1])[Text(bs[|bs| - 1].name) := vs[|bs| - 1]]
  }

  // ----- the requests inside a request -----

  /** A request whose value is put together from the values of its children. */
  predicate IsNode(e: Request) {
    e.Lambda? || e.Function? || e.ArrayOf? || e.Item? || e.Object? || e.Property? || e.Cast?
  }

  /** The children, in the order in which they are resolved. */
  function Children(e: Request): (r: seq<Request>)
    ensures forall k :: 0 <= k < |r| ==> r[k] < e
  {
    match e
    case Lambda(_, args) => args
    case Function(_, _, _, _, _, args) => args
    case ArrayOf(items, _) => items
    case Item(list, index, _) => [list, index]
    case Object(ps, _) => assert forall k :: 0 <= k < |ps| ==> ps[k] < e; Requested(ps)
    case Property(record, field, _) => [record, field]
    case Meta(generator, _) => [generator]
    case Cast(_, record) => [record]
    case _ => []
  }

  function WithChildren(e: Request, cs: seq<Request>): (r: Request)
    requires |cs| == |Children(e)|
    ensures Children(r) == cs
    ensures IsNode(r) == IsNode(e) && r.Meta? == e.Meta? && r.Let? == e.Let? && r.Variable? == e.Variable?
    ensures r.Reference? == e.Reference? && r.Value? == e.Value? && r.Lambda? == e.Lambda?
    ensures ItemSchema(r) == ItemSchema(e)
    ensures |cs| == 0 && !IsNode(e) ==> r == e
  {
    match e
    case Lambda(f, _) => Lambda(f, cs)
    case Function(account, app, name, host, level, _) => Function(account, app, name, host, level, cs)
    case ArrayOf(_, schema) => ArrayOf(cs, schema)
    case Item(_, _, schema) => Item(cs[0], cs[1], schema)
    case Object(ps, schema) => Object(Rebound(ps, cs), schema)
    case Property(_, _, schema) => Property(cs[0], cs[1], schema)
    case Meta(_, schema) => Meta(cs[0], schema)
    case Cast(schema, _) => Cast(schema, cs[0])
    case _ => e
  }

  /** The type that each child is coerced to: the items of an array are, one by one. */
  function ItemSchema(e: Request): (r: Option<Schema>) {
    if e.ArrayOf? then Some(e.itemSchema) else None
  }

  function CoerceTo(w: World, schema: Option<Schema>, v: Dynamic): (r: Option<Dynamic>)
    ensures schema.None? ==> r == Some(v)
  {
    if schema.None? then Some(v) else w.coerce(schema.value, v)
  }

  function ItemOf(w: World, list: Dynamic, index: Dynamic, schema: Schema): (r: Option<Dynamic>) {
    if list.Array? && index.Integer? && 0 <= index.i < |list.items|
    then w.coerce(schema, list.items[index.i]) else None
  }

  function PropertyOf(w: World, record: Dynamic, field: Dynamic, schema: Schema): (r: Option<Dynamic>) {
    if record.Map? && field.Text? && field in record.entries
    then w.coerce(schema, record.entries[field]) else None
  }

  /** The value of a node from the values of its children. */
  function Assemble(w: World, e: Request, vs: seq<Dynamic>): (r: Option<Dynamic>)
    requires IsNode(e) && |vs| == |Children(e)|
  {
    match e
    case Lambda(f, _) => w.lambda(f, vs)
    case Function(account, app, name, _, _, _) => w.apply(account, app, name, vs)
    case ArrayOf(_, _) => Some(Array(vs))
    case Item(_, _, schema) => ItemOf(w, vs[0], vs[1], schema)
    case Object(ps, schema) => w.coerce(schema, Map(Named(ps, vs)))
    case Property(_, _, schema) => PropertyOf(w, vs[0], vs[1], schema)
    case Cast(schema, _) => w.coerce(schema, vs[0])
  }

  lemma {:induction false} NamedByNames(bs: seq<Binding>, bs': seq<Binding>, vs: seq<Dynamic>)
    requires |bs| == |bs'| == |vs|
    requires forall k :: 0 <= k < |bs| ==> bs[k].name == bs'[k].name
    ensures Named(bs, vs) == Named(bs', vs)
    decreases |bs|
  {
    if bs != [] { NamedByNames(bs[..|bs| - 1], bs'[..|bs| - 1], vs[..|bs| - 1]); }
  }

  /** A function without its host and level; other requests as they are. */
  function Plain(e: Request): (r: Request)
    ensures Children(r) == Children(e) && IsNode(r) == IsNode(e) && ItemSchema(r) == ItemSchema(e)
    ensures !e.Function? ==> r == e
  {
    if e.Function? then e.(host := None, level := None) else e
  }

  /** Neither the children nor the host and level play a part in putting values together. */
  lemma {:induction false} AssembleSame(w: World, e: Request, e': Request, vs: seq<Dynamic>)
    requires IsNode(e) && |vs| == |Children(e)| && |Children(e')| == |Children(e)|
    requires Plain(e') == WithChildren(Plain(e), Children(e'))
    ensures IsNode(e') && Assemble(w, e', vs) == Assemble(w, e, vs) && ItemSchema(e') == ItemSchema(e)
  {
    if e.Object? { NamedByNames(e.properties, e'.properties, vs); }
  }

  // ----- closed requests -----

  ghost function Names(bs: seq<Binding>): set<string> {
    set b | b in bs :: b.name
  }

  /** Every variable that evaluation can look up is bound by `scope` or inside the request.
      Bindings are evaluated in the environment that contains them. */
  ghost predicate ClosedIn(scope: set<string>, e: Request)
    decreases e
  {
    if e.Let? then
      && (forall k :: 0 <= k < |e.variables| ==> ClosedIn(scope + Names(e.variables), e.variables[k].request))
      && ClosedIn(scope + Names(e.variables), e.body)
    else if e.Variable? then e.name in scope
    else forall k :: 0 <= k < |Children(e)| ==> ClosedIn(scope, Children(e)[k])
  }

  // ----- the environment semantics, by recursion depth -----

  /** The value named by an id: data, or the result of a calculation. */
  function Fetch(w: World, n: nat, S: Store, id: string): (r: Outcome<Dynamic>)
    decreases n, 0
  {
    if n == 0 then Exhausted
    else if id !in S then Failed
    else match S[id]
      case Data(v) => Done(v)
      case Calc(e) => Eval(w, n - 1, S, map[], e)
  }

  /** The value of a request in an environment of requests.  Where functions run plays no part. */
  function Eval(w: World, n: nat, S: Store, env: Environment, e: Request): (r: Outcome<Dynamic>)
    decreases n, 0
  {
    if n == 0 then Exhausted
    else if IsNode(e) then
      var vs :- EvalAll(w, n - 1, S, env, Children(e), ItemSchema(e));
      FromOption(Assemble(w, e, vs))
    else if e.Reference? then Fetch(w, n - 1, S, e.id)
    else if e.Value? then Done(e.value)
    else if e.Let? then Eval(w, n - 1, S, Bind(env, e.variables), e.body)
    else if e.Variable? then (if e.name in env then Eval(w, n - 1, S, env, env[e.name]) else Failed)
    else
      var g :- Eval(w, n - 1, S, env, e.generator);
      var r :- FromOption(w.decode(g));
      var v :- Eval(w, n - 1, S, env, r);
      FromOption(w.coerce(e.schema, v))
  }

  function EvalAll(w: World, n: nat, S: Store, env: Environment, es: seq<Request>, schema: Option<Schema>)
    : (r: Outcome<seq<Dynamic>>)
    ensures r.Done? ==> |r.value| == |es|
    decreases n, 1 + |es|
  {
    if es == [] then Done([])
    else
      var u :- Eval(w, n, S, env, es[0]);
      var v :- FromOption(CoerceTo(w, schema, u));
      var vs :- EvalAll(w, n, S, env, es[1..], schema);
      Done([v] + vs)
  }

  // ----- monotonicity -----

  lemma {:induction false} FetchMonotone(w: World, n: nat, m: nat, S: Store, S': Store, id: string)
    requires n <= m && Extends(S, S') && Fetch(w, n, S, id).Done?
    ensures Fetch(w, m, S', id) == Fetch(w, n, S, id)
    decreases n, 0
  {
    if S[id].Calc? { EvalMonotone(w, n - 1, m - 1, S, S', map[], S[id].request); }
  }

  /** A value once found is found in every larger store and at every greater depth. */
  lemma {:induction false} EvalMonotone(w: World, n: nat, m: nat, S: Store, S': Store, env: Environment, e: Request)
    requires n <= m && Extends(S, S') && Eval(w, n, S, env, e).Done?
    ensures Eval(w, m, S', env, e) == Eval(w, n, S, env, e)
    decreases n, 0
  {
    if IsNode(e) {
      EvalAllMonotone(w, n - 1, m - 1, S, S', env, Children(e), ItemSchema(e));
    } else if e.Reference? {
      FetchMonotone(w, n - 1, m - 1, S, S', e.id);
    } else if e.Let? {
      EvalMonotone(w, n - 1, m - 1, S, S', Bind(env, e.variables), e.body);
    } else if e.Variable? {
      EvalMonotone(w, n - 1, m - 1, S, S', env, env[e.name]);
    } else if e.Meta? {
      EvalMonotone(w, n - 1, m - 1, S, S', env, e.generator);
      EvalMonotone(w, n - 1, m - 1, S, S', env, w.decode(Eval(w, n - 1, S, env, e.generator).value).value);
    }
  }

  lemma {:induction false} EvalAllMonotone(
      w: World, n: nat, m: nat, S: Store, S': Store, env: Environment, es: seq<Request>, schema: Option<Schema>)
    requires n <= m && Extends(S, S') && EvalAll(w, n, S, env, es, schema).Done?
    ensures EvalAll(w, m, S', env, es, schema) == EvalAll(w, n, S, env, es, schema)
    decreases n, 1 + |es|
  {
    if es != [] {
      EvalMonotone(w, n, m, S, S', env, es[0]);
      EvalAllMonotone(w, n, m, S, S', env, es[1..], schema);
    }
  }

  // ----- closed requests do not see the environment -----

  ghost predicate Agree(scope: set<string>, env: Environment, env': Environment) {
    forall x :: x in scope ==> x in env && x in env' && env[x] == env'[x] && ClosedIn(scope, env[x])
  }

  lemma {:induction false} ClosedInLarger(scope: set<string>, scope': set<string>, e: Request)
    requires scope <= scope' && ClosedIn(scope, e)
    ensures ClosedIn(scope', e)
    decreases e
  {
    if e.Let? {
      var bs := e.variables;
      forall k | 0 <= k < |bs| ensures ClosedIn(scope' + Names(bs), bs[k].request) {
        ClosedInLarger(scope + Names(bs), scope' + Names(bs), bs[k].request);
      }
      ClosedInLarger(scope + Names(bs), scope' + Names(bs), e.body);
    } else if !e.Variable? {
      forall k | 0 <= k < |Children(e)| ensures ClosedIn(scope', Children(e)[k]) {
        ClosedInLarger(scope, scope', Children(e)[k]);
      }
    }
  }

  lemma {:induction false} AgreeAfterBind(scope: set<string>, env: Environment, env': Environment, bs: seq<Binding>)
    requires Agree(scope, env, env')
    requires forall k :: 0 <= k < |bs| ==> ClosedIn(scope + Names(bs), bs[k].request)
    ensures Agree(scope + Names(bs), Bind(env, bs), Bind(env', bs))
  {
    var r, r' := Bind(env, bs), Bind(env', bs);
    forall x | x in scope + Names(bs)
      ensures x in r && x in r' && r[x] == r'[x] && ClosedIn(scope + Names(bs), r[x])
    {
      BindSame(env, env', bs, x);
      if x !in Names(bs) {
        ClosedInLarger(scope, scope + Names(bs), env[x]);
      }
    }
  }

  lemma {:induction false} BindSame(env: Environment, env': Environment, bs: seq<Binding>, x: string)
    requires x in Names(bs) || (x in env && x in env' && env[x] == env'[x])
    ensures x in Bind(env, bs) && x in Bind(env', bs) && Bind(env, bs)[x] == Bind(env', bs)[x]
    ensures x in Names(bs) ==> BoundBy(bs, Bind(env, bs)[x])
    ensures x !in Names(bs) ==> Bind(env, bs)[x] == env[x]
    decreases |bs|
  {
    if bs != [] {
      var last := bs[|bs| - 1];
      var init := bs[..|bs| - 1];
      NamesLast(bs);
      if x != last.name {
        BindSame(env, env', init, x);
        if x in Names(init) {
          var k :| 0 <= k < |init| && init[k].request == Bind(env, init)[x];
          assert bs[k].request == Bind(env, bs)[x];
        }
      } else {
        assert bs[|bs| - 1].request == Bind(env, bs)[x];
      }
    }
  }

  ghost predicate BoundBy(bs: seq<Binding>, e: Request) {
    exists k :: 0 <= k < |bs| && bs[k].request == e
  }

  lemma {:induction false} NamesLast(bs: seq<Binding>)
    requires bs != []
    ensures Names(bs) == Names(bs[..|bs| - 1]) + {bs[|bs| - 1].name}
  {
    assert bs == bs[..|bs| - 1] + [bs[|bs| - 1]];
  }

  lemma {:induction false} ClosedEval(
      w: World, n: nat, S: Store, scope: set<string>, env: Environment, env': Environment, e: Request)
    requires Lawful(w) && Agree(scope, env, env') && ClosedIn(scope, e)
    ensures Eval(w, n, S, env, e) == Eval(w, n, S, env', e)
    decreases n, 1
  {
    if n > 0 {
      if IsNode(e) {
        ClosedEvalAll(w, n - 1, S, scope, env, env', Children(e), ItemSchema(e));
      } else if e.Let? {
        ClosedEvalLet(w, n, S, scope, env, env', e);
      } else if e.Variable? {
        ClosedEval(w, n - 1, S, scope, env, env', env[e.name]);
      } else if e.Meta? {
        ClosedEvalMeta(w, n, S, scope, env, env', e.generator, e.schema);
      }
    }
  }

  lemma {:induction false} ClosedEvalLet(
      w: World, n: nat, S: Store, scope: set<string>, env: Environment, env': Environment, e: Request)
    requires Lawful(w) && Agree(scope, env, env') && e.Let? && ClosedIn(scope, e) && n > 0
    ensures Eval(w, n, S, env, e) == Eval(w, n, S, env', e)
    decreases n, 0
  {
    AgreeAfterBind(scope, env, env', e.variables);
    ClosedEval(w, n - 1, S, scope + Names(e.variables), Bind(env, e.variables), Bind(env', e.variables), e.body);
  }

  lemma {:induction false} ClosedEvalMeta(
      w: World, n: nat, S: Store, scope: set<string>, env: Environment, env': Environment, generator: Request,
      schema: Schema)
    requires Lawful(w) && Agree(scope, env, env') && ClosedIn(scope, Meta(generator, schema)) && n > 0
    ensures Eval(w, n, S, env, Meta(generator, schema)) == Eval(w, n, S, env', Meta(generator, schema))
    decreases n, 0
  {
    assert Children(Meta(generator, schema))[0] == generator;
    ClosedEval(w, n - 1, S, scope, env, env', generator);
    var g := Eval(w, n - 1, S, env, generator);
    if g.Done? && w.decode(g.value).Some? {
      var r := w.decode(g.value).value;
      ClosedInLarger({}, scope, r);
      ClosedEval(w, n - 1, S, scope, env, env', r);
    }
  }

  lemma {:induction false} ClosedEvalAll(
      w: World, n: nat, S: Store, scope: set<string>, env: Environment, env': Environment, es: seq<Request>,
      schema: Option<Schema>)
    requires Lawful(w) && Agree(scope, env, env')
    requires forall k :: 0 <= k < |es| ==> ClosedIn(scope, es[k])
    ensures EvalAll(w, n, S, env, es, schema) == EvalAll(w, n, S, env', es, schema)
    decreases n, 2 + |es|
  {
    if es != [] {
      ClosedEval(w, n, S, scope, env, env', es[0]);
      ClosedEvalAll(w, n, S, scope, env, env', es[1..], schema);
    }
  }
}
