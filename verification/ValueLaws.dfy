/** What each kind of request evaluates to, said of the values of its parts alone. */
module ValueLaws {
  import opened Wrappers
  import opened Requests
  import opened Agreement

  // ----- the values of parts -----

  ghost predicate EvalAllTo(w: World, S: Store, env: Environment, es: seq<Request>, vs: seq<Dynamic>) {
    |vs| == |es| && forall k :: 0 <= k < |es| ==> Evals(w, S, env, es[k], vs[k])
  }

  /** The value of a request, coerced. */
  ghost predicate EvalsAs(w: World, S: Store, env: Environment, e: Request, schema: Schema, v: Dynamic) {
    exists u :: Evals(w, S, env, e, u) && w.coerce(schema, u) == Some(v)
  }

  ghost predicate EvalAllAs(w: World, S: Store, env: Environment, es: seq<Request>, schema: Schema, vs: seq<Dynamic>) {
    |vs| == |es| && forall k :: 0 <= k < |es| ==> EvalsAs(w, S, env, es[k], schema, vs[k])
  }

  ghost predicate Part(
      w: World, n: nat, S: Store, env: Environment, e: Request, schema: Option<Schema>, v: Dynamic)
  {
    Eval(w, n, S, env, e).Done? && CoerceTo(w, schema, Eval(w, n, S, env, e).value) == Some(v)
  }

  ghost predicate Parts(
      w: World, n: nat, S: Store, env: Environment, es: seq<Request>, schema: Option<Schema>, vs: seq<Dynamic>)
  {
    |vs| == |es| && forall k :: 0 <= k < |es| ==> Part(w, n, S, env, es[k], schema, vs[k])
  }

  /** A list of requests evaluates at depth `n` iff each of them does. */
  lemma {:induction false} EvalAllParts(
      w: World, n: nat, S: Store, env: Environment, es: seq<Request>, schema: Option<Schema>, vs: seq<Dynamic>)
    ensures EvalAll(w, n, S, env, es, schema) == Done(vs) <==> Parts(w, n, S, env, es, schema, vs)
    decreases |es|
  {
    if es != [] && vs != [] {
      EvalAllParts(w, n, S, env, es[1..], schema, vs[1..]);
      assert vs == [vs[0]] + vs[1..];
      if Parts(w, n, S, env, es, schema, vs) { PartsBehindFirst(w, n, S, env, es, schema, vs); }
      if EvalAll(w, n, S, env, es, schema) == Done(vs) { PartsWithFirst(w, n, S, env, es, schema, vs); }
    }
  }

  lemma {:induction false} PartsBehindFirst(
      w: World, n: nat, S: Store, env: Environment, es: seq<Request>, schema: Option<Schema>, vs: seq<Dynamic>)
    requires es != [] && Parts(w, n, S, env, es, schema, vs)
    ensures Part(w, n, S, env, es[0], schema, vs[0]) && Parts(w, n, S, env, es[1..], schema, vs[1..])
  {
    forall k | 0 <= k < |es[1..]| ensures Part(w, n, S, env, es[1..][k], schema, vs[1..][k]) {
      assert Part(w, n, S, env, es[k + 1], schema, vs[k + 1]);
    }
  }

  lemma {:induction false} PartsWithFirst(
      w: World, n: nat, S: Store, env: Environment, es: seq<Request>, schema: Option<Schema>, vs: seq<Dynamic>)
    requires es != [] && vs != []
    requires Part(w, n, S, env, es[0], schema, vs[0]) && Parts(w, n, S, env, es[1..], schema, vs[1..])
    ensures Parts(w, n, S, env, es, schema, vs)
  {
    forall k | 0 <= k < |es| ensures Part(w, n, S, env, es[k], schema, vs[k]) {
      if k > 0 { assert Part(w, n, S, env, es[1..][k - 1], schema, vs[1..][k - 1]); }
    }
  }

  ghost predicate PartAt(w: World, S: Store, env: Environment, e: Request, schema: Option<Schema>, v: Dynamic) {
    exists u :: Evals(w, S, env, e, u) && CoerceTo(w, schema, u) == Some(v)
  }

  /** One depth is enough for all parts. */
  lemma {:induction false} CommonDepth(
      w: World, S: Store, env: Environment, es: seq<Request>, schema: Option<Schema>, vs: seq<Dynamic>) returns (n: nat)
    requires |vs| == |es| && forall k :: 0 <= k < |es| ==> PartAt(w, S, env, es[k], schema, vs[k])
    ensures Parts(w, n, S, env, es, schema, vs)
    decreases |es|
  {
    n := 0;
    if es != [] {
      var last := |es| - 1;
      assert forall k :: 0 <= k < last ==> es[..last][k] == es[k] && vs[..last][k] == vs[k];
      var n0 := CommonDepth(w, S, env, es[..last], schema, vs[..last]);
      var u :| Evals(w, S, env, es[last], u) && CoerceTo(w, schema, u) == Some(vs[last]);
      var n1: nat :| Eval(w, n1, S, env, es[last]) == Done(u);
      n := Max(n0, n1);
      forall k | 0 <= k < |es| ensures Part(w, n, S, env, es[k], schema, vs[k]) {
        if k < last {
          assert Part(w, n0, S, env, es[..last][k], schema, vs[..last][k]);
          EvalMonotone(w, n0, n, S, S, env, es[k]);
        } else {
          EvalMonotone(w, n1, n, S, S, env, es[k]);
        }
      }
    }
  }

  ghost predicate PartsEval(
      w: World, S: Store, env: Environment, e: Request, vs: seq<Dynamic>)
  {
    |vs| == |Children(e)| && forall k :: 0 <= k < |vs| ==> PartAt(w, S, env, Children(e)[k], ItemSchema(e), vs[k])
  }

  function Assembled(w: World, e: Request, o: Outcome<seq<Dynamic>>): (r: Outcome<Dynamic>)
    requires IsNode(e) && (o.Done? ==> |o.value| == |Children(e)|)
  {
    var vs :- o;
    FromOption(Assemble(w, e, vs))
  }

  lemma {:induction false} EvalAssembles(w: World, n: nat, S: Store, env: Environment, e: Request)
    requires IsNode(e) && n > 0
    ensures Eval(w, n, S, env, e) == Assembled(w, e, EvalAll(w, n - 1, S, env, Children(e), ItemSchema(e)))
  {
  }

  /** A node has the value that is put together from the values of its children. */
  lemma {:induction false} NodeValue(w: World, S: Store, env: Environment, e: Request, v: Dynamic)
    requires IsNode(e)
    ensures Evals(w, S, env, e, v) <==> exists vs :: PartsEval(w, S, env, e, vs) && Assemble(w, e, vs) == Some(v)
  {
    if Evals(w, S, env, e, v) {
      var n: nat :| Eval(w, n, S, env, e) == Done(v);
      var vs := NodeParts(w, n, S, env, e, v);
    }
    if vs :| PartsEval(w, S, env, e, vs) && Assemble(w, e, vs) == Some(v) {
      NodeOfParts(w, S, env, e, vs, v);
    }
  }

  lemma {:induction false} NodeParts(w: World, n: nat, S: Store, env: Environment, e: Request, v: Dynamic)
      returns (vs: seq<Dynamic>)
    requires IsNode(e) && Eval(w, n, S, env, e) == Done(v)
    ensures PartsEval(w, S, env, e, vs) && Assemble(w, e, vs) == Some(v)
  {
    var cs := Children(e);
    EvalAssembles(w, n, S, env, e);
    vs := EvalAll(w, n - 1, S, env, cs, ItemSchema(e)).value;
    EvalAllParts(w, n - 1, S, env, cs, ItemSchema(e), vs);
    forall k | 0 <= k < |vs| ensures PartAt(w, S, env, cs[k], ItemSchema(e), vs[k]) {
      PartEvals(w, n - 1, S, env, cs[k], ItemSchema(e), vs[k]);
    }
  }

  lemma {:induction false} PartEvals(
      w: World, n: nat, S: Store, env: Environment, e: Request, schema: Option<Schema>, v: Dynamic)
    requires Part(w, n, S, env, e, schema, v)
    ensures PartAt(w, S, env, e, schema, v)
  {
    assert Evals(w, S, env, e, Eval(w, n, S, env, e).value);
  }

  lemma {:induction false} NodeOfParts(w: World, S: Store, env: Environment, e: Request, vs: seq<Dynamic>, v: Dynamic)
    requires IsNode(e) && PartsEval(w, S, env, e, vs) && Assemble(w, e, vs) == Some(v)
    ensures Evals(w, S, env, e, v)
  {
    var n := CommonDepth(w, S, env, Children(e), ItemSchema(e), vs);
    EvalAllParts(w, n, S, env, Children(e), ItemSchema(e), vs);
    EvalAssembles(w, n + 1, S, env, e);
  }

  /** Where nothing is coerced, the parts are the values themselves. */
  lemma {:induction false} PlainParts(w: World, S: Store, env: Environment, e: Request, vs: seq<Dynamic>)
    requires IsNode(e) && !e.ArrayOf?
    ensures PartsEval(w, S, env, e, vs) <==> EvalAllTo(w, S, env, Children(e), vs)
  {
    if |vs| == |Children(e)| {
      forall k | 0 <= k < |vs|
        ensures PartAt(w, S, env, Children(e)[k], ItemSchema(e), vs[k]) <==> Evals(w, S, env, Children(e)[k], vs[k])
      {
      }
    }
  }

  lemma {:induction false} PlainNodeValue(w: World, S: Store, env: Environment, e: Request, v: Dynamic)
    requires IsNode(e) && !e.ArrayOf?
    ensures Evals(w, S, env, e, v)
       <==> exists vs :: EvalAllTo(w, S, env, Children(e), vs) && |vs| == |Children(e)| && Assemble(w, e, vs) == Some(v)
  {
    NodeValue(w, S, env, e, v);
    forall vs ensures PartsEval(w, S, env, e, vs) <==> EvalAllTo(w, S, env, Children(e), vs) {
      PlainParts(w, S, env, e, vs);
    }
  }

  // ----- the laws, kind by kind -----

  /** A function has the value of the app's function for the values of its arguments, in order. */
  lemma {:induction false} FunctionLaw(
      w: World, S: Store, env: Environment, account: string, app: string, name: string, host: Option<Host>,
      level: Option<int>, args: seq<Request>, v: Dynamic)
    ensures Evals(w, S, env, Function(account, app, name, host, level, args), v)
       <==> exists vs :: EvalAllTo(w, S, env, args, vs) && w.apply(account, app, name, vs) == Some(v)
  {
    PlainNodeValue(w, S, env, Function(account, app, name, host, level, args), v);
  }

  lemma {:induction false} LambdaLaw(
      w: World, S: Store, env: Environment, lambda: string, args: seq<Request>, v: Dynamic)
    ensures Evals(w, S, env, Lambda(lambda, args), v)
       <==> exists vs :: EvalAllTo(w, S, env, args, vs) && w.lambda(lambda, vs) == Some(v)
  {
    PlainNodeValue(w, S, env, Lambda(lambda, args), v);
  }

  /** An array has the values of its items, each coerced, in order. */
  lemma {:induction false} ArrayLaw(
      w: World, S: Store, env: Environment, items: seq<Request>, schema: Schema, v: Dynamic)
    ensures Evals(w, S, env, ArrayOf(items, schema), v) <==> v.Array? && EvalAllAs(w, S, env, items, schema, v.items)
  {
    var e := ArrayOf(items, schema);
    NodeValue(w, S, env, e, v);
    forall vs ensures PartsEval(w, S, env, e, vs) <==> EvalAllAs(w, S, env, items, schema, vs) {
      if |vs| == |items| {
        forall k | 0 <= k < |vs|
          ensures PartAt(w, S, env, items[k], Some(schema), vs[k]) <==> EvalsAs(w, S, env, items[k], schema, vs[k])
        {
        }
      }
    }
  }

  ghost predicate PairAt(
      w: World, S: Store, env: Environment, e: Request, c: Request, d: Request, v: Dynamic, a: Dynamic, b: Dynamic)
    requires IsNode(e) && Children(e) == [c, d]
  {
    Evals(w, S, env, c, a) && Evals(w, S, env, d, b) && Assemble(w, e, [a, b]) == Some(v)
  }

  /** A node with two children, from their values. */
  lemma {:induction false} PairValue(
      w: World, S: Store, env: Environment, e: Request, c: Request, d: Request, v: Dynamic)
    requires IsNode(e) && !e.ArrayOf? && Children(e) == [c, d]
    ensures Evals(w, S, env, e, v) <==> exists a, b :: PairAt(w, S, env, e, c, d, v, a, b)
  {
    if Evals(w, S, env, e, v) { var a, b := PairOf(w, S, env, e, c, d, v); }
    if a, b :| PairAt(w, S, env, e, c, d, v, a, b) { ValueOfPair(w, S, env, e, c, d, v, a, b); }
  }

  lemma {:induction false} PairOf(w: World, S: Store, env: Environment, e: Request, c: Request, d: Request, v: Dynamic)
      returns (a: Dynamic, b: Dynamic)
    requires IsNode(e) && !e.ArrayOf? && Children(e) == [c, d] && Evals(w, S, env, e, v)
    ensures PairAt(w, S, env, e, c, d, v, a, b)
  {
    var n: nat :| Eval(w, n, S, env, e) == Done(v);
    var vs := NodeParts(w, n, S, env, e, v);
    PlainParts(w, S, env, e, vs);
    BothEval(w, S, env, c, d, vs);
    a, b := vs[0], vs[1];
  }

  lemma {:induction false} ValueOfPair(
      w: World, S: Store, env: Environment, e: Request, c: Request, d: Request, v: Dynamic, a: Dynamic, b: Dynamic)
    requires IsNode(e) && !e.ArrayOf? && Children(e) == [c, d] && PairAt(w, S, env, e, c, d, v, a, b)
    ensures Evals(w, S, env, e, v)
  {
    assert EvalAllTo(w, S, env, [c, d], [a, b]);
    PlainParts(w, S, env, e, [a, b]);
    NodeOfParts(w, S, env, e, [a, b], v);
  }

  lemma {:induction false} BothEval(w: World, S: Store, env: Environment, c: Request, d: Request, vs: seq<Dynamic>)
    requires |vs| == 2 && EvalAllTo(w, S, env, [c, d], vs)
    ensures vs == [vs[0], vs[1]] && Evals(w, S, env, c, vs[0]) && Evals(w, S, env, d, vs[1])
  {
    assert [c, d][1] == d;
  }

  ghost predicate ItemAt(
      w: World, S: Store, env: Environment, list: Request, index: Request, schema: Schema, v: Dynamic,
      xs: seq<Dynamic>, i: int)
  {
    && Evals(w, S, env, list, Array(xs)) && Evals(w, S, env, index, Integer(i))
    && 0 <= i < |xs| && w.coerce(schema, xs[i]) == Some(v)
  }

  lemma {:induction false} ItemAssembled(
      w: World, list: Request, index: Request, schema: Schema, a: Dynamic, b: Dynamic, v: Dynamic)
    ensures Assemble(w, Item(list, index, schema), [a, b]) == Some(v)
       <==> a.Array? && b.Integer? && 0 <= b.i < |a.items| && w.coerce(schema, a.items[b.i]) == Some(v)
  {
  }

  /** An item of a list is the one at the index, counted from 0, and coerced. */
  lemma {:induction false} ItemLaw(
      w: World, S: Store, env: Environment, list: Request, index: Request, schema: Schema, v: Dynamic)
    ensures Evals(w, S, env, Item(list, index, schema), v)
       <==> exists xs, i :: ItemAt(w, S, env, list, index, schema, v, xs, i)
  {
    var e := Item(list, index, schema);
    PairValue(w, S, env, e, list, index, v);
    if Evals(w, S, env, e, v) {
      var a, b :| PairAt(w, S, env, e, list, index, v, a, b);
      ItemAssembled(w, list, index, schema, a, b, v);
      assert ItemAt(w, S, env, list, index, schema, v, a.items, b.i);
    }
    if xs, i :| ItemAt(w, S, env, list, index, schema, v, xs, i) {
      ItemAssembled(w, list, index, schema, Array(xs), Integer(i), v);
      assert PairAt(w, S, env, e, list, index, v, Array(xs), Integer(i));
    }
  }

  ghost predicate EntryAt(
      w: World, S: Store, env: Environment, record: Request, field: Request, schema: Schema, v: Dynamic,
      entries: map<Dynamic, Dynamic>, name: string)
  {
    && Evals(w, S, env, record, Map(entries)) && Evals(w, S, env, field, Text(name))
    && Text(name) in entries && w.coerce(schema, entries[Text(name)]) == Some(v)
  }

  lemma {:induction false} PropertyAssembled(
      w: World, record: Request, field: Request, schema: Schema, a: Dynamic, b: Dynamic, v: Dynamic)
    ensures Assemble(w, Property(record, field, schema), [a, b]) == Some(v)
       <==> a.Map? && b.Text? && b in a.entries && w.coerce(schema, a.entries[b]) == Some(v)
  {
  }

  /** A property of a record is the entry under the name, coerced. */
  lemma {:induction false} PropertyLaw(
      w: World, S: Store, env: Environment, record: Request, field: Request, schema: Schema, v: Dynamic)
    ensures Evals(w, S, env, Property(record, field, schema), v)
       <==> exists entries, name :: EntryAt(w, S, env, record, field, schema, v, entries, name)
  {
    var e := Property(record, field, schema);
    PairValue(w, S, env, e, record, field, v);
    if Evals(w, S, env, e, v) {
      var a, b :| PairAt(w, S, env, e, record, field, v, a, b);
      PropertyAssembled(w, record, field, schema, a, b, v);
      assert EntryAt(w, S, env, record, field, schema, v, a.entries, b.s);
    }
    if entries, name :| EntryAt(w, S, env, record, field, schema, v, entries, name) {
      PropertyAssembled(w, record, field, schema, Map(entries), Text(name), v);
      assert PairAt(w, S, env, e, record, field, v, Map(entries), Text(name));
    }
  }

  /** The record has exactly the given names, each with its value (the last one, if a name is
      given twice). */
  ghost predicate RecordOf(ps: seq<Binding>, vs: seq<Dynamic>, entries: map<Dynamic, Dynamic>)
    requires |vs| == |ps|
  {
    && (forall x :: x in entries <==> exists k :: 0 <= k < |ps| && x == Text(ps[k].name))
    && (forall k :: 0 <= k < |ps| && IsLast(ps, k) ==>
      Text(ps[k].name) in entries && entries[Text(ps[k].name)] == vs[k])
  }

  ghost predicate IsLast(ps: seq<Binding>, k: nat)
    requires k < |ps|
  {
    forall j :: k < j < |ps| ==> ps[j].name != ps[k].name
  }

  lemma {:induction false} NamedIsRecord(ps: seq<Binding>, vs: seq<Dynamic>)
    requires |vs| == |ps|
    ensures RecordOf(ps, vs, Named(ps, vs))
    decreases |ps|
  {
    if ps != [] {
      var last := |ps| - 1;
      NamedIsRecord(ps[..last], vs[..last]);
      RecordWithLast(ps, vs, Named(ps[..last], vs[..last]));
    }
  }

  lemma {:induction false} RecordWithLast(ps: seq<Binding>, vs: seq<Dynamic>, before: map<Dynamic, Dynamic>)
    requires |vs| == |ps| && ps != [] && RecordOf(ps[..|ps| - 1], vs[..|ps| - 1], before)
    ensures RecordOf(ps, vs, before[Text(ps[|ps| - 1].name) := vs[|ps| - 1]])
  {
    var last := |ps| - 1;
    var m := before[Text(ps[last].name) := vs[last]];
    forall x ensures x in m <==> exists k :: 0 <= k < |ps| && x == Text(ps[k].name) {
      RecordKeys(ps, vs, before, x);
    }
    forall k | 0 <= k < |ps| && IsLast(ps, k) ensures Text(ps[k].name) in m && m[Text(ps[k].name)] == vs[k] {
      if k < last {
        assert ps[last].name != ps[k].name;
        assert IsLast(ps[..last], k) && ps[..last][k] == ps[k];
      }
    }
  }

  lemma {:induction false} RecordKeys(ps: seq<Binding>, vs: seq<Dynamic>, before: map<Dynamic, Dynamic>, x: Dynamic)
    requires |vs| == |ps| && ps != [] && RecordOf(ps[..|ps| - 1], vs[..|ps| - 1], before)
    ensures x in before[Text(ps[|ps| - 1].name) := vs[|ps| - 1]] <==> exists k :: 0 <= k < |ps| && x == Text(ps[k].name)
  {
    var last := |ps| - 1;
    if x in before {
      var k :| 0 <= k < last && x == Text(ps[..last][k].name);
      assert x == Text(ps[k].name);
    }
    if k :| 0 <= k < |ps| && x == Text(ps[k].name) && k < last { assert x == Text(ps[..last][k].name); }
  }

  lemma {:induction false} LastWith(ps: seq<Binding>, x: string) returns (k: nat)
    requires exists j :: 0 <= j < |ps| && ps[j].name == x
    ensures k < |ps| && ps[k].name == x && IsLast(ps, k)
    decreases |ps|
  {
    var last := |ps| - 1;
    if ps[last].name == x {
      k := last;
    } else {
      var j :| 0 <= j < |ps| && ps[j].name == x;
      assert ps[..last][j].name == x;
      k := LastWith(ps[..last], x);
      forall j | k < j < |ps| ensures ps[j].name != ps[k].name {
        if j < last { assert ps[..last][j] == ps[j]; }
      }
    }
  }

  lemma {:induction false} OneRecord(
      ps: seq<Binding>, vs: seq<Dynamic>, m: map<Dynamic, Dynamic>, m': map<Dynamic, Dynamic>)
    requires |vs| == |ps| && RecordOf(ps, vs, m) && RecordOf(ps, vs, m')
    ensures m == m'
  {
    forall x | x in m ensures x in m' && m[x] == m'[x] {
      var j :| 0 <= j < |ps| && x == Text(ps[j].name);
      var k := LastWith(ps, ps[j].name);
      assert m[Text(ps[k].name)] == vs[k] && m'[Text(ps[k].name)] == vs[k];
    }
    forall x | x in m' ensures x in m {}
    assert m.Keys == m'.Keys;
  }

  ghost predicate RecordAt(
      w: World, S: Store, env: Environment, ps: seq<Binding>, schema: Schema, v: Dynamic, vs: seq<Dynamic>,
      entries: map<Dynamic, Dynamic>)
  {
    && |vs| == |ps| && (forall k :: 0 <= k < |ps| ==> Evals(w, S, env, ps[k].request, vs[k]))
    && RecordOf(ps, vs, entries) && w.coerce(schema, Map(entries)) == Some(v)
  }

  /** An object is the record of the values of its properties, coerced. */
  lemma {:induction false} ObjectLaw(w: World, S: Store, env: Environment, ps: seq<Binding>, schema: Schema, v: Dynamic)
    ensures Evals(w, S, env, Object(ps, schema), v)
       <==> exists vs, entries :: RecordAt(w, S, env, ps, schema, v, vs, entries)
  {
    var e := Object(ps, schema);
    PlainNodeValue(w, S, env, e, v);
    if Evals(w, S, env, e, v) {
      var vs: seq<Dynamic> :| EvalAllTo(w, S, env, Children(e), vs) && |vs| == |ps| && Assemble(w, e, vs) == Some(v);
      NamedIsRecord(ps, vs);
      PropertiesEval(w, S, env, ps, schema, vs);
      assert RecordAt(w, S, env, ps, schema, v, vs, Named(ps, vs));
    }
    if vs, entries :| RecordAt(w, S, env, ps, schema, v, vs, entries) {
      NamedIsRecord(ps, vs);
      OneRecord(ps, vs, entries, Named(ps, vs));
      PropertiesEval(w, S, env, ps, schema, vs);
    }
  }

  lemma {:induction false} PropertiesEval(
      w: World, S: Store, env: Environment, ps: seq<Binding>, schema: Schema, vs: seq<Dynamic>)
    requires |vs| == |ps|
    ensures EvalAllTo(w, S, env, Children(Object(ps, schema)), vs)
       <==> forall k :: 0 <= k < |ps| ==> Evals(w, S, env, ps[k].request, vs[k])
  {
    assert Children(Object(ps, schema)) == Requested(ps);
  }

  /** A cast coerces the value of what is cast. */
  lemma {:induction false} CastLaw(w: World, S: Store, env: Environment, record: Request, schema: Schema, v: Dynamic)
    ensures Evals(w, S, env, Cast(schema, record), v) <==> EvalsAs(w, S, env, record, schema, v)
  {
    var e := Cast(schema, record);
    PlainNodeValue(w, S, env, e, v);
    if Evals(w, S, env, e, v) {
      var vs: seq<Dynamic> :| EvalAllTo(w, S, env, Children(e), vs) && |vs| == 1 && Assemble(w, e, vs) == Some(v);
      assert Evals(w, S, env, Children(e)[0], vs[0]);
    }
    if u :| Evals(w, S, env, record, u) && w.coerce(schema, u) == Some(v) {
      assert EvalAllTo(w, S, env, Children(e), [u]);
    }
  }

  ghost predicate IsBound(bs: seq<Binding>, x: string) {
    exists k :: 0 <= k < |bs| && bs[k].name == x
  }

  /** The environment with the bindings: the last one where a name is bound twice, and what was
      there for other names. */
  ghost predicate Overlaid(env: Environment, bs: seq<Binding>, env': Environment) {
    && (forall x :: x in env' <==> x in env || IsBound(bs, x))
    && (forall k :: 0 <= k < |bs| && IsLast(bs, k) ==> bs[k].name in env' && env'[bs[k].name] == bs[k].request)
    && (forall x :: x in env && !IsBound(bs, x) ==> x in env' && env'[x] == env[x])
  }

  lemma {:induction false} BoundByLast(bs: seq<Binding>, x: string)
    requires bs != []
    ensures IsBound(bs, x) <==> IsBound(bs[..|bs| - 1], x) || bs[|bs| - 1].name == x
  {
    var init := bs[..|bs| - 1];
    if k :| 0 <= k < |init| && init[k].name == x { assert bs[k].name == x; }
    if k :| 0 <= k < |bs| && bs[k].name == x && k < |bs| - 1 { assert init[k].name == x; }
  }

  lemma {:induction false} BindKeys(env: Environment, bs: seq<Binding>, x: string)
    ensures x in Bind(env, bs) <==> x in env || IsBound(bs, x)
    ensures x in env && !IsBound(bs, x) ==> Bind(env, bs)[x] == env[x]
    decreases |bs|
  {
    if bs != [] {
      BindKeys(env, bs[..|bs| - 1], x);
      BoundByLast(bs, x);
    }
  }

  lemma {:induction false} BindLast(env: Environment, bs: seq<Binding>, k: nat)
    requires k < |bs| && IsLast(bs, k)
    ensures bs[k].name in Bind(env, bs) && Bind(env, bs)[bs[k].name] == bs[k].request
    decreases |bs|
  {
    var last := |bs| - 1;
    if k < last {
      assert bs[last].name != bs[k].name;
      assert bs[..last][k] == bs[k] && IsLast(bs[..last], k);
      BindLast(env, bs[..last], k);
    }
  }

  lemma {:induction false} BindOverlays(env: Environment, bs: seq<Binding>, env': Environment)
    requires Overlaid(env, bs, env')
    ensures env' == Bind(env, bs)
  {
    var r := Bind(env, bs);
    forall x ensures x in env' <==> x in r { BindKeys(env, bs, x); }
    forall x | x in env' ensures env'[x] == r[x] {
      BindKeys(env, bs, x);
      if IsBound(bs, x) {
        var k := LastWith(bs, x);
        BindLast(env, bs, k);
      }
    }
    assert env'.Keys == r.Keys;
  }

  lemma {:induction false} LetValue(w: World, S: Store, env: Environment, bs: seq<Binding>, body: Request, v: Dynamic)
    ensures Evals(w, S, env, Let(bs, body), v) <==> Evals(w, S, Bind(env, bs), body, v)
  {
    if Evals(w, S, Bind(env, bs), body, v) {
      var n: nat :| Eval(w, n, S, Bind(env, bs), body) == Done(v);
      assert Eval(w, n + 1, S, env, Let(bs, body)) == Done(v);
    }
    if Evals(w, S, env, Let(bs, body), v) {
      var n: nat :| Eval(w, n, S, env, Let(bs, body)) == Done(v);
      assert Eval(w, n - 1, S, Bind(env, bs), body) == Done(v);
    }
  }

  /** A let has the value of its body in the environment with its bindings. */
  lemma {:induction false} LetLaw(
      w: World, S: Store, env: Environment, bs: seq<Binding>, body: Request, env': Environment, v: Dynamic)
    requires Overlaid(env, bs, env')
    ensures Evals(w, S, env, Let(bs, body), v) <==> Evals(w, S, env', body, v)
  {
    BindOverlays(env, bs, env');
    LetValue(w, S, env, bs, body, v);
  }

  /** A variable has the value that its request has where the variable is used. */
  lemma {:induction false} VariableLaw(w: World, S: Store, env: Environment, x: string, v: Dynamic)
    ensures Evals(w, S, env, Variable(x), v) <==> x in env && Evals(w, S, env, env[x], v)
  {
    if x in env && Evals(w, S, env, env[x], v) {
      var n: nat :| Eval(w, n, S, env, env[x]) == Done(v);
      assert Eval(w, n + 1, S, env, Variable(x)) == Done(v);
    }
    if Evals(w, S, env, Variable(x), v) {
      var n: nat :| Eval(w, n, S, env, Variable(x)) == Done(v);
      assert Eval(w, n - 1, S, env, env[x]) == Done(v);
    }
  }

  /** A value has itself; an id has the data it holds, or the value of its calculation in no
      environment. */
  lemma {:induction false} ReferenceLaw(w: World, S: Store, env: Environment, id: string, u: Dynamic, v: Dynamic)
    ensures Evals(w, S, env, Value(u), v) <==> u == v
    ensures Evals(w, S, env, Reference(id), v)
       <==> id in S && (S[id] == Data(v) || (S[id].Calc? && Evals(w, S, map[], S[id].request, v)))
  {
    assert Eval(w, 1, S, env, Value(u)) == Done(u);
    if Evals(w, S, env, Value(u), v) { EvalsUnique(w, S, env, Value(u), u, v); }
    ReferenceDenotes(w, S, env, id, v);
    if Denotes(w, S, id, v) {
      var n: nat :| Fetch(w, n, S, id) == Done(v);
      if S[id].Calc? { assert Eval(w, n - 1, S, map[], S[id].request) == Done(v); }
    }
    if id in S && S[id] == Data(v) { assert Fetch(w, 1, S, id) == Done(v); }
    if id in S && S[id].Calc? && Evals(w, S, map[], S[id].request, v) {
      var n: nat :| Eval(w, n, S, map[], S[id].request) == Done(v);
      assert Fetch(w, n + 1, S, id) == Done(v);
    }
  }

  ghost predicate GeneratedBy(
      w: World, S: Store, env: Environment, generator: Request, schema: Schema, v: Dynamic, g: Dynamic)
  {
    Evals(w, S, env, generator, g) && w.decode(g).Some? && EvalsAs(w, S, env, w.decode(g).value, schema, v)
  }

  lemma {:induction false} GeneratorOf(
      w: World, n: nat, S: Store, env: Environment, generator: Request, schema: Schema, v: Dynamic) returns (g: Dynamic)
    requires Eval(w, n, S, env, Meta(generator, schema)) == Done(v)
    ensures GeneratedBy(w, S, env, generator, schema, v, g)
  {
    g := Eval(w, n - 1, S, env, generator).value;
    var r := w.decode(g).value;
    assert Evals(w, S, env, generator, g);
    assert Evals(w, S, env, r, Eval(w, n - 1, S, env, r).value);
  }

  lemma {:induction false} EvalGenerated(
      w: World, n: nat, S: Store, env: Environment, generator: Request, schema: Schema, g: Dynamic, u: Dynamic)
    requires Eval(w, n, S, env, generator) == Done(g) && w.decode(g).Some?
    requires Eval(w, n, S, env, w.decode(g).value) == Done(u)
    ensures Eval(w, n + 1, S, env, Meta(generator, schema)) == FromOption(w.coerce(schema, u))
  {
  }

  lemma {:induction false} GeneratedEvals(
      w: World, S: Store, env: Environment, generator: Request, schema: Schema, v: Dynamic, g: Dynamic)
    requires GeneratedBy(w, S, env, generator, schema, v, g)
    ensures Evals(w, S, env, Meta(generator, schema), v)
  {
    var r := w.decode(g).value;
    var u :| Evals(w, S, env, r, u) && w.coerce(schema, u) == Some(v);
    var n: nat :| Eval(w, n, S, env, generator) == Done(g);
    var m: nat :| Eval(w, m, S, env, r) == Done(u);
    EvalMonotone(w, n, Max(n, m), S, S, env, generator);
    EvalMonotone(w, m, Max(n, m), S, S, env, r);
    EvalGenerated(w, Max(n, m), S, env, generator, schema, g, u);
  }

  /** A meta request has the value of the request that its generator generates, coerced. */
  lemma {:induction false} MetaLaw(w: World, S: Store, env: Environment, generator: Request, schema: Schema, v: Dynamic)
    ensures Evals(w, S, env, Meta(generator, schema), v) <==>
        exists g :: GeneratedBy(w, S, env, generator, schema, v, g)
  {
    if Evals(w, S, env, Meta(generator, schema), v) {
      var n: nat :| Eval(w, n, S, env, Meta(generator, schema)) == Done(v);
      var g := GeneratorOf(w, n, S, env, generator, schema, v);
    }
    if g :| GeneratedBy(w, S, env, generator, schema, v, g) { GeneratedEvals(w, S, env, generator, schema, v, g); }
  }
}
