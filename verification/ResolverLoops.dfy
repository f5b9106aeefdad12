/** The resolvers as the program runs them: the store is written to in place, and arguments and
    environments are built in loops. */
module ResolverLoops {
  import opened Wrappers
  import opened Requests
  import opened RequestForms
  import opened Resolvers

  /** A run that ends well ends as the function says, with its store. */
  ghost predicate Computes<T(!new)>(r: Outcome<T>, S: Store, o: Outcome<(T, Store)>) {
    && (r.Done? <==> o.Done?) && (r.Failed? <==> o.Failed?)
    && (r.Done? ==> o.value == (r.value, S))
  }

  /** The outcome for all requests, when `vs` are the results of those before `i`. */
  ghost function Behind<T>(vs: seq<T>, rest: Outcome<(seq<T>, Store)>): (o: Outcome<(seq<T>, Store)>) {
    if rest.Done? then Done((vs + rest.value.0, rest.value.1)) else rest
  }

  lemma {:induction false} NothingBefore<T>(o: Outcome<(seq<T>, Store)>)
    ensures Behind([], o) == o
  {
    if o.Done? { assert [] + o.value.0 == o.value.0; }
  }

  lemma {:induction false} OneArgument(
      w: World, n: nat, S: Store, env: Environment, es: seq<Request>, schema: Option<Schema>, i: nat, vs: seq<Dynamic>)
    requires i < |es| && Local(w, n, S, env, es[i]).Done?
    requires CoerceTo(w, schema, Local(w, n, S, env, es[i]).value.0).Some?
    ensures var (u, S1) := Local(w, n, S, env, es[i]).value;
            Behind(vs, LocalAll(w, n, S, env, es[i..], schema))
            == Behind(vs + [CoerceTo(w, schema, u).value], LocalAll(w, n, S1, env, es[i + 1..], schema))
  {
    assert es[i..][0] == es[i] && es[i..][1..] == es[i + 1..];
    var (u, S1) := Local(w, n, S, env, es[i]).value;
    var rest := LocalAll(w, n, S1, env, es[i + 1..], schema);
    var v := CoerceTo(w, schema, u).value;
    if rest.Done? { assert vs + ([v] + rest.value.0) == vs + [v] + rest.value.0; }
  }

  lemma {:induction false} ArgumentFails(
      w: World, n: nat, S: Store, env: Environment, es: seq<Request>, schema: Option<Schema>, i: nat)
    requires i < |es|
    ensures var o := Local(w, n, S, env, es[i]);
            var all := LocalAll(w, n, S, env, es[i..], schema);
            && (o.Failed? ==> all.Failed?) && (o.Exhausted? ==> all.Exhausted?)
            && (o.Done? && CoerceTo(w, schema, o.value.0).None? ==> all.Failed?)
  {
    assert es[i..][0] == es[i];
  }

  lemma {:induction false} OneSubcalculation(
      w: World, n: nat, S: Store, env: Environment, es: seq<Request>, i: nat, ids: seq<string>)
    requires i < |es|
    ensures var o := Remote(w, n, S, env, es[i]);
            var all := RemoteAll(w, n, S, env, es[i..]);
            && (o.Failed? ==> all.Failed?) && (o.Exhausted? ==> all.Exhausted?)
            && (o.Done? ==> Behind(ids, all) == Behind(ids + [o.value.0], RemoteAll(w, n, o.value.1, env, es[i + 1..])))
  {
    assert es[i..][0] == es[i] && es[i..][1..] == es[i + 1..];
    var o := Remote(w, n, S, env, es[i]);
    if o.Done? {
      var rest := RemoteAll(w, n, o.value.1, env, es[i + 1..]);
      if rest.Done? { assert ids + ([o.value.0] + rest.value.0) == ids + [o.value.0] + rest.value.0; }
    }
  }

  class Resolver {
    const w: World
    var store: Store

    constructor (w: World, S: Store)
      ensures this.w == w && store == S
    {
      this.w := w;
      this.store := S;
    }

    /** Extends the environment with the bindings of a let, in order. */
    method Extend(env: Environment, bs: seq<Binding>) returns (r: Environment)
      ensures r == Bind(env, bs)
    {
      r := env;
      assert bs[..0] == [];
      for i := 0 to |bs|
        invariant r == Bind(env, bs[..i])
      {
        assert bs[..i + 1][..i] == bs[..i];
        r := r[bs[i].name := bs[i].request];
      }
      assert bs[..|bs|] == bs;
    }

    method ResolveToValue(n: nat, env: Environment, e: Request) returns (r: Outcome<Dynamic>)
      modifies this
      ensures Computes(r, store, Local(w, n, old(store), env, e))
      decreases n, 0
    {
      if n == 0 { return Exhausted; }
      if HandedToRemote(e) {
        var id :- ResolveToObject(n - 1, env, e);
        var v :- Fetch(w, n - 1, store, id);
        r := Done(v);
      } else if IsNode(e) {
        var vs :- ResolveArguments(n - 1, env, Children(e), ItemSchema(e));
        r := FromOption(Assemble(w, e, vs));
      } else if e.Reference? {
        r := Fetch(w, n - 1, store, e.id);
      } else if e.Value? {
        r := Done(e.value);
      } else if e.Let? {
        var extended := Extend(env, e.variables);
        r := ResolveToValue(n - 1, extended, e.body);
      } else if e.Variable? {
        if e.name !in env { return Failed; }
        r := ResolveToValue(n - 1, env, env[e.name]);
      } else {
        r := ResolveMeta(n, env, e);
      }
    }

    method ResolveMeta(n: nat, env: Environment, e: Request) returns (r: Outcome<Dynamic>)
      requires n > 0 && e.Meta?
      modifies this
      ensures Computes(r, store, Local(w, n, old(store), env, e))
      decreases n - 1, 2
    {
      var g :- ResolveToValue(n - 1, env, e.generator);
      var generated :- FromOption(w.decode(g));
      var u :- ResolveToValue(n - 1, env, generated);
      r := FromOption(w.coerce(e.schema, u));
    }

    method ResolveArguments(n: nat, env: Environment, es: seq<Request>, schema: Option<Schema>)
        returns (r: Outcome<seq<Dynamic>>)
      modifies this
      ensures Computes(r, store, LocalAll(w, n, old(store), env, es, schema))
      ensures r.Done? ==> |r.value| == |es|
      decreases n, 1
    {
      var vs: seq<Dynamic> := [];
      ghost var all := LocalAll(w, n, store, env, es, schema);
      assert es[0..] == es;
      NothingBefore(all);
      for i := 0 to |es|
        invariant |vs| == i && Behind(vs, LocalAll(w, n, store, env, es[i..], schema)) == all
      {
        ghost var S := store;
        ArgumentFails(w, n, S, env, es, schema, i);
        var u :- ResolveToValue(n, env, es[i]);
        var v :- FromOption(CoerceTo(w, schema, u));
        OneArgument(w, n, S, env, es, schema, i, vs);
        vs := vs + [v];
      }
      assert vs + [] == vs;
      r := Done(vs);
    }

    method ResolveToObject(n: nat, env: Environment, e: Request) returns (r: Outcome<string>)
      modifies this
      ensures Computes(r, store, Remote(w, n, old(store), env, e))
      decreases n, 0
    {
      if n == 0 { return Exhausted; }
      if HandedToLocal(e) {
        var v :- ResolveToValue(n - 1, env, e);
        var id := PostContent(Data(v));
        r := Done(id);
      } else if IsNode(e) || e.Meta? {
        var ids :- ResolveSubcalculations(n - 1, env, Children(e));
        var id := PostContent(Calc(Sanitize(ShallowForm(e, ids))));
        r := Done(id);
      } else if e.Reference? {
        r := Done(e.id);
      } else if e.Value? {
        var id := PostContent(Data(e.value));
        r := Done(id);
      } else if e.Let? {
        var extended := Extend(env, e.variables);
        r := ResolveToObject(n - 1, extended, e.body);
      } else {
        if e.name !in env { return Failed; }
        r := ResolveToObject(n - 1, env, env[e.name]);
      }
    }

    method PostContent(c: Content) returns (id: string)
      modifies this
      ensures (id, store) == Post(w, old(store), c)
    {
      id := w.id(c);
      store := store[id := c];
    }

    method ResolveSubcalculations(n: nat, env: Environment, es: seq<Request>) returns (r: Outcome<seq<string>>)
      modifies this
      ensures Computes(r, store, RemoteAll(w, n, old(store), env, es))
      ensures r.Done? ==> |r.value| == |es|
      decreases n, 1
    {
      var ids: seq<string> := [];
      ghost var all := RemoteAll(w, n, store, env, es);
      assert es[0..] == es;
      NothingBefore(all);
      for i := 0 to |es|
        invariant |ids| == i && Behind(ids, RemoteAll(w, n, store, env, es[i..])) == all
      {
        OneSubcalculation(w, n, store, env, es, i, ids);
        var id :- ResolveToObject(n, env, es[i]);
        ids := ids + [id];
      }
      assert ids + [] == ids;
      r := Done(ids);
    }
  }
}
