/** Runs of the let submission: when they succeed, what a dry run tells, how ids are reported,
    and the two ways in which a submission can miss the meaning of the request. */
module LetSubmissionRuns {
  import opened Wrappers
  import opened Requests
  import opened RequestForms
  import opened Agreement
  import opened LetSubmission

  // ----- when a submission succeeds -----

  /** Outside item indices and property fields there is no let and no variable but `names`. */
  predicate Substitutable(names: set<string>, e: Request)
    decreases e
  {
    if e.Let? || e.Lambda? then false
    else if e.Variable? then e.name in names
    else forall k :: 0 <= k < Visited(e) ==> Substitutable(names, Children(e)[k])
  }

  lemma {:induction false} SubstituteSucceeds(subs: Substitutions, e: Request)
    ensures Substitute(subs, e).Some? <==> Substitutable(subs.Keys, e)
    decreases e, |Children(e)| + 1
  {
    if !e.Let? && !e.Lambda? && !e.Variable? { SubstituteFromSucceeds(subs, e, 0); }
  }

  lemma {:induction false} SubstituteFromSucceeds(subs: Substitutions, e: Request, k: nat)
    requires k <= |Children(e)|
    ensures SubstituteFrom(subs, e, k).Some? <==> forall j :: k <= j < Visited(e) ==>
        Substitutable(subs.Keys, Children(e)[j])
    decreases e, |Children(e)| - k
  {
    if k < |Children(e)| {
      SubstituteSucceeds(subs, Children(e)[k]);
      SubstituteFromSucceeds(subs, e, k + 1);
    }
  }

  /** Every binding uses only bindings before it. */
  ghost predicate Ordered(names: set<string>, bs: seq<Binding>)
    decreases |bs|
  {
    bs == [] || (Substitutable(names, bs[0].request) && Ordered(names + {bs[0].name}, bs[1..]))
  }

  lemma {:induction false} SubmitAllSucceeds(w: World, p: Progress, bs: seq<Binding>, reportedVariables: seq<string>)
    ensures SubmitAll(w, p, bs, reportedVariables, false).Ok? <==> Ordered(p.subs.Keys, bs)
    ensures !SubmitAll(w, p, bs, reportedVariables, false).Absent?
    ensures SubmitAll(w, p, bs, reportedVariables, false).Ok? ==>
              SubmitAll(w, p, bs, reportedVariables, false).value.subs.Keys == p.subs.Keys + Names(bs)
    decreases |bs|
  {
    if bs != [] {
      SubstituteSucceeds(p.subs, bs[0].request);
      if Substitute(p.subs, bs[0].request).Some? {
        var p' := SubmitOne(w, p, bs[0], reportedVariables, false).value;
        assert p'.subs.Keys == p.subs.Keys + {bs[0].name};
        SubmitAllSucceeds(w, p', bs[1..], reportedVariables);
        assert Names(bs) == {bs[0].name} + Names(bs[1..]) by {
          assert forall b :: b in bs <==> b == bs[0] || b in bs[1..];
        }
      }
    }
  }

  /** A real submission succeeds iff every right-hand side, and the innermost request, uses
      only variables bound before it; otherwise it throws. */
  lemma {:induction false} SubmissionSucceeds(w: World, S: Store, e: Request, reportedVariables: seq<string>)
    ensures SubmitLet(w, S, e, reportedVariables, false).Ok?
       <==> Ordered({}, Flatten(e)) && Substitutable(Names(Flatten(e)), Innermost(e))
    ensures !SubmitLet(w, S, e, reportedVariables, false).Absent?
  {
    var r := SubmitAll(w, Start(S), Flatten(e), reportedVariables, false);
    SubmitAllSucceeds(w, Start(S), Flatten(e), reportedVariables);
    assert Start(S).subs.Keys == {};
    if r.Ok? {
      SubstituteSucceeds(r.value.subs, Innermost(e));
      assert r.value.subs.Keys == Names(Flatten(e));
    }
  }

  // ----- dry runs -----

  lemma {:induction false} SubmitDry(w: World, S: Store, e: Request)
    requires Lawful(w) && ValidStore(w, S)
    ensures Submit(w, S, e, true).1 == S
    ensures Submit(w, S, e, true).0.Some? <==> Submit(w, S, e, false).1 == S
    ensures Submit(w, S, e, true).0.Some? ==> Submit(w, S, e, true) == Submit(w, S, e, false)
  {
  }

  lemma {:induction false} SubmitAllDry(w: World, p: Progress, bs: seq<Binding>, reportedVariables: seq<string>)
    requires Lawful(w) && ValidStore(w, p.store)
    ensures var dry := SubmitAll(w, p, bs, reportedVariables, true);
            var run := SubmitAll(w, p, bs, reportedVariables, false);
            && (dry.Ok? <==> run.Ok? && run.value.store == p.store)
            && (dry.Ok? ==> dry == run)
    decreases |bs|
  {
    if bs != [] && Substitute(p.subs, bs[0].request).Some? {
      var e := Substitute(p.subs, bs[0].request).value;
      SubmitDry(w, p.store, e);
      SubmitGrows(w, p.store, e, false);
      var p' := SubmitOne(w, p, bs[0], reportedVariables, false).value;
      SubmitAllDry(w, p', bs[1..], reportedVariables);
      if SubmitAll(w, p', bs[1..], reportedVariables, false).Ok? {
        SubmitAllGrows(w, p', bs[1..], reportedVariables, false);
        ExtendsBothWays(p.store, p'.store, SubmitAll(w, p', bs[1..], reportedVariables, false).value.store);
      }
    }
  }

  lemma {:induction false} ExtendsBothWays(S: Store, S1: Store, S2: Store)
    requires Extends(S, S1) && Extends(S1, S2)
    ensures S2 == S ==> S1 == S
  {
    if S2 == S {
      assert forall id :: id in S1 <==> id in S;
    }
  }

  /** A dry run gives a result iff the real run would add nothing, that is, iff every
      calculation of the chain exists; then it gives the result of the real run. */
  lemma {:induction false} DryRunIff(w: World, S: Store, e: Request, reportedVariables: seq<string>)
    requires Lawful(w) && ValidStore(w, S)
    ensures var dry := SubmitLet(w, S, e, reportedVariables, true);
            var run := SubmitLet(w, S, e, reportedVariables, false);
            && (dry.Ok? <==> run.Ok? && run.value.1 == S)
            && (dry.Ok? ==> dry == run)
  {
    SubmitAllDry(w, Start(S), Flatten(e), reportedVariables);
    var all := SubmitAll(w, Start(S), Flatten(e), reportedVariables, false);
    if all.Ok? && Substitute(all.value.subs, Innermost(e)).Some? {
      SubmitAllGrows(w, Start(S), Flatten(e), reportedVariables, false);
      var main := Substitute(all.value.subs, Innermost(e)).value;
      SubmitDry(w, all.value.store, main);
      SubmitGrows(w, all.value.store, main, false);
      ExtendsBothWays(S, all.value.store, Submit(w, all.value.store, main, false).1);
    }
  }

  /** Once submitted, a chain is found again by a dry run over any later store, with the same
      result. */
  lemma {:induction false} DryRunAfterRealRun(w: World, S: Store, T: Store, e: Request, reportedVariables: seq<string>)
    requires Lawful(w) && ValidStore(w, S) && SubmitLet(w, S, e, reportedVariables, false).Ok?
    requires Extends(SubmitLet(w, S, e, reportedVariables, false).value.1, T)
    ensures SubmitLet(w, T, e, reportedVariables, true) == Ok((SubmitLet(w, S, e, reportedVariables, false).value.0, T))
  {
    var p := SubmitAll(w, Start(S), Flatten(e), reportedVariables, false).value;
    var main := Substitute(p.subs, Innermost(e)).value;
    SubmitAllGrows(w, Start(S), Flatten(e), reportedVariables, false);
    SubmitGrows(w, p.store, main, false);
    SubmitAllAgain(w, Start(S), T, Flatten(e), reportedVariables);
    SubmitFound(w, p.store, T, main);
  }

  lemma {:induction false} SubmitFound(w: World, S: Store, S': Store, e: Request)
    requires Extends(Submit(w, S, e, false).1, S')
    ensures Submit(w, S', e, true) == (Submit(w, S, e, false).0, S')
  {
  }

  lemma {:induction false} SubmitAllAgain(
      w: World, p: Progress, S': Store, bs: seq<Binding>, reportedVariables: seq<string>)
    requires Lawful(w) && ValidStore(w, p.store) && SubmitAll(w, p, bs, reportedVariables, false).Ok?
    requires Extends(SubmitAll(w, p, bs, reportedVariables, false).value.store, S')
    ensures SubmitAll(w, p.(store := S'), bs, reportedVariables, true)
         == Ok(SubmitAll(w, p, bs, reportedVariables, false).value.(store := S'))
    decreases |bs|
  {
    if bs != [] {
      var e := Substitute(p.subs, bs[0].request).value;
      var p' := SubmitOne(w, p, bs[0], reportedVariables, false).value;
      SubmitGrows(w, p.store, e, false);
      SubmitAllGrows(w, p', bs[1..], reportedVariables, false);
      SubmitFound(w, p.store, S', e);
      SubmitAllAgain(w, p', S', bs[1..], reportedVariables);
    }
  }

  // ----- the two lists of ids -----

  function ReportedOf(bs: seq<Binding>, ids: seq<string>, reportedVariables: seq<string>): (r: seq<Reported>)
    requires |bs| == |ids|
    decreases |bs|
  {
    if bs == [] then []
    else (if bs[0].name in reportedVariables then [Reported(ids[0], Label(bs[0].request))] else [])
         + ReportedOf(bs[1..], ids[1..], reportedVariables)
  }

  function OthersOf(bs: seq<Binding>, ids: seq<string>, reportedVariables: seq<string>): (r: seq<string>)
    requires |bs| == |ids|
    ensures |r| + |ReportedOf(bs, ids, reportedVariables)| == |bs|
    decreases |bs|
  {
    if bs == [] then []
    else (if bs[0].name in reportedVariables then [] else [ids[0]])
         + OthersOf(bs[1..], ids[1..], reportedVariables)
  }

  lemma {:induction false} SubmitAllKeeps(
      w: World, p: Progress, bs: seq<Binding>, reportedVariables: seq<string>, dryRun: bool, x: string)
    requires SubmitAll(w, p, bs, reportedVariables, dryRun).Ok?
    requires x in p.subs && forall k :: 0 <= k < |bs| ==> bs[k].name != x
    ensures var q := SubmitAll(w, p, bs, reportedVariables, dryRun).value; x in q.subs && q.subs[x] == p.subs[x]
    decreases |bs|
  {
    if bs != [] {
      SubmitAllKeeps(w, SubmitOne(w, p, bs[0], reportedVariables, dryRun).value, bs[1..], reportedVariables, dryRun, x);
    }
  }

  /** The ids are those substituted for the variables. */
  ghost predicate SubstitutedBy(subs: Substitutions, bs: seq<Binding>, ids: seq<string>) {
    |bs| == |ids| && forall k :: 0 <= k < |bs| ==> bs[k].name in subs && subs[bs[k].name] == Reference(ids[k])
  }

  /** The ids that the submissions of the bindings return, in order. */
  function SubmittedIds(
      w: World, p: Progress, bs: seq<Binding>, reportedVariables: seq<string>, dryRun: bool): (r: seq<string>)
    requires SubmitAll(w, p, bs, reportedVariables, dryRun).Ok?
    ensures |r| == |bs|
    decreases |bs|
  {
    if bs == [] then []
    else
      [Submit(w, p.store, Substitute(p.subs, bs[0].request).value, dryRun).0.value]
      + SubmittedIds(w, SubmitOne(w, p, bs[0], reportedVariables, dryRun).value, bs[1..], reportedVariables, dryRun)
  }

  lemma {:induction false} SubmitAllReports(
      w: World, p: Progress, bs: seq<Binding>, reportedVariables: seq<string>, dryRun: bool)
    requires SubmitAll(w, p, bs, reportedVariables, dryRun).Ok?
    ensures var q := SubmitAll(w, p, bs, reportedVariables, dryRun).value;
            var ids := SubmittedIds(w, p, bs, reportedVariables, dryRun);
            && q.reported == p.reported + ReportedOf(bs, ids, reportedVariables)
            && q.others == p.others + OthersOf(bs, ids, reportedVariables)
    decreases |bs|
  {
    if bs != [] {
      var p' := SubmitOne(w, p, bs[0], reportedVariables, dryRun).value;
      var ids := SubmittedIds(w, p, bs, reportedVariables, dryRun);
      SubmitAllReports(w, p', bs[1..], reportedVariables, dryRun);
      assert ids[1..] == SubmittedIds(w, p', bs[1..], reportedVariables, dryRun);
      RecordReports(p, p', bs, ids, reportedVariables);
    }
  }

  lemma {:induction false} RecordReports(
      p: Progress, p': Progress, bs: seq<Binding>, ids: seq<string>, reportedVariables: seq<string>)
    requires bs != [] && |ids| == |bs| && p' == Record(p, p'.store, bs[0], ids[0], reportedVariables)
    ensures p'.reported + ReportedOf(bs[1..], ids[1..], reportedVariables)
        == p.reported + ReportedOf(bs, ids, reportedVariables)
    ensures p'.others + OthersOf(bs[1..], ids[1..], reportedVariables)
        == p.others + OthersOf(bs, ids, reportedVariables)
  {
    var r, o := ReportedOf(bs[1..], ids[1..], reportedVariables), OthersOf(bs[1..], ids[1..], reportedVariables);
    if bs[0].name in reportedVariables {
      Regroup(p.reported, Reported(ids[0], Label(bs[0].request)), r);
      assert OthersOf(bs, ids, reportedVariables) == [] + o == o;
    } else {
      Regroup(p.others, ids[0], o);
      assert ReportedOf(bs, ids, reportedVariables) == [] + r == r;
    }
  }

  lemma {:induction false} Regroup<T>(a: seq<T>, x: T, b: seq<T>)
    ensures a + [x] + b == a + ([x] + b)
  {
  }

  lemma {:induction false} SubmitAllSubstitutes(
      w: World, p: Progress, bs: seq<Binding>, reportedVariables: seq<string>, dryRun: bool)
    requires SubmitAll(w, p, bs, reportedVariables, dryRun).Ok? && DistinctNames(bs)
    ensures SubstitutedBy(SubmitAll(w, p, bs, reportedVariables, dryRun).value.subs, bs,
                          SubmittedIds(w, p, bs, reportedVariables, dryRun))
    decreases |bs|
  {
    if bs != [] {
      var p' := SubmitOne(w, p, bs[0], reportedVariables, dryRun).value;
      var subs := SubmitAll(w, p', bs[1..], reportedVariables, dryRun).value.subs;
      var ids := SubmittedIds(w, p, bs, reportedVariables, dryRun);
      var rest := SubmittedIds(w, p', bs[1..], reportedVariables, dryRun);
      SubmitAllSubstitutes(w, p', bs[1..], reportedVariables, dryRun);
      SubmitAllKeeps(w, p', bs[1..], reportedVariables, dryRun, bs[0].name);
      forall k | 0 <= k < |bs| ensures bs[k].name in subs && subs[bs[k].name] == Reference(ids[k]) {
        if k > 0 { assert bs[k] == bs[1..][k - 1] && ids[k] == rest[k - 1]; }
      }
    }
  }

  /** Each variable contributes its one id to exactly one of the two lists, in traversal order,
      and that id is what later requests have in place of the variable. */
  lemma {:induction false} EveryIdReportedOnce(
      w: World, S: Store, e: Request, reportedVariables: seq<string>, dryRun: bool)
    requires SubmitLet(w, S, e, reportedVariables, dryRun).Ok?
    ensures var info := SubmitLet(w, S, e, reportedVariables, dryRun).value.0;
            var ids := SubmittedIds(w, Start(S), Flatten(e), reportedVariables, dryRun);
            && info.reported == ReportedOf(Flatten(e), ids, reportedVariables)
            && info.others == OthersOf(Flatten(e), ids, reportedVariables)
            && |info.reported| + |info.others| == |Flatten(e)|
            && (DistinctNames(Flatten(e)) ==>
                  SubstitutedBy(SubmitAll(w, Start(S), Flatten(e), reportedVariables, dryRun).value.subs, Flatten(e),
                      ids))
  {
    SubmitAllReports(w, Start(S), Flatten(e), reportedVariables, dryRun);
    if DistinctNames(Flatten(e)) { SubmitAllSubstitutes(w, Start(S), Flatten(e), reportedVariables, dryRun); }
  }

  // ----- variables in indices and fields -----

  predicate LetFree(e: Request)
    decreases e
  {
    !e.Let? && forall k :: 0 <= k < |Children(e)| ==> LetFree(Children(e)[k])
  }

  /** A let-free request with a free variable has no value in the empty environment. */
  lemma {:induction false} OpenHasNoValue(w: World, n: nat, S: Store, e: Request)
    requires LetFree(e) && !ClosedIn({}, e)
    ensures !Eval(w, n, S, map[], e).Done?
    decreases e
  {
    if n > 0 && !e.Variable? {
      var k: nat :| k < |Children(e)| && !ClosedIn({}, Children(e)[k]);
      OpenHasNoValue(w, n - 1, S, Children(e)[k]);
      if IsNode(e) { AllDoneMeansEachDone(w, n - 1, S, Children(e), k, ItemSchema(e)); }
    }
  }

  lemma {:induction false} AllDoneMeansEachDone(
      w: World, n: nat, S: Store, es: seq<Request>, k: nat, schema: Option<Schema>)
    requires k < |es|
    ensures EvalAll(w, n, S, map[], es, schema).Done? ==> Eval(w, n, S, map[], es[k]).Done?
    decreases |es|
  {
    if k > 0 { AllDoneMeansEachDone(w, n, S, es[1..], k - 1, schema); }
  }

  /** Substitutions by references, as the submission makes them. */
  ghost predicate ByReferences(subs: Substitutions) {
    forall x :: x in subs ==> subs[x].Reference?
  }

  lemma {:induction false} SubstituteOpen(subs: Substitutions, e: Request)
    requires ByReferences(subs) && LetFree(e) && Substitute(subs, e).Some?
    ensures LetFree(Substitute(subs, e).value)
    ensures ClosedIn({}, Substitute(subs, e).value) <==> ClosedPositions(e)
    decreases e, |Children(e)| + 1
  {
    if !e.Variable? {
      var rs := Children(Substitute(subs, e).value);
      forall k | 0 <= k < |Children(e)| ensures LetFree(rs[k]) && (ClosedIn({}, rs[k]) <==> PositionClosed(e, k)) {
        SubstituteChildOpen(subs, e, k);
      }
      PositionsClosed(e);
      var r := Substitute(subs, e).value;
      assert ClosedIn({}, r) <==> forall k :: 0 <= k < |rs| ==> ClosedIn({}, rs[k]);
    }
  }

  ghost predicate PositionClosed(e: Request, k: nat)
    requires k < |Children(e)|
  {
    if k < Visited(e) then ClosedPositions(Children(e)[k]) else ClosedIn({}, Children(e)[k])
  }

  lemma {:induction false} PositionsClosed(e: Request)
    requires !e.Let?
    ensures ClosedPositions(e) <==> forall k :: 0 <= k < |Children(e)| ==> PositionClosed(e, k)
  {
    if ClosedPositions(e) {
      forall k | 0 <= k < |Children(e)| ensures PositionClosed(e, k) { var c := Children(e)[k]; }
    } else {
      var k: nat :| k < |Children(e)|
          && !(if k < Visited(e) then ClosedPositions(Children(e)[k]) else ClosedIn({}, Children(e)[k]));
      assert !PositionClosed(e, k);
    }
  }

  lemma {:induction false} SubstituteChildOpen(subs: Substitutions, e: Request, k: nat)
    requires ByReferences(subs) && LetFree(e) && !e.Variable? && Substitute(subs, e).Some? && k < |Children(e)|
    ensures LetFree(Children(Substitute(subs, e).value)[k])
    ensures ClosedIn({}, Children(Substitute(subs, e).value)[k]) <==> PositionClosed(e, k)
    decreases e, 0
  {
    var cs := SubstituteFrom(subs, e, 0).value;
    assert Children(Substitute(subs, e).value) == cs;
    SubstituteFromAt(subs, e, 0, k);
    assert LetFree(Children(e)[k]);
    if k < Visited(e) { SubstituteOpen(subs, Children(e)[k]); }
  }

  lemma {:induction false} SubstituteFromAt(subs: Substitutions, e: Request, k: nat, j: nat)
    requires k <= j < |Children(e)| && SubstituteFrom(subs, e, k).Some?
    ensures j < Visited(e) ==> Substitute(subs, Children(e)[j]) == Some(SubstituteFrom(subs, e, k).value[j - k])
    ensures j >= Visited(e) ==> Children(e)[j] == SubstituteFrom(subs, e, k).value[j - k]
    decreases j - k
  {
    if k < j { SubstituteFromAt(subs, e, k + 1, j); }
  }

  /** For a request with a value, substitution keeps the value iff no item index and no
      property field mentions a variable. */
  lemma {:induction false} SubstitutionKeepsValueIff(
      w: World, T: Store, env: Environment, subs: Substitutions, e: Request, v: Dynamic)
    requires Lawful(w) && Matches(w, T, env, subs) && ByReferences(subs) && LetFree(e)
    requires Substitute(subs, e).Some? && Evals(w, T, env, e, v)
    ensures Evals(w, T, map[], Substitute(subs, e).value, v) <==> ClosedPositions(e)
  {
    SubstituteOpen(subs, e);
    if ClosedPositions(e) {
      SubstituteMeans(w, T, env, subs, e);
    } else {
      forall n: nat ensures !Eval(w, n, T, map[], Substitute(subs, e).value).Done? {
        OpenHasNoValue(w, n, T, Substitute(subs, e).value);
      }
    }
  }

  // ----- two requests whose submission misses their meaning -----

  lemma {:induction false} EvalItem(w: World, n: nat, S: Store, env: Environment, e: Request, v: Dynamic, s: Schema)
    requires Eval(w, n, S, env, e) == Done(v) && w.coerce(s, v) == Some(v)
    ensures Eval(w, n + 1, S, env, ArrayOf([e], s)) == Done(Array([v]))
  {
    assert [e][1..] == [] && [v] + [] == [v];
    assert EvalAll(w, n, S, env, [e][1..], Some(s)) == Done([]);
    assert EvalAll(w, n, S, env, [e], Some(s)) == Done([v]);
  }

  lemma {:induction false} SubstituteItem(subs: Substitutions, e: Request, r: Request, s: Schema)
    requires Substitute(subs, e) == Some(r)
    ensures Substitute(subs, ArrayOf([e], s)) == Some(ArrayOf([r], s))
  {
    assert SubstituteFrom(subs, ArrayOf([e], s), 1) == Some([]);
    assert [r] + [] == [r];
  }

  lemma {:induction false} SanitizeItem(id: string, s: Schema)
    ensures Sanitize(ArrayOf([Reference(id)], s)) == ArrayOf([Reference(id)], s)
  {
    var e := ArrayOf([Reference(id)], s);
    assert Sanitize(Reference(id)) == Reference(id);
    assert Children(Sanitize(e)) == [Reference(id)];
  }

  lemma {:induction false} ValueAsIs(subs: Substitutions, v: Dynamic)
    ensures Substitute(subs, Value(v)) == Some(Value(v)) && Sanitize(Value(v)) == Value(v)
  {
  }

  lemma {:induction false} SubmitOneIs(w: World, p: Progress, b: Binding, e: Request)
    requires Substitute(p.subs, b.request) == Some(e) && !e.Reference?
    ensures SubmitOne(w, p, b, [], false)
        == Ok(Record(p, Submit(w, p.store, e, false).1, b, w.id(Calc(Sanitize(e))), []))
  {
  }

  lemma {:induction false} FirstChildOnly(subs: Substitutions, e: Request, list: Request)
    requires e.Item? && Substitute(subs, e.list) == Some(list)
    ensures Substitute(subs, e) == Some(Item(list, e.index, e.schema))
  {
    assert SubstituteFrom(subs, e, 2) == Some([]);
    assert SubstituteFrom(subs, e, 1) == Some([e.index] + []);
    assert SubstituteFrom(subs, e, 0) == Some([list] + ([e.index] + []));
  }

  ghost function IndexRequest(s: Schema): Request {
    Item(ArrayOf([Value(Integer(7))], s), Variable("i"), s)
  }

  /** let i = 0 in [7][i]: the item index keeps its variable, so the posted calculation has no
      value, although the request has one. */
  lemma {:induction false} IndexVariableIsLost(w: World, S: Store, s: Schema)
    requires Lawful(w) && ValidStore(w, S) && w.coerce(s, Integer(7)) == Some(Integer(7))
    ensures var e := Let([Binding("i", Value(Integer(0)))], IndexRequest(s));
            var r := SubmitLet(w, S, e, [], false);
            && r.Ok? && Evals(w, r.value.1, map[], e, Integer(7))
            && forall v :: !Denotes(w, r.value.1, r.value.0.main, v)
  {
    var bs := [Binding("i", Value(Integer(0)))];
    var main := IndexRequest(s);
    var e := Let(bs, main);
    assert Flatten(main) == [] && bs + [] == bs && bs[1..] == [];
    assert Flatten(e) == bs && Innermost(e) == main;
    ValueAsIs(map[], Integer(0));
    SubmitOneIs(w, Start(S), bs[0], Value(Integer(0)));
    var p := SubmitOne(w, Start(S), bs[0], [], false).value;
    assert SubmitAll(w, p, bs[1..], [], false) == Ok(p);
    assert SubmitAll(w, Start(S), bs, [], false) == Ok(p);
    ValueAsIs(p.subs, Integer(7));
    SubstituteItem(p.subs, Value(Integer(7)), Value(Integer(7)), s);
    FirstChildOnly(p.subs, main, main.list);
    SubmitGrows(w, S, Value(Integer(0)), false);
    SubmitGrows(w, p.store, main, false);
    var (info, S') := SubmitLet(w, S, e, [], false).value;
    IndexRequestEvals(w, S', s);
    assert S'[info.main] == Calc(Sanitize(main));
    LostIndex(w, S', s, info.main);
  }

  lemma {:induction false} IndexRequestEvals(w: World, S: Store, s: Schema)
    requires w.coerce(s, Integer(7)) == Some(Integer(7))
    ensures Evals(w, S, map[], Let([Binding("i", Value(Integer(0)))], IndexRequest(s)), Integer(7))
  {
    var bs := [Binding("i", Value(Integer(0)))];
    var main := IndexRequest(s);
    var env := Bind(map[], bs);
    assert bs[..0] == [] && env == map["i" := Value(Integer(0))];
    EvalItem(w, 1, S, env, Value(Integer(7)), Integer(7), s);
    assert Eval(w, 2, S, env, main.index) == Done(Integer(0));
    EvalPair(w, 2, S, env, main, Array([Integer(7)]), Integer(0));
    assert Eval(w, 4, S, map[], Let(bs, main)) == Done(Integer(7));
  }

  lemma {:induction false} EvalPair(w: World, n: nat, S: Store, env: Environment, e: Request, v0: Dynamic, v1: Dynamic)
    requires e.Item? && Eval(w, n, S, env, e.list) == Done(v0) && Eval(w, n, S, env, e.index) == Done(v1)
    ensures Eval(w, n + 1, S, env, e) == FromOption(ItemOf(w, v0, v1, e.schema))
  {
    var cs := Children(e);
    assert cs[1..] == [e.index] && cs[1..][1..] == [];
    assert EvalAll(w, n, S, env, cs[1..][1..], None) == Done([]);
    assert EvalAll(w, n, S, env, cs[1..], None) == Done([v1] + []);
    assert EvalAll(w, n, S, env, cs, None) == Done([v0] + ([v1] + []));
  }

  lemma {:induction false} LostIndex(w: World, S: Store, s: Schema, id: string)
    requires Lawful(w) && id in S && S[id] == Calc(Sanitize(IndexRequest(s)))
    ensures forall v :: !Denotes(w, S, id, v)
  {
    forall v, n: nat ensures Fetch(w, n, S, id) != Done(v) {
      if n > 0 {
        RewritingKeepsMeaning(w, n - 1, S, IndexRequest(s));
        var e := IndexRequest(s);
        assert Children(e)[1] == e.index && !ClosedIn({}, e.index);
        assert LetFree(e.list) by { assert LetFree(Children(e.list)[0]); }
        OpenHasNoValue(w, n - 1, S, IndexRequest(s));
      }
    }
  }

  ghost function ShadowedBindings(s: Schema): seq<Binding> {
    [Binding("x", Value(Integer(1))), Binding("y", ArrayOf([Variable("x")], s))]
  }

  ghost function ShadowingRequest(s: Schema): Request {
    Let(ShadowedBindings(s), Let([Binding("x", Value(Integer(2)))], Variable("y")))
  }

  /** let x = 1, y = [x] in let x = 2 in y: environments are looked up dynamically, ids are not. */
  lemma {:induction false} ShadowingChangesMeaning(w: World, S: Store, s: Schema)
    requires Lawful(w) && ValidStore(w, S)
    requires w.coerce(s, Integer(1)) == Some(Integer(1)) && w.coerce(s, Integer(2)) == Some(Integer(2))
    ensures var r := SubmitLet(w, S, ShadowingRequest(s), [], false);
            && r.Ok? && Evals(w, r.value.1, map[], ShadowingRequest(s), Array([Integer(2)]))
            && Denotes(w, r.value.1, r.value.0.main, Array([Integer(1)]))
  {
    var one := w.id(Calc(Value(Integer(1))));
    var S' := ShadowingSubmission(w, S, s, one);
    ShadowedEnvironment(w, S', s);
    FirstBindingSeen(w, S', s, one);
  }

  lemma {:induction false} ShadowingSubmission(w: World, S: Store, s: Schema, one: string) returns (S': Store)
    requires Lawful(w) && ValidStore(w, S) && one == w.id(Calc(Value(Integer(1))))
    ensures var y := Calc(ArrayOf([Reference(one)], s));
            var r := SubmitLet(w, S, ShadowingRequest(s), [], false);
            && r.Ok? && r.value.0.main == w.id(y) && r.value.1 == S'
            && w.id(y) in S' && S'[w.id(y)] == y && one in S' && S'[one] == Calc(Value(Integer(1)))
  {
    var b0, b1, b2 := ShadowedBindings(s)[0], ShadowedBindings(s)[1], Binding("x", Value(Integer(2)));
    var y := ArrayOf([Reference(one)], s);
    FlattenShadowing(s, [b0, b1, b2]);
    ValueAsIs(map[], Integer(1));
    SubmitOneIs(w, Start(S), b0, Value(Integer(1)));
    var p1 := Record(Start(S), Submit(w, S, Value(Integer(1)), false).1, b0, one, []);
    SubstituteItem(p1.subs, Variable("x"), Reference(one), s);
    SanitizeItem(one, s);
    SubmitOneIs(w, p1, b1, y);
    var p2 := Record(p1, Submit(w, p1.store, y, false).1, b1, w.id(Calc(y)), []);
    ValueAsIs(p2.subs, Integer(2));
    SubmitOneIs(w, p2, b2, Value(Integer(2)));
    var p3 := Record(p2, Submit(w, p2.store, Value(Integer(2)), false).1, b2, w.id(Calc(Value(Integer(2)))), []);
    ThreeSteps(w, Start(S), p1, p2, p3, [b0, b1, b2]);
    S' := p3.store;
    SubmitGrows(w, S, Value(Integer(1)), false);
    SubmitGrows(w, p1.store, y, false);
    SubmitGrows(w, p2.store, Value(Integer(2)), false);
  }

  lemma {:induction false} FlattenShadowing(s: Schema, bs: seq<Binding>)
    requires bs == [ShadowedBindings(s)[0], ShadowedBindings(s)[1], Binding("x", Value(Integer(2)))]
    ensures Flatten(ShadowingRequest(s)) == bs && Innermost(ShadowingRequest(s)) == Variable("y")
  {
    var inner := [Binding("x", Value(Integer(2)))];
    assert Flatten(Variable("y")) == [] && inner + [] == inner;
    assert Flatten(ShadowingRequest(s).body) == inner;
    assert ShadowedBindings(s) + inner == bs;
  }

  lemma {:induction false} ThreeSteps(w: World, p: Progress, p1: Progress, p2: Progress, p3: Progress, bs: seq<Binding>)
    requires |bs| == 3 && SubmitOne(w, p, bs[0], [], false) == Ok(p1)
    requires SubmitOne(w, p1, bs[1], [], false) == Ok(p2) && SubmitOne(w, p2, bs[2], [], false) == Ok(p3)
    ensures SubmitAll(w, p, bs, [], false) == Ok(p3)
  {
    assert bs[1..][0] == bs[1] && bs[1..][1..] == bs[2..] && bs[2..][0] == bs[2] && bs[2..][1..] == [];
    assert SubmitAll(w, p2, bs[2..], [], false) == SubmitAll(w, p3, [], [], false) == Ok(p3);
    assert SubmitAll(w, p1, bs[1..], [], false) == SubmitAll(w, p2, bs[2..], [], false);
  }

  lemma {:induction false} FirstBindingSeen(w: World, S: Store, s: Schema, one: string)
    requires one in S && S[one] == Calc(Value(Integer(1))) && w.coerce(s, Integer(1)) == Some(Integer(1))
    requires var y := Calc(ArrayOf([Reference(one)], s)); w.id(y) in S && S[w.id(y)] == y
    ensures Denotes(w, S, w.id(Calc(ArrayOf([Reference(one)], s))), Array([Integer(1)]))
  {
    assert Fetch(w, 2, S, one) == Done(Integer(1));
    assert Eval(w, 3, S, map[], Reference(one)) == Done(Integer(1));
    EvalItem(w, 3, S, map[], Reference(one), Integer(1), s);
    assert Fetch(w, 5, S, w.id(Calc(ArrayOf([Reference(one)], s)))) == Done(Array([Integer(1)]));
  }

  lemma {:induction false} ShadowedEnvironment(w: World, S: Store, s: Schema)
    requires w.coerce(s, Integer(2)) == Some(Integer(2))
    ensures Evals(w, S, map[], ShadowingRequest(s), Array([Integer(2)]))
  {
    var inner := [Binding("x", Value(Integer(2)))];
    var outer := Bind(map[], ShadowedBindings(s));
    var env := Bind(outer, inner);
    ShadowedBind(s);
    assert Eval(w, 1, S, env, env["x"]) == Done(Integer(2));
    assert Eval(w, 2, S, env, Variable("x")) == Done(Integer(2));
    EvalItem(w, 2, S, env, Variable("x"), Integer(2), s);
    EvalShadowed(w, S, s, env, outer, inner);
  }

  lemma {:induction false} EvalShadowed(
      w: World, S: Store, s: Schema, env: Environment, outer: Environment, inner: seq<Binding>)
    requires outer == Bind(map[], ShadowedBindings(s)) && inner == [Binding("x", Value(Integer(2)))]
    requires env == Bind(outer, inner)
    requires "y" in env && Eval(w, 3, S, env, env["y"]) == Done(Array([Integer(2)]))
    ensures Evals(w, S, map[], ShadowingRequest(s), Array([Integer(2)]))
  {
    assert Eval(w, 4, S, env, Variable("y")) == Done(Array([Integer(2)]));
    assert Eval(w, 5, S, outer, Let(inner, Variable("y"))) == Done(Array([Integer(2)]));
    assert Eval(w, 6, S, map[], ShadowingRequest(s)) == Done(Array([Integer(2)]));
  }

  lemma {:induction false} ShadowedBind(s: Schema)
    ensures var env := Bind(Bind(map[], ShadowedBindings(s)), [Binding("x", Value(Integer(2)))]);
            "x" in env && "y" in env && env["x"] == Value(Integer(2)) && env["y"] == ArrayOf([Variable("x")], s)
  {
    var bs := ShadowedBindings(s);
    var inner := [Binding("x", Value(Integer(2)))];
    var outer := Bind(map[], bs);
    assert bs[..1] == [bs[0]] && [bs[0]][..0] == [];
    assert outer["y"] == ArrayOf([Variable("x")], s);
    assert inner[..0] == [] && Bind(outer, inner[..0]) == outer;
    assert Bind(outer, inner) == outer["x" := Value(Integer(2))];
  }
}
