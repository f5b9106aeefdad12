/** Exactly when the calculation that a let submission posts means what the request means. */
module LetSubmissionExact {
  import opened Wrappers
  import opened Requests
  import opened RequestForms
  import opened Agreement
  import opened LetSubmission
  import opened LetSubmissionRuns

  // ----- what is needed -----

  /** The variables outside item indices and property fields: those that are substituted. */
  function Uses(e: Request): (r: set<string>)
    decreases e
  {
    if e.Variable? then {e.name}
    else set k: nat, x | k < Visited(e) && x in Uses(Children(e)[k]) :: x
  }

  /** The names that are needed before a binding, from those needed after it. */
  function Before(b: Binding, names: set<string>): (r: set<string>) {
    if b.name in names then names - {b.name} + Uses(b.request) else names
  }

  /** The right-hand sides that are needed, directly or through needed ones, mention no variable
      in item indices and property fields. */
  ghost predicate NeededClosed(bs: seq<Binding>, names: set<string>)
    decreases |bs|
  {
    bs == [] ||
    var b := bs[|bs| - 1];
    (b.name in names ==> ClosedPositions(b.request)) && NeededClosed(bs[..|bs| - 1], Before(b, names))
  }

  /** No needed right-hand side uses a name that is bound there or later; `later` are the names
      bound after these bindings. */
  ghost predicate Unshadowed(bs: seq<Binding>, names: set<string>, later: set<string>)
    decreases |bs|
  {
    bs == [] ||
    var b := bs[|bs| - 1];
    && (b.name in names ==> Uses(b.request) !! later + {b.name})
    && Unshadowed(bs[..|bs| - 1], Before(b, names), later + {b.name})
  }

  // ----- substitution looks at what is used -----

  ghost predicate AgreeOn(names: set<string>, subs: Substitutions, subs': Substitutions) {
    forall x :: x in names && x in subs ==> x in subs' && subs'[x] == subs[x]
  }

  lemma {:induction false} ChildAgrees(subs: Substitutions, subs': Substitutions, e: Request, k: nat)
    requires k < Visited(e) && !e.Variable? && AgreeOn(Uses(e), subs, subs')
    ensures AgreeOn(Uses(Children(e)[k]), subs, subs')
  {
  }

  lemma {:induction false} SubstituteUses(subs: Substitutions, subs': Substitutions, e: Request)
    requires Substitute(subs, e).Some? && AgreeOn(Uses(e), subs, subs')
    ensures Substitute(subs', e) == Substitute(subs, e)
    decreases e, |Children(e)| + 1, 0
  {
    if !e.Variable? { SubstituteFromUses(subs, subs', e, 0); }
  }

  lemma {:induction false} SubstituteFromUses(subs: Substitutions, subs': Substitutions, e: Request, k: nat)
    requires !e.Variable? && k <= |Children(e)| && SubstituteFrom(subs, e, k).Some? && AgreeOn(Uses(e), subs, subs')
    ensures SubstituteFrom(subs', e, k) == SubstituteFrom(subs, e, k)
    decreases e, |Children(e)| - k, 1
  {
    if k < |Children(e)| {
      FromStep(subs, e, k);
      FromStep(subs', e, k);
      SubstituteFromUses(subs, subs', e, k + 1);
      if k < Visited(e) { SubstituteChildUses(subs, subs', e, k); }
    }
  }

  lemma {:induction false} SubstituteChildUses(subs: Substitutions, subs': Substitutions, e: Request, k: nat)
    requires !e.Variable? && k < Visited(e) && Substitute(subs, Children(e)[k]).Some? && AgreeOn(Uses(e), subs, subs')
    ensures Substitute(subs', Children(e)[k]) == Substitute(subs, Children(e)[k])
    decreases e, |Children(e)| - k, 0
  {
    ChildAgrees(subs, subs', e, k);
    SubstituteUses(subs, subs', Children(e)[k]);
  }

  function Prepended(c: Option<Request>, rest: Option<seq<Request>>): (r: Option<seq<Request>>) {
    if c.None? || rest.None? then None else Some([c.value] + rest.value)
  }

  lemma {:induction false} FromStep(subs: Substitutions, e: Request, k: nat)
    requires k < |Children(e)|
    ensures SubstituteFrom(subs, e, k)
            == Prepended(if k < Visited(e) then Substitute(subs, Children(e)[k]) else Some(Children(e)[k]),
                         SubstituteFrom(subs, e, k + 1))
  {
  }

  /** A variable that was to be substituted had a substitution. */
  lemma {:induction false} UsesSubstituted(subs: Substitutions, e: Request)
    requires Substitute(subs, e).Some?
    ensures Uses(e) <= subs.Keys
    decreases e
  {
    forall x | x in Uses(e) ensures x in subs {
      if !e.Variable? {
        var k: nat :| k < Visited(e) && x in Uses(Children(e)[k]);
        SubstitutedChild(subs, e, k);
        UsesSubstituted(subs, Children(e)[k]);
      }
    }
  }

  lemma {:induction false} SubstitutedChild(subs: Substitutions, e: Request, k: nat)
    requires Substitute(subs, e).Some? && !e.Variable? && k < Visited(e)
    ensures |Children(Substitute(subs, e).value)| == |Children(e)|
    ensures Substitute(subs, Children(e)[k]) == Some(Children(Substitute(subs, e).value)[k])
  {
    SubstituteFromAt(subs, e, 0, k);
  }

  // ----- needed ids have the values of their variables -----

  function Restricted(subs: Substitutions, names: set<string>): (r: Substitutions) {
    map x | x in subs && x in names :: subs[x]
  }

  /** The needed substitutions have the values of their variables in the environment. */
  ghost predicate NeededMatches(w: World, T: Store, env: Environment, subs: Substitutions, names: set<string>) {
    names <= subs.Keys && Matches(w, T, env, Restricted(subs, names))
  }

  lemma {:induction false} UsedMeans(
      w: World, T: Store, env: Environment, subs: Substitutions, names: set<string>, e: Request)
    requires Lawful(w) && NeededMatches(w, T, env, subs, names) && Uses(e) <= names
    requires ClosedPositions(e) && Substitute(subs, e).Some?
    ensures Both(w, T, env, e, map[], Substitute(subs, e).value)
  {
    SubstituteUses(subs, Restricted(subs, names), e);
    SubstituteMeans(w, T, env, Restricted(subs, names), e);
  }

  /** Outside `later`, the environment has the bindings, the last ones where names are repeated. */
  ghost predicate Looks(env: Environment, bs: seq<Binding>, later: set<string>) {
    forall x :: x in Bind(map[], bs) && x !in later ==> x in env && env[x] == Bind(map[], bs)[x]
  }

  lemma {:induction false} SubmitLast(
      w: World, p: Progress, bs: seq<Binding>, reportedVariables: seq<string>, dryRun: bool)
    requires bs != [] && SubmitAll(w, p, bs, reportedVariables, dryRun).Ok?
    ensures var first := SubmitAll(w, p, bs[..|bs| - 1], reportedVariables, dryRun);
            && first.Ok?
            && SubmitOne(w, first.value, bs[|bs| - 1], reportedVariables, dryRun)
              == SubmitAll(w, p, bs, reportedVariables, dryRun)
  {
    LastOf(bs);
    SubmitOneMore(w, p, bs[..|bs| - 1], bs[|bs| - 1], bs, reportedVariables, dryRun);
  }

  lemma {:induction false} LastOf(bs: seq<Binding>)
    requires bs != []
    ensures bs == bs[..|bs| - 1] + [bs[|bs| - 1]]
  {
  }

  lemma {:induction false} SubmitOneMore(
      w: World, p: Progress, bs: seq<Binding>, b: Binding, all: seq<Binding>, reportedVariables: seq<string>,
      dryRun: bool)
    requires all == bs + [b]
    ensures var first := SubmitAll(w, p, bs, reportedVariables, dryRun);
            SubmitAll(w, p, all, reportedVariables, dryRun)
            == if first.Ok? then SubmitOne(w, first.value, b, reportedVariables, dryRun) else first
  {
    SubmitAllConcat(w, p, bs, [b], reportedVariables, dryRun);
    var first := SubmitAll(w, p, bs, reportedVariables, dryRun);
    if first.Ok? { SubmitSingle(w, first.value, b, reportedVariables, dryRun); }
  }

  lemma {:induction false} SubmitSingle(w: World, p: Progress, b: Binding, reportedVariables: seq<string>, dryRun: bool)
    ensures SubmitAll(w, p, [b], reportedVariables, dryRun) == SubmitOne(w, p, b, reportedVariables, dryRun)
  {
    assert [b][1..] == [];
  }

  lemma {:induction false} SubmittedMatch(
      w: World, S: Store, T: Store, env: Environment, bs: seq<Binding>, names: set<string>, later: set<string>,
      reportedVariables: seq<string>, dryRun: bool)
    requires Lawful(w) && ValidStore(w, S) && SubmitAll(w, Start(S), bs, reportedVariables, dryRun).Ok?
    requires Extends(SubmitAll(w, Start(S), bs, reportedVariables, dryRun).value.store, T)
    requires NeededClosed(bs, names) && Unshadowed(bs, names, later) && names !! later && Looks(env, bs, later)
    requires names <= SubmitAll(w, Start(S), bs, reportedVariables, dryRun).value.subs.Keys
    ensures NeededMatches(w, T, env, SubmitAll(w, Start(S), bs, reportedVariables, dryRun).value.subs, names)
    decreases |bs|
  {
    if bs != [] {
      var b, init := bs[|bs| - 1], bs[..|bs| - 1];
      SubmitLast(w, Start(S), bs, reportedVariables, dryRun);
      var p := SubmitAll(w, Start(S), init, reportedVariables, dryRun).value;
      var e' := Substitute(p.subs, b.request).value;
      SubmitAllGrows(w, Start(S), init, reportedVariables, dryRun);
      SubmitGrows(w, p.store, e', dryRun);
      UsesSubstituted(p.subs, b.request);
      SubmittedMatch(w, S, T, env, init, Before(b, names), later + {b.name}, reportedVariables, dryRun);
      OneMatches(w, p, T, env, b, names, reportedVariables, dryRun);
    }
  }

  lemma {:induction false} OneMatches(
      w: World, p: Progress, T: Store, env: Environment, b: Binding, names: set<string>,
      reportedVariables: seq<string>, dryRun: bool)
    requires Lawful(w) && ValidStore(w, p.store) && SubmitOne(w, p, b, reportedVariables, dryRun).Ok?
    requires Extends(SubmitOne(w, p, b, reportedVariables, dryRun).value.store, T)
    requires NeededMatches(w, T, env, p.subs, Before(b, names))
    requires b.name in names ==> ClosedPositions(b.request) && b.name in env && env[b.name] == b.request
    requires names <= p.subs.Keys + {b.name}
    ensures NeededMatches(w, T, env, SubmitOne(w, p, b, reportedVariables, dryRun).value.subs, names)
  {
    var e' := Substitute(p.subs, b.request).value;
    var id := Submit(w, p.store, e', dryRun).0.value;
    var subs := SubmitOne(w, p, b, reportedVariables, dryRun).value.subs;
    assert subs == p.subs[b.name := Reference(id)];
    if b.name in names {
      UsedMeans(w, T, env, p.subs, Before(b, names), b.request);
      SubmitMeans(w, p.store, T, env, b.request, e', dryRun);
      SameVariable(w, T, env, b.name, id);
    }
    forall x | x in Restricted(subs, names) ensures Both(w, T, env, Variable(x), map[], subs[x]) {
      if x != b.name { assert x in Restricted(p.subs, Before(b, names)); }
    }
  }

  // ----- a value needs the values of what is used -----

  ghost predicate HasValue(w: World, T: Store, e: Request) {
    exists n: nat :: Eval(w, n, T, map[], e).Done?
  }

  /** Requests are strict: a value of the whole needs values of all that was substituted. */
  lemma {:induction false} UsedHaveValues(
      w: World, n: nat, T: Store, subs: Substitutions, e: Request, r: Request, x: string)
    requires Substitute(subs, e) == Some(r) && Eval(w, n, T, map[], r).Done? && x in Uses(e)
    ensures x in subs && HasValue(w, T, subs[x])
    decreases e
  {
    if e.Variable? {
      SubstituteVariable(subs, e, x);
    } else {
      var c, d := UsedInChild(w, n, T, subs, e, r, x);
      UsedHaveValues(w, n - 1, T, subs, c, d, x);
    }
  }

  lemma {:induction false} SubstituteVariable(subs: Substitutions, e: Request, x: string)
    requires e.Variable? && Substitute(subs, e).Some? && x in Uses(e)
    ensures x in subs && Substitute(subs, e) == Some(subs[x])
  {
  }

  lemma {:induction false} UsedInChild(
      w: World, n: nat, T: Store, subs: Substitutions, e: Request, r: Request, x: string)
      returns (c: Request, d: Request)
    requires Substitute(subs, e) == Some(r) && Eval(w, n, T, map[], r).Done? && x in Uses(e) && !e.Variable?
    ensures c < e && x in Uses(c) && Substitute(subs, c) == Some(d)
    ensures n > 0 && Eval(w, n - 1, T, map[], d).Done?
  {
    var k: nat :| k < Visited(e) && x in Uses(Children(e)[k]);
    SubstitutedChild(subs, e, k);
    ChildHasValue(w, n, T, r, k);
    c, d := Children(e)[k], Children(r)[k];
  }

  lemma {:induction false} ChildHasValue(w: World, n: nat, T: Store, e: Request, k: nat)
    requires Eval(w, n, T, map[], e).Done? && k < |Children(e)|
    ensures n > 0 && Eval(w, n - 1, T, map[], Children(e)[k]).Done?
  {
    if IsNode(e) { AllDoneMeansEachDone(w, n - 1, T, Children(e), k, ItemSchema(e)); }
  }

  /** A submitted request whose id has a value has one itself, so its positions were closed. */
  lemma {:induction false} PostedHasValue(w: World, S: Store, T: Store, subs: Substitutions, e: Request, dryRun: bool)
    requires Lawful(w) && ValidStore(w, S) && ByReferences(subs) && LetFree(e) && Substitute(subs, e).Some?
    requires var e' := Substitute(subs, e).value;
             Submit(w, S, e', dryRun).0.Some? && Extends(Submit(w, S, e', dryRun).1, T)
             && HasValue(w, T, Reference(Submit(w, S, e', dryRun).0.value))
    ensures ClosedPositions(e) && HasValue(w, T, Substitute(subs, e).value)
  {
    var e' := Substitute(subs, e).value;
    var id := Submit(w, S, e', dryRun).0.value;
    SubmitMeans(w, S, T, map[], e', e', dryRun);
    var n: nat :| Eval(w, n, T, map[], Reference(id)).Done?;
    assert Evals(w, T, map[], Reference(id), Eval(w, n, T, map[], Reference(id)).value);
    assert Evals(w, T, map[], e', Eval(w, n, T, map[], Reference(id)).value);
    ValueMeansClosed(w, T, subs, e);
  }

  lemma {:induction false} ValueMeansClosed(w: World, T: Store, subs: Substitutions, e: Request)
    requires ByReferences(subs) && LetFree(e) && Substitute(subs, e).Some? && HasValue(w, T, Substitute(subs, e).value)
    ensures ClosedPositions(e)
  {
    SubstituteOpen(subs, e);
    var n: nat :| Eval(w, n, T, map[], Substitute(subs, e).value).Done?;
    if !ClosedPositions(e) { OpenHasNoValue(w, n, T, Substitute(subs, e).value); }
  }

  ghost predicate AllLetFree(bs: seq<Binding>) {
    forall k :: 0 <= k < |bs| ==> LetFree(bs[k].request)
  }

  lemma {:induction false} SubmittedByReferences(
      w: World, p: Progress, bs: seq<Binding>, reportedVariables: seq<string>, dryRun: bool)
    requires ByReferences(p.subs) && SubmitAll(w, p, bs, reportedVariables, dryRun).Ok?
    ensures ByReferences(SubmitAll(w, p, bs, reportedVariables, dryRun).value.subs)
    decreases |bs|
  {
    if bs != [] {
      SubmittedByReferences(w, SubmitOne(w, p, bs[0], reportedVariables, dryRun).value, bs[1..], reportedVariables,
          dryRun);
    }
  }

  /** If the ids of the needed names have values, the needed right-hand sides are closed. */
  lemma {:induction false} ValuesMeanClosed(
      w: World, S: Store, T: Store, bs: seq<Binding>, names: set<string>, reportedVariables: seq<string>, dryRun: bool)
    requires Lawful(w) && ValidStore(w, S) && AllLetFree(bs)
    requires SubmitAll(w, Start(S), bs, reportedVariables, dryRun).Ok?
    requires Extends(SubmitAll(w, Start(S), bs, reportedVariables, dryRun).value.store, T)
    requires var subs := SubmitAll(w, Start(S), bs, reportedVariables, dryRun).value.subs;
             forall x :: x in names ==> x in subs && HasValue(w, T, subs[x])
    ensures NeededClosed(bs, names)
    decreases |bs|
  {
    if bs != [] {
      var b, init := bs[|bs| - 1], bs[..|bs| - 1];
      SubmitLast(w, Start(S), bs, reportedVariables, dryRun);
      var p := SubmitAll(w, Start(S), init, reportedVariables, dryRun).value;
      var e' := Substitute(p.subs, b.request).value;
      SubmitAllGrows(w, Start(S), init, reportedVariables, dryRun);
      SubmitGrows(w, p.store, e', dryRun);
      SubmittedByReferences(w, Start(S), init, reportedVariables, dryRun);
      if b.name in names {
        PostedHasValue(w, p.store, T, p.subs, b.request, dryRun);
        UsesHaveValues(w, T, p.subs, b.request);
      }
      ValuesMeanClosed(w, S, T, init, Before(b, names), reportedVariables, dryRun);
    }
  }

  lemma {:induction false} UsesHaveValues(w: World, T: Store, subs: Substitutions, e: Request)
    requires Substitute(subs, e).Some? && HasValue(w, T, Substitute(subs, e).value)
    ensures forall x :: x in Uses(e) ==> x in subs && HasValue(w, T, subs[x])
  {
    var n: nat :| Eval(w, n, T, map[], Substitute(subs, e).value).Done?;
    forall x | x in Uses(e) ensures x in subs && HasValue(w, T, subs[x]) {
      UsedHaveValues(w, n, T, subs, e, Substitute(subs, e).value, x);
    }
  }

  // ----- whole submissions -----

  /** The innermost request and all right-hand sides that it needs are closed in positions. */
  ghost predicate Needed(e: Request) {
    ClosedPositions(Innermost(e)) && NeededClosed(Flatten(e), Uses(Innermost(e)))
  }

  /** No name is bound again at or after a needed right-hand side that uses it. */
  ghost predicate NotRebound(e: Request) {
    Unshadowed(Flatten(e), Uses(Innermost(e)), {})
  }

  /** A submission has succeeded, and `T` is the store it left behind, or a later one. */
  ghost predicate Submitted(w: World, S: Store, T: Store, e: Request, reportedVariables: seq<string>, dryRun: bool) {
    && Lawful(w) && ValidStore(w, S) && SubmitLet(w, S, e, reportedVariables, dryRun).Ok?
    && Extends(SubmitLet(w, S, e, reportedVariables, dryRun).value.1, T)
  }

  function MainOf(w: World, S: Store, e: Request, reportedVariables: seq<string>, dryRun: bool): (id: string)
    requires SubmitLet(w, S, e, reportedVariables, dryRun).Ok?
  {
    SubmitLet(w, S, e, reportedVariables, dryRun).value.0.main
  }

  /** The main id denotes what environment-based evaluation of the request gives, if what is
      needed is closed in item indices and property fields and not bound again. */
  lemma {:induction false} SubmissionMeans(
      w: World, S: Store, T: Store, e: Request, reportedVariables: seq<string>, dryRun: bool)
    requires Submitted(w, S, T, e, reportedVariables, dryRun) && Needed(e) && NotRebound(e)
    ensures forall v :: Denotes(w, T, MainOf(w, S, e, reportedVariables, dryRun), v) <==> Evals(w, T, map[], e, v)
  {
    BodyMeans(w, S, T, Bind(map[], Flatten(e)), e, reportedVariables, dryRun);
    var id := MainOf(w, S, e, reportedVariables, dryRun);
    NestMeans(w, T, map[], e, id);
    SameDenotes(w, T, map[], e, id);
  }

  lemma {:induction false} BodyMeans(
      w: World, S: Store, T: Store, env: Environment, e: Request, reportedVariables: seq<string>, dryRun: bool)
    requires Submitted(w, S, T, e, reportedVariables, dryRun) && Needed(e) && NotRebound(e)
    requires env == Bind(map[], Flatten(e))
    ensures Same(w, T, env, Innermost(e), MainOf(w, S, e, reportedVariables, dryRun))
  {
    var bs, body := Flatten(e), Innermost(e);
    var p := SubmitAll(w, Start(S), bs, reportedVariables, dryRun).value;
    var main := Substitute(p.subs, body).value;
    SubmitAllGrows(w, Start(S), bs, reportedVariables, dryRun);
    SubmitGrows(w, p.store, main, dryRun);
    UsesSubstituted(p.subs, body);
    SubmittedMatch(w, S, T, env, bs, Uses(body), {}, reportedVariables, dryRun);
    UsedMeans(w, T, env, p.subs, Uses(body), body);
    SubmitMeans(w, p.store, T, env, body, main, dryRun);
  }

  lemma {:induction false} MainValueMeansNeeded(
      w: World, S: Store, T: Store, e: Request, reportedVariables: seq<string>, dryRun: bool, v: Dynamic)
    requires Submitted(w, S, T, e, reportedVariables, dryRun) && AllLetFree(Flatten(e)) && LetFree(Innermost(e))
    requires Denotes(w, T, MainOf(w, S, e, reportedVariables, dryRun), v)
    ensures Needed(e)
  {
    var bs, body := Flatten(e), Innermost(e);
    var p := SubmitAll(w, Start(S), bs, reportedVariables, dryRun).value;
    var main := Substitute(p.subs, body).value;
    var id := MainOf(w, S, e, reportedVariables, dryRun);
    SubmitAllGrows(w, Start(S), bs, reportedVariables, dryRun);
    SubmitGrows(w, p.store, main, dryRun);
    SubmittedByReferences(w, Start(S), bs, reportedVariables, dryRun);
    ReferenceDenotes(w, T, map[], id, v);
    PostedHasValue(w, p.store, T, p.subs, body, dryRun);
    UsesHaveValues(w, T, p.subs, body);
    ValuesMeanClosed(w, S, T, bs, Uses(body), reportedVariables, dryRun);
  }

  /** For a request with a value whose names are not bound again where they are needed: the main
      id denotes the value iff all that is needed is closed in item indices and property
      fields.  Otherwise it denotes nothing. */
  lemma {:induction false} SubmissionExact(
      w: World, S: Store, T: Store, e: Request, reportedVariables: seq<string>, dryRun: bool, v: Dynamic)
    requires Submitted(w, S, T, e, reportedVariables, dryRun) && AllLetFree(Flatten(e)) && LetFree(Innermost(e))
    requires NotRebound(e) && Evals(w, T, map[], e, v)
    ensures Denotes(w, T, MainOf(w, S, e, reportedVariables, dryRun), v) <==> Needed(e)
    ensures !Needed(e) ==> forall u :: !Denotes(w, T, MainOf(w, S, e, reportedVariables, dryRun), u)
  {
    forall u | Denotes(w, T, MainOf(w, S, e, reportedVariables, dryRun), u) ensures Needed(e) {
      MainValueMeansNeeded(w, S, T, e, reportedVariables, dryRun, u);
    }
    if Needed(e) { SubmissionMeans(w, S, T, e, reportedVariables, dryRun); }
  }

  /** Distinct names are not bound again. */
  lemma {:induction false} DistinctNotRebound(
      w: World, S: Store, e: Request, reportedVariables: seq<string>, dryRun: bool)
    requires SubmitLet(w, S, e, reportedVariables, dryRun).Ok? && DistinctNames(Flatten(e))
    ensures NotRebound(e)
  {
    DistinctUnshadowed(w, S, Flatten(e), Uses(Innermost(e)), {}, reportedVariables, dryRun);
  }

  lemma {:induction false} DistinctUnshadowed(
      w: World, S: Store, bs: seq<Binding>, names: set<string>, later: set<string>, reportedVariables: seq<string>,
      dryRun: bool)
    requires SubmitAll(w, Start(S), bs, reportedVariables, dryRun).Ok? && DistinctNames(bs)
    requires later !! Requests.Names(bs)
    ensures Unshadowed(bs, names, later)
    decreases |bs|
  {
    if bs != [] {
      var b, init := bs[|bs| - 1], bs[..|bs| - 1];
      SubmitLast(w, Start(S), bs, reportedVariables, dryRun);
      LastUses(w, S, bs, reportedVariables, dryRun);
      DistinctParts(bs);
      DistinctUnshadowed(w, S, init, Before(b, names), later + {b.name}, reportedVariables, dryRun);
    }
  }

  lemma {:induction false} DistinctParts(bs: seq<Binding>)
    requires bs != [] && DistinctNames(bs)
    ensures var b, init := bs[|bs| - 1], bs[..|bs| - 1];
            DistinctNames(init) && b.name !in Requests.Names(init)
                && Requests.Names(bs) == Requests.Names(init) + {b.name}
  {
    var b, init := bs[|bs| - 1], bs[..|bs| - 1];
    assert bs == init + [b];
    assert b in bs && forall c :: c in init ==> c in bs;
  }

  /** A right-hand side uses names that were bound before. */
  lemma {:induction false} LastUses(w: World, S: Store, bs: seq<Binding>, reportedVariables: seq<string>, dryRun: bool)
    requires bs != [] && SubmitAll(w, Start(S), bs, reportedVariables, dryRun).Ok?
    ensures Uses(bs[|bs| - 1].request) <= Requests.Names(bs[..|bs| - 1])
  {
    var init := bs[..|bs| - 1];
    SubmitLast(w, Start(S), bs, reportedVariables, dryRun);
    UsesSubstituted(SubmitAll(w, Start(S), init, reportedVariables, dryRun).value.subs, bs[|bs| - 1].request);
    SubmittedNames(w, Start(S), init, reportedVariables, dryRun);
  }

  lemma {:induction false} SubmittedNames(
      w: World, p: Progress, bs: seq<Binding>, reportedVariables: seq<string>, dryRun: bool)
    requires SubmitAll(w, p, bs, reportedVariables, dryRun).Ok?
    ensures SubmitAll(w, p, bs, reportedVariables, dryRun).value.subs.Keys <= p.subs.Keys + Requests.Names(bs)
    decreases |bs|
  {
    if bs != [] {
      assert bs[0] in bs && forall b :: b in bs[1..] ==> b in bs;
      SubmittedNames(w, SubmitOne(w, p, bs[0], reportedVariables, dryRun).value, bs[1..], reportedVariables, dryRun);
    }
  }
}
