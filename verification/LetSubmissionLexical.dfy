/** What a submission means without any condition: each right-hand side stands for its variable
    where the binding is made, as if it had been written there. */
module LetSubmissionLexical {
  import opened Wrappers
  import opened Requests
  import opened RequestForms
  import opened Agreement
  import opened LetSubmission
  import opened LetSubmissionRuns
  import opened LetSubmissionExact

  /** Every name with its last right-hand side, written out by the right-hand sides before it. */
  function WrittenOut(bs: seq<Binding>): (r: Option<Substitutions>)
    decreases |bs|
  {
    if bs == [] then Some(map[])
    else
      var b := bs[|bs| - 1];
      var subs := WrittenOut(bs[..|bs| - 1]);
      if subs.None? || Substitute(subs.value, b.request).None? then None
      else Some(subs.value[b.name := Substitute(subs.value, b.request).value])
  }

  /** The request without its lets: the innermost request with all right-hand sides written out. */
  function Lexical(e: Request): (r: Option<Request>) {
    var subs := WrittenOut(Flatten(e));
    if subs.None? then None else Substitute(subs.value, Innermost(e))
  }

  // ----- substituting requests of the same values -----

  ghost predicate SameSubstitutions(w: World, T: Store, subs: Substitutions, subs': Substitutions) {
    subs.Keys == subs'.Keys && forall x :: x in subs ==> Both(w, T, map[], subs[x], map[], subs'[x])
  }

  lemma {:induction false} SubstituteSame(w: World, T: Store, subs: Substitutions, subs': Substitutions, e: Request)
    requires Lawful(w) && SameSubstitutions(w, T, subs, subs') && Substitute(subs', e).Some?
    ensures Substitute(subs, e).Some? && Both(w, T, map[], Substitute(subs, e).value, map[], Substitute(subs', e).value)
    decreases e, |Children(e)| + 1
  {
    if IsNode(e) || e.Meta? {
      SubstituteFromSame(w, T, subs, subs', e, 0);
      var r, r' := Substitute(subs, e).value, Substitute(subs', e).value;
      ChildrenReplaced(e, Children(r), Children(r'));
      NodeBoth(w, T, map[], r, r');
    }
  }

  lemma {:induction false} ChildrenReplaced(e: Request, cs: seq<Request>, ds: seq<Request>)
    requires |cs| == |Children(e)| == |ds|
    ensures WithChildren(WithChildren(e, cs), ds) == WithChildren(e, ds)
  {
  }

  lemma {:induction false} SubstituteFromSame(
      w: World, T: Store, subs: Substitutions, subs': Substitutions, e: Request, k: nat)
    requires Lawful(w) && SameSubstitutions(w, T, subs, subs') && k <= |Children(e)|
    requires SubstituteFrom(subs', e, k).Some?
    ensures SubstituteFrom(subs, e, k).Some?
    ensures BelowAll(w, T, map[], SubstituteFrom(subs, e, k).value, map[], SubstituteFrom(subs', e, k).value)
    ensures BelowAll(w, T, map[], SubstituteFrom(subs', e, k).value, map[], SubstituteFrom(subs, e, k).value)
    decreases e, |Children(e)| - k
  {
    if k < |Children(e)| {
      FromStep(subs, e, k);
      FromStep(subs', e, k);
      if k < Visited(e) { SubstituteSame(w, T, subs, subs', Children(e)[k]); }
      SubstituteFromSame(w, T, subs, subs', e, k + 1);
      BelowCons(w, T, map[], SubstituteFrom(subs, e, k).value, map[], SubstituteFrom(subs', e, k).value);
      BelowCons(w, T, map[], SubstituteFrom(subs', e, k).value, map[], SubstituteFrom(subs, e, k).value);
    }
  }

  // ----- submitting means writing out -----

  lemma {:induction false} SubmittedMeansWrittenOut(
      w: World, S: Store, T: Store, bs: seq<Binding>, reportedVariables: seq<string>, dryRun: bool)
    requires Lawful(w) && ValidStore(w, S) && SubmitAll(w, Start(S), bs, reportedVariables, dryRun).Ok?
    requires Extends(SubmitAll(w, Start(S), bs, reportedVariables, dryRun).value.store, T)
    ensures WrittenOut(bs).Some?
    ensures SameSubstitutions(w, T, WrittenOut(bs).value,
        SubmitAll(w, Start(S), bs, reportedVariables, dryRun).value.subs)
    decreases |bs|
  {
    if bs != [] {
      var b, init := bs[|bs| - 1], bs[..|bs| - 1];
      SubmitLast(w, Start(S), bs, reportedVariables, dryRun);
      var p := SubmitAll(w, Start(S), init, reportedVariables, dryRun).value;
      var e' := Substitute(p.subs, b.request).value;
      SubmitAllGrows(w, Start(S), init, reportedVariables, dryRun);
      SubmitGrows(w, p.store, e', dryRun);
      SubmittedMeansWrittenOut(w, S, T, init, reportedVariables, dryRun);
      SubstituteSame(w, T, WrittenOut(init).value, p.subs, b.request);
      SubmitMeans(w, p.store, T, map[], Substitute(WrittenOut(init).value, b.request).value, e', dryRun);
    }
  }

  /** Whatever the names and positions of the variables, the main id of a successful submission
      denotes exactly the value of the request with its lets written out. */
  lemma {:induction false} SubmissionIsLexical(
      w: World, S: Store, T: Store, e: Request, reportedVariables: seq<string>, dryRun: bool)
    requires Submitted(w, S, T, e, reportedVariables, dryRun)
    ensures Lexical(e).Some?
    ensures forall v :: Denotes(w, T, MainOf(w, S, e, reportedVariables, dryRun), v) <==>
        Evals(w, T, map[], Lexical(e).value, v)
  {
    var bs, body := Flatten(e), Innermost(e);
    var p := SubmitAll(w, Start(S), bs, reportedVariables, dryRun).value;
    var main := Substitute(p.subs, body).value;
    SubmitAllGrows(w, Start(S), bs, reportedVariables, dryRun);
    SubmitGrows(w, p.store, main, dryRun);
    SubmittedMeansWrittenOut(w, S, T, bs, reportedVariables, dryRun);
    SubstituteSame(w, T, WrittenOut(bs).value, p.subs, body);
    SubmitMeans(w, p.store, T, map[], Lexical(e).value, main, dryRun);
    SameDenotes(w, T, map[], Lexical(e).value, MainOf(w, S, e, reportedVariables, dryRun));
  }

  /** A real submission succeeds iff the request can be written out. */
  lemma {:induction false} SubmittedIffWrittenOut(w: World, S: Store, e: Request, reportedVariables: seq<string>)
    ensures SubmitLet(w, S, e, reportedVariables, false).Ok? <==> Lexical(e).Some?
  {
    var bs := Flatten(e);
    AllSubmittedIffWrittenOut(w, Start(S), bs, reportedVariables);
    if WrittenOut(bs).Some? {
      SubstituteSucceeds(WrittenOut(bs).value, Innermost(e));
      SubstituteSucceeds(SubmitAll(w, Start(S), bs, reportedVariables, false).value.subs, Innermost(e));
    }
  }

  lemma {:induction false} AllSubmittedIffWrittenOut(
      w: World, p: Progress, bs: seq<Binding>, reportedVariables: seq<string>)
    requires p.subs == map[]
    ensures SubmitAll(w, p, bs, reportedVariables, false).Ok? <==> WrittenOut(bs).Some?
    ensures WrittenOut(bs).Some? ==>
              SubmitAll(w, p, bs, reportedVariables, false).value.subs.Keys == WrittenOut(bs).value.Keys
    decreases |bs|
  {
    if bs != [] {
      var b, init := bs[|bs| - 1], bs[..|bs| - 1];
      AllSubmittedIffWrittenOut(w, p, init, reportedVariables);
      LastOf(bs);
      SubmitOneMore(w, p, init, b, bs, reportedVariables, false);
      if WrittenOut(init).Some? {
        SubstituteSucceeds(WrittenOut(init).value, b.request);
        SubstituteSucceeds(SubmitAll(w, p, init, reportedVariables, false).value.subs, b.request);
      }
    }
  }
}
