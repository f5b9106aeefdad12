/** Runs in which no transmission fails, and a steady run in which one does. */
module SupervisorRuns {
  import opened Wrappers
  import opened Requests
  import opened Supervisor
  import opened SupervisorSafety
  import opened SupervisorRace

  // ----- no transmission fails -----

  ghost predicate Fails(s: System, t: System) {
    s.caller.Writing? && t.caller.Stopping?
  }

  ghost predicate NoneFails(run: seq<System>) {
    forall k :: 0 <= k < |run| - 1 ==> !Fails(run[k], run[k + 1])
  }

  /** At most one provider is ever started: once it is accepted, nothing is left to accept. */
  ghost predicate Single(s: System) {
    && (HasCall(s) ==> !s.caller.call.failed) && !s.caller.Stopping?
    && (forall k :: 0 <= k < |s.endings| ==> !s.endings[k].0.failed)
    && (s.provider.None? ==> s.started == map[] && s.messenger.Accepting?)
    && (s.caller.Respawning? ==> s.provider.None?)
    && (s.caller.Starting? ==> s.started == map[])
    && (s.caller.Starting? || s.started != map[] ==> s.messenger.Accepting? && s.state == AWAITING_REGISTRATION)
    && (s.started != map[] ==> s.provider.Some? && forall p :: p in s.started ==> p == s.provider.value.pid)
  }

  lemma {:induction false} SingleIsSteady(app: App, s: System, t: System)
    requires Inv(app, s) && Single(s) && Step(app, s, t) && !Fails(s, t)
    ensures !Interferes(s, t)
  {
  }

  lemma {:induction false} CallerKeepsSingle(app: App, s: System, t: System)
    requires Inv(app, s) && Single(s) && CallerStep(s, t) && !Fails(s, t)
    ensures Single(t)
  {
  }

  lemma {:induction false} MessengerKeepsSingle(app: App, s: System, t: System)
    requires Inv(app, s) && Single(s) && MessengerStep(s, t)
    ensures Single(t)
  {
    if s.messenger.Accepting? {
      var pid: nat :| pid in s.started && t.started == s.started - {pid};
      assert t.started == map[];
    }
  }

  lemma {:induction false} SingleRun(app: App, run: seq<System>, k: nat)
    requires Run(app, run) && NoneFails(run) && k < |run|
    ensures Inv(app, run[k]) && Single(run[k])
    decreases k
  {
    if k > 0 {
      SingleRun(app, run, k - 1);
      SingleStep(app, run[k - 1], run[k - 1 + 1]);
    }
  }

  lemma {:induction false} SingleStep(app: App, s: System, t: System)
    requires Inv(app, s) && Single(s) && Step(app, s, t) && !Fails(s, t)
    ensures Inv(app, t) && Single(t)
  {
    SingleIsSteady(app, s, t);
    StepKeeps(app, s, t);
    if MessengerStep(s, t) {
      MessengerKeepsSingle(app, s, t);
    } else if CallerStep(s, t) {
      CallerKeepsSingle(app, s, t);
    }
  }

  /** In every run in which no transmission fails, whatever the threads interleave: at most one
      FUNCTION is unanswered, every value returned is the app's function applied to the call's
      own name and arguments, and the final check of the state never fails. */
  lemma {:induction false} UnfailingRunsAreSafe(app: App, run: seq<System>, k: nat)
    requires Run(app, run) && NoneFails(run) && k < |run|
    ensures SteadyRun(run)
    ensures run[k].connection.Some? ==>
              var c := run[k].connection.value; c.received <= c.sent <= c.received + 1
    ensures forall call, v :: (call, Returned(v)) in run[k].endings ==> app(call.image, call.name, call.args) == Some(v)
    ensures forall call :: (call, StillBusy) !in run[k].endings
  {
    forall j | 0 <= j < |run| - 1 ensures !Interferes(run[j], run[j + 1]) {
      SingleRun(app, run, j);
      SingleIsSteady(app, run[j], run[j + 1]);
    }
    SteadyRunsAreSafe(app, run, k);
    SingleRun(app, run, k);
    forall call, v | (call, Returned(v)) in run[k].endings ensures !call.failed {
      var j :| 0 <= j < |run[k].endings| && run[k].endings[j] == (call, Returned(v));
    }
  }

  // ----- no call is given up -----

  /** The messenger reports a lost connection as the failure of a call. */
  ghost predicate GivesUp(s: System, t: System) {
    t.messenger.CatchProducing?
  }

  /** What is in the mailbox and what was taken out of it is what the app gives. */
  ghost predicate TruthfulMail(app: App, s: System) {
    && !s.messenger.CatchProducing?
    && (s.mailbox.Some? ==> Expecting(s) && s.mailbox.value == ResultOf(app, s.caller.call))
    && (s.caller.Consumed? ==> s.caller.result == ResultOf(app, s.caller.call))
  }

  /** Calls have failed because the app gives no value. */
  ghost predicate TruthfulEndings(app: App, endings: seq<(Call, Ending)>) {
    forall k :: 0 <= k < |endings| && endings[k].1.Failure? ==> ResultOf(app, endings[k].0) == None
  }

  ghost predicate Truthful(app: App, s: System) {
    TruthfulMail(app, s) && TruthfulEndings(app, s.endings)
  }

  lemma {:induction false} CallerKeepsMail(app: App, s: System, t: System)
    requires Inv(app, s) && TruthfulMail(app, s) && CallerStep(s, t)
    ensures TruthfulMail(app, t)
  {
  }

  lemma {:induction false} CallerKeepsEndings(app: App, s: System, t: System)
    requires CallerOk(app, s) && TruthfulMail(app, s) && TruthfulEndings(app, s.endings) && CallerStep(s, t)
    ensures TruthfulEndings(app, t.endings)
  {
  }

  lemma {:induction false} MessengerKeepsMail(app: App, s: System, t: System)
    requires Inv(app, s) && TruthfulMail(app, s) && MessengerStep(s, t) && !GivesUp(s, t)
    ensures TruthfulMail(app, t) && t.endings == s.endings
  {
  }

  lemma {:induction false} TruthfulRun(app: App, run: seq<System>, k: nat)
    requires Run(app, run) && SteadyRun(run) && k < |run|
    requires forall j :: 0 <= j < |run| - 1 ==> !GivesUp(run[j], run[j + 1])
    ensures Inv(app, run[k]) && Truthful(app, run[k])
    decreases k
  {
    RunKeeps(app, run, k);
    if k > 0 {
      TruthfulRun(app, run, k - 1);
      var s, t := run[k - 1], run[k - 1 + 1];
      assert Step(app, s, t) && !GivesUp(s, t);
      if MessengerStep(s, t) {
        MessengerKeepsMail(app, s, t);
      } else if CallerStep(s, t) {
        CallerKeepsMail(app, s, t);
        CallerKeepsEndings(app, s, t);
      }
    }
  }

  /** Where no call is given up for a lost connection, calls end as the app decides: those that
      return a value, with the value it gives, and those that fail, because it gives none. */
  lemma {:induction false} CallsEndAsTheAppDecides(app: App, run: seq<System>, k: nat)
    requires Run(app, run) && SteadyRun(run) && k < |run|
    requires forall j :: 0 <= j < |run| - 1 ==> !GivesUp(run[j], run[j + 1])
    ensures forall call, v :: (call, Returned(v)) in run[k].endings ==>
              app(call.image, call.name, if call.failed then [] else call.args) == Some(v)
    ensures forall call :: (call, Failure) in run[k].endings ==>
              app(call.image, call.name, if call.failed then [] else call.args) == None
  {
    SteadyRunsAreSafe(app, run, k);
    TruthfulRun(app, run, k);
    forall call | (call, Failure) in run[k].endings ensures ResultOf(app, call) == None {
      var j :| 0 <= j < |run[k].endings| && run[k].endings[j] == (call, Failure);
    }
  }

  // ----- no call is forgotten -----

  /** A connection is lost. */
  ghost predicate Loses(s: System, t: System) {
    t.messenger.Caught?
  }

  /** The provider of the call has not been accepted yet, or its registration has not been read. */
  ghost predicate Registering(s: System) {
    && s.state == AWAITING_REGISTRATION && s.provider.Some?
    && (s.provider.value.pid in s.started
        || (s.connection.Some? && REGISTRATION(s.provider.value.pid) in s.connection.value.outbox))
  }

  /** Something is under way that ends with a result for the call. */
  ghost predicate UnderWay(s: System) {
    || s.mailbox.Some? || s.messenger.Terminal? || s.messenger.Producing?
    || (s.connection.Some? && Pending(s.connection.value) == 1)
    || s.messenger.Registered? || s.messenger.Sending? || Registering(s)
  }

  /** A call that waits is owed its result, as long as no connection is lost. */
  ghost predicate Owed(s: System) {
    && !s.messenger.Caught? && !s.messenger.CatchProducing? && !s.messenger.CatchIdling?
    && (s.state == AWAITING_RESULT || (s.state == IDLE && s.provider.Some?) ==> s.connection.Some?)
    && (Expecting(s) ==> UnderWay(s))
  }

  lemma {:induction false} CallerKeepsOwed(app: App, s: System, t: System)
    requires Inv(app, s) && Single(s) && Owed(s) && CallerStep(s, t) && !Fails(s, t)
    ensures Owed(t)
  {
    if s.caller.Writing? && t.caller.Clearing? {
      var c := s.connection.value;
      CountFunctionsAppend(c.inbox, FUNCTION(s.request.value));
    }
  }

  lemma {:induction false} MessengerKeepsOwed(app: App, s: System, t: System)
    requires Inv(app, s) && Single(s) && Owed(s) && MessengerStep(s, t) && !Loses(s, t)
    ensures Owed(t)
  {
    if s.messenger.Sending? {
      CountFunctionsAppend(s.connection.value.inbox, FUNCTION(s.request.value));
    } else if s.messenger.Reading? {
      ReadingKeepsOwed(app, s, t);
    }
  }

  lemma {:induction false} ReadingKeepsOwed(app: App, s: System, t: System)
    requires Inv(app, s) && Single(s) && Owed(s) && s.messenger.Reading? && MessengerStep(s, t) && !Loses(s, t)
    ensures Owed(t)
  {
    var c := s.connection.value;
    assert c.outbox == [c.outbox[0]] + c.outbox[1..];
  }

  lemma {:induction false} ProviderKeepsOwed(app: App, s: System, d: Connection)
    requires Inv(app, s) && Owed(s) && s.connection.Some? && ProviderStep(app, s.connection.value, d)
    ensures Owed(s.(connection := Some(d)))
  {
    var c := s.connection.value;
    ProviderKeeps(app, c, d, Call("", "", [], false));
  }

  lemma {:induction false} OwedRun(app: App, run: seq<System>, k: nat)
    requires Run(app, run) && NoneFails(run) && k < |run|
    requires forall j :: 0 <= j < |run| - 1 ==> !Loses(run[j], run[j + 1])
    ensures Owed(run[k])
    decreases k
  {
    if k > 0 {
      OwedRun(app, run, k - 1);
      SingleRun(app, run, k - 1);
      var s, t := run[k - 1], run[k - 1 + 1];
      assert Step(app, s, t) && !Loses(s, t) && !Fails(s, t);
      if MessengerStep(s, t) {
        MessengerKeepsOwed(app, s, t);
      } else if CallerStep(s, t) {
        CallerKeepsOwed(app, s, t);
      } else {
        var d: Connection :| ProviderStep(app, s.connection.value, d) && t == s.(connection := Some(d));
        ProviderKeepsOwed(app, s, d);
      }
    }
  }

  /** Where no connection is lost and no transmission fails, a call that waits is never forgotten:
      its provider is registering or being sent the request, its request is with the provider, its
      answer on the way back, or its result in the mailbox or about to be put there. */
  lemma {:induction false} WaitingCallsAreOwed(app: App, run: seq<System>, k: nat)
    requires Run(app, run) && NoneFails(run) && k < |run|
    requires forall j :: 0 <= j < |run| - 1 ==> !Loses(run[j], run[j + 1])
    ensures run[k].caller.Waiting? ==> UnderWay(run[k])
  {
    OwedRun(app, run, k);
  }

  // ----- a transmission fails -----

  function Respawned(image: string, c: string, vc: Dynamic, call: Call): (s: System) {
    System(AWAITING_REGISTRATION, Some(Invocation(call.name, [])), Some(Provider(1, image)), None, Waiting(call),
        Accepting, None, map[1 := image], 2, [(Plainly(image, c), Returned(vc))])
  }

  /** The provider is lost while it is idle, and the next request cannot be written: another
      provider is started for it. */
  lemma {:induction false} WriteFails(app: App, image: string, c: string, vc: Dynamic, call: Call)
    requires app(image, c, []) == Some(vc) && call.image == image && !call.failed
    ensures Reachable(app, Respawned(image, c, vc, call.(failed := true)), true)
  {
    var s := AfterFirst(image, c, vc);
    FirstCall(app, image, c, vc, true);
    var t1 := s.(connection := None, messenger := Caught);
    MessengerMoves(app, s, t1, true);
    var t2 := t1.(messenger := Accepting);
    MessengerMoves(app, t1, t2, true);
    var t3 := t2.(caller := Prepared(call));
    CallerMoves(app, t2, t3, true);
    var t4 := t3.(request := Some(Invocation(call.name, call.args)), caller := Stored(call));
    CallerMoves(app, t3, t4, true);
    var t5 := t4.(caller := Announcing(call));
    CallerMoves(app, t4, t5, true);
    var t6 := t5.(state := AWAITING_RESULT, caller := Writing(call));
    CallerMoves(app, t5, t6, true);
    StartsAgain(app, image, c, vc, call, t6);
  }

  lemma {:induction false} StartsAgain(app: App, image: string, c: string, vc: Dynamic, call: Call, s: System)
    requires Reachable(app, s, true) && call.image == image && !call.failed
    requires s == System(AWAITING_RESULT, Some(Invocation(call.name, call.args)), Some(Provider(0, image)), None,
        Writing(call), Accepting, None, map[], 1, [(Plainly(image, c), Returned(vc))])
    ensures Reachable(app, Respawned(image, c, vc, call.(failed := true)), true)
  {
    var failed := call.(failed := true);
    var t1 := s.(request := Some(Invocation(call.name, [])), caller := Stopping(failed));
    CallerMoves(app, s, t1, true);
    var t2 := t1.(provider := None, caller := Respawning(failed));
    CallerMoves(app, t1, t2, true);
    var t3 := t2.(state := AWAITING_REGISTRATION, provider := Some(Provider(1, image)), nextPid := 2,
        caller := Starting(failed));
    CallerMoves(app, t2, t3, true);
    var t4 := t3.(started := map[1 := image], caller := Waiting(failed));
    CallerMoves(app, t3, t4, true);
  }

  /** A steady run in which a call with any arguments returns the value that the app's function
      has for none. */
  lemma {:induction false} ArgumentsAreLost(
      app: App, image: string, b: string, args: seq<Dynamic>, c: string, v: Dynamic, vc: Dynamic)
    returns (run: seq<System>)
    requires app(image, b, []) == Some(v) && app(image, c, []) == Some(vc)
    ensures Run(app, run) && SteadyRun(run)
    ensures var e := run[|run| - 1].endings; |e| == 2 && e[1] == (Call(image, b, args, true), Returned(v))
  {
    var call := Call(image, b, args, false);
    WriteFails(app, image, c, vc, call);
    var failed := call.(failed := true);
    var s := Answered(app, Respawned(image, c, vc, failed), image, b, 1, v, true);
    var t1 := s.(mailbox := Some(Some(v)), messenger := Reading);
    MessengerMoves(app, s, t1, true);
    var t2 := t1.(mailbox := None, caller := Consumed(failed, Some(v)));
    CallerMoves(app, t1, t2, true);
    var last := End(t2, failed, Returned(v));
    CallerMoves(app, t2, last, true);
    run :| Run(app, run) && run[|run| - 1] == last && SteadyRun(run);
  }
}
