/** What every run of the supervisor keeps. */
module SupervisorSafety {
  import opened Wrappers
  import opened Requests
  import opened Supervisor

  ghost predicate HasCall(s: System) {
    !s.caller.Outside?
  }

  /** The calculation thread has handed its request over, or has it handed over. */
  ghost predicate Expecting(s: System) {
    s.caller.Clearing? || s.caller.Waiting?
  }

  ghost function ResultOf(app: App, call: Call): Option<Dynamic> {
    app(call.image, call.name, Transmitted(call).args)
  }

  ghost predicate Quiet(s: System) {
    s.connection.Some? ==> Pending(s.connection.value) == 0
  }

  predicate Connected(m: Messenger) {
    m.Reading? || m.Registered? || m.Sending? || m.Sent? || m.Terminal? || m.Producing?
  }

  /** Process ids are never reused, and a connection exists iff the messenger serves it. */
  ghost predicate Shape(s: System) {
    && (forall p :: p in s.started ==> p < s.nextPid)
    && (s.provider.Some? ==> s.provider.value.pid < s.nextPid)
    && (s.connection.Some? <==> Connected(s.messenger))
    && (s.connection.Some? ==>
          var c := s.connection.value;
          && c.pid < s.nextPid && c.pid !in s.started
          && forall m :: m in c.outbox && m.REGISTRATION? ==> m.pid == c.pid)
  }

  /** FUNCTION messages sent minus terminal messages received is 0 or 1, and 1 only while the
      current call expects its result. */
  ghost predicate Traffic(app: App, s: System) {
    s.connection.Some? ==>
      var c := s.connection.value;
      && c.sent == c.received + Pending(c) && Pending(c) <= 1
      && (Pending(c) == 1 ==>
            && s.state == AWAITING_RESULT && Expecting(s) && s.mailbox.None?
            && (s.messenger.Reading? || s.messenger.Sent?) && Serves(app, c, s.caller.call))
  }

  ghost predicate AllImages(s: System, image: string) {
    && (forall p :: p in s.started ==> s.started[p] == image)
    && (s.connection.Some? ==> s.connection.value.image == image)
  }

  /** All providers run the image of the active one, which is that of the call. */
  ghost predicate Images(s: System) {
    && (s.provider.Some? ==> AllImages(s, s.provider.value.image))
    && (s.caller.Respawning? ==> AllImages(s, s.caller.call.image))
    && (HasCall(s) && s.provider.Some? ==> s.caller.call.image == s.provider.value.image)
  }

  /** Nothing has been started yet. */
  ghost predicate Fresh(s: System) {
    s.provider.None? && s.state == IDLE && s.started == map[] && s.connection.None? && s.messenger.Accepting?
        && s.mailbox.None?
  }

  /** The active provider has not been started, so it will not register. */
  ghost predicate Unstarted(s: System) {
    s.provider.Some? && s.provider.value.pid !in s.started
    && (s.connection.Some? ==> s.connection.value.pid != s.provider.value.pid)
  }

  /** Nothing has been put into the mailbox, or is about to be. */
  ghost predicate Recovering(s: System) {
    s.mailbox.None? && (s.messenger.Accepting? || s.messenger.Reading? || s.messenger.Caught?)
  }

  /** The connection was lost while the request was being written, and this has been handled. */
  ghost predicate Lost(s: System) {
    && (s.mailbox.Some? ==> s.mailbox.value.None?)
    && (s.messenger.CatchProducing? || s.messenger.CatchIdling? || s.messenger.Accepting?)
    && (s.messenger.CatchProducing? ==> s.mailbox.None?)
    && s.state == if s.messenger.Accepting? then IDLE else AWAITING_RESULT
  }

  ghost predicate CallerOk(app: App, s: System) {
    && (s.caller.Outside? ==> s.provider.Some? || Fresh(s))
    && (s.caller.Prepared? || s.caller.Stored? || s.caller.Announcing? ==>
          && !s.caller.call.failed
          && (if s.provider.Some? then s.state == IDLE else Fresh(s) && !s.caller.Announcing?))
    && (s.caller.Announcing? ==> s.mailbox.None?)
    && (s.caller.Stopping? ==> s.provider.Some? && s.state == AWAITING_RESULT && Recovering(s))
    && (s.caller.Writing? ==> !s.caller.call.failed && s.provider.Some?)
    && (s.caller.Writing? ==> if Handled(s) then Lost(s) else s.state == AWAITING_RESULT && Recovering(s))
    && (s.caller.Respawning? ==> s.provider.None? && s.state != AWAITING_REGISTRATION && Recovering(s))
    && (s.caller.Clearing? ==> s.provider.Some? && s.state != AWAITING_REGISTRATION)
    && (s.caller.Starting? ==> Unstarted(s))
    && (s.caller.Waiting? || s.caller.Consumed? ==> s.provider.Some?)
    && ((s.caller.Stored? || s.caller.Announcing? || s.caller.Writing? || s.caller.Stopping? || s.caller.Respawning?
         || s.caller.Starting?) ==>
          s.request == Some(Transmitted(s.caller.call)))
    && (s.caller.Waiting? && s.state == AWAITING_REGISTRATION ==> s.request == Some(Transmitted(s.caller.call)))
    && ((Expecting(s) || s.caller.Starting?) && s.state != IDLE && !s.messenger.CatchIdling? ==> s.mailbox.None?)
    && (s.caller.Consumed? && s.caller.result.Some? ==>
      s.state == IDLE && s.caller.result == ResultOf(app, s.caller.call))
    && (s.state == AWAITING_REGISTRATION ==> s.caller.Waiting? || s.messenger.CatchIdling? || Unstarted(s))
  }

  ghost predicate MailboxOk(app: App, s: System) {
    s.mailbox.Some? && s.mailbox.value.Some? ==>
      Expecting(s) && s.state == IDLE && s.mailbox.value == ResultOf(app, s.caller.call)
  }

  ghost predicate MessengerOk(app: App, s: System) {
    && (s.messenger.Registered? || s.messenger.Sending? ==>
          && s.caller.Waiting? && s.mailbox.None? && s.request == Some(Transmitted(s.caller.call)) && Quiet(s)
          && s.state == if s.messenger.Registered? then AWAITING_REGISTRATION else AWAITING_RESULT)
    && (s.messenger.Sent? ==> s.caller.Waiting? && s.state == AWAITING_RESULT)
    && (s.messenger.Terminal? || s.messenger.Producing? ==>
          && Expecting(s) && s.mailbox.None? && Quiet(s) && s.messenger.result == ResultOf(app, s.caller.call)
          && s.state == if s.messenger.Terminal? then AWAITING_RESULT else IDLE)
    && (s.messenger.CatchProducing? || s.messenger.CatchIdling? ==> s.state != IDLE)
  }

  /** Every value returned is the function of the app applied to the transmitted arguments,
      and the final check of the state never fails. */
  ghost predicate EndingsOk(app: App, s: System) {
    forall k :: 0 <= k < |s.endings| ==>
      && (s.endings[k].1.Returned? ==> ResultOf(app, s.endings[k].0) == Some(s.endings[k].1.value))
      && !s.endings[k].1.StillBusy?
  }

  ghost predicate Inv(app: App, s: System) {
    Shape(s) && Traffic(app, s) && Images(s) && CallerOk(app, s) && MailboxOk(app, s) && MessengerOk(app, s)
        && EndingsOk(app, s)
  }

  // ----- counting -----

  lemma {:induction false} CountFunctionsAppend(q: seq<ToProvider>, m: ToProvider)
    ensures CountFunctions(q + [m]) == CountFunctions(q) + if m.FUNCTION? then 1 else 0
    decreases |q|
  {
    if q == [] { assert q + [m] == [m]; } else {
      assert (q + [m])[1..] == q[1..] + [m];
      CountFunctionsAppend(q[1..], m);
    }
  }

  lemma {:induction false} CountTerminalsAppend(q: seq<ToSupervisor>, m: ToSupervisor)
    ensures CountTerminals(q + [m]) == CountTerminals(q) + if IsTerminal(m) then 1 else 0
    decreases |q|
  {
    if q == [] { assert q + [m] == [m]; } else {
      assert (q + [m])[1..] == q[1..] + [m];
      CountTerminalsAppend(q[1..], m);
    }
  }

  lemma {:induction false} NoneCounted(c: Connection)
    requires Pending(c) == 0
    ensures c.work.None? && (forall m :: m in c.inbox ==> !m.FUNCTION?)
        && (forall m :: m in c.outbox ==> !IsTerminal(m))
  {
    NoFunctions(c.inbox);
    NoTerminals(c.outbox);
  }

  lemma {:induction false} NoFunctions(q: seq<ToProvider>)
    requires CountFunctions(q) == 0
    ensures forall m :: m in q ==> !m.FUNCTION?
    decreases |q|
  {
    if q != [] { NoFunctions(q[1..]); }
  }

  lemma {:induction false} NoTerminals(q: seq<ToSupervisor>)
    requires CountTerminals(q) == 0
    ensures forall m :: m in q ==> !IsTerminal(m)
    decreases |q|
  {
    if q != [] { NoTerminals(q[1..]); }
  }

  // ----- steps of the calculation thread -----

  lemma {:induction false} BeginKeeps(app: App, s: System, t: System)
    requires Inv(app, s) && (s.caller.Outside? || s.caller.Prepared?) && CallerStep(s, t)
    ensures Inv(app, t)
  {
  }

  lemma {:induction false} StoredKeeps(app: App, s: System, t: System)
    requires Inv(app, s) && (s.caller.Stored? || s.caller.Announcing?) && CallerStep(s, t)
    ensures Inv(app, t)
  {
  }

  lemma {:induction false} ClearingKeeps(app: App, s: System, t: System)
    requires Inv(app, s) && (s.caller.Clearing? || s.caller.Stopping?) && CallerStep(s, t)
    ensures Inv(app, t)
  {
  }

  lemma {:induction false} RespawnKeeps(app: App, s: System, t: System)
    requires Inv(app, s) && (s.caller.Respawning? || s.caller.Starting?) && CallerStep(s, t)
    ensures Inv(app, t)
  {
  }

  lemma {:induction false} ConsumeKeeps(app: App, s: System, t: System)
    requires Inv(app, s) && (s.caller.Waiting? || s.caller.Consumed?) && CallerStep(s, t)
    ensures Inv(app, t)
  {
  }

  lemma {:induction false} WritingKeeps(app: App, s: System, t: System)
    requires Inv(app, s) && s.caller.Writing? && CallerStep(s, t) && !Interferes(s, t)
    ensures Inv(app, t)
  {
    if t.caller.Clearing? && s.connection.Some? {
      DeliverServes(app, s.connection.value, s.caller.call);
    }
  }

  /** A connection with nothing under way takes one invocation. */
  lemma {:induction false} DeliverServes(app: App, c: Connection, call: Call)
    requires Pending(c) == 0 && c.sent == c.received && c.image == call.image
    ensures var d := Deliver(c, Transmitted(call));
            Pending(d) == 1 && d.sent == d.received + 1 && Serves(app, d, call)
  {
    NoneCounted(c);
    CountFunctionsAppend(c.inbox, FUNCTION(Transmitted(call)));
  }

  lemma {:induction false} CallerStepKeeps(app: App, s: System, t: System)
    requires Inv(app, s) && CallerStep(s, t) && !Interferes(s, t)
    ensures Inv(app, t)
  {
    if s.caller.Outside? || s.caller.Prepared? { BeginKeeps(app, s, t); }
    else if s.caller.Stored? || s.caller.Announcing? { StoredKeeps(app, s, t); }
    else if s.caller.Writing? { WritingKeeps(app, s, t); }
    else if s.caller.Clearing? || s.caller.Stopping? { ClearingKeeps(app, s, t); }
    else if s.caller.Respawning? || s.caller.Starting? { RespawnKeeps(app, s, t); }
    else { ConsumeKeeps(app, s, t); }
  }

  // ----- steps of the message thread -----

  lemma {:induction false} AcceptKeeps(app: App, s: System, t: System)
    requires Inv(app, s) && s.messenger.Accepting? && MessengerStep(s, t) && !Interferes(s, t)
    ensures Inv(app, t)
  {
    var c := t.connection.value;
    NothingYet(c);
  }

  lemma {:induction false} NothingYet(c: Connection)
    requires c.inbox == [] && c.work.None? && |c.outbox| == 1 && c.outbox[0].REGISTRATION?
    ensures Pending(c) == 0
  {
    assert c.outbox[1..] == [];
    assert CountTerminals(c.outbox[1..]) == 0;
  }

  lemma {:induction false} CaughtKeeps(app: App, s: System, t: System)
    requires Inv(app, s) && s.messenger.Caught? && MessengerStep(s, t) && !Interferes(s, t)
    ensures Inv(app, t)
  {
  }

  lemma {:induction false} ReadKeeps(app: App, s: System, t: System)
    requires Inv(app, s) && s.messenger.Reading? && MessengerStep(s, t)
    ensures Inv(app, t)
  {
    if t.connection.Some? {
      var m := s.connection.value.outbox[0];
      assert m in s.connection.value.outbox;
      if IsTerminal(m) { ReadTerminalKeeps(app, s, t); } else { ReadOtherKeeps(app, s, t); }
    }
  }

  lemma {:induction false} ReadTerminalKeeps(app: App, s: System, t: System)
    requires Inv(app, s) && s.messenger.Reading? && s.connection.Some?
    requires var c := s.connection.value; c.outbox != [] && IsTerminal(c.outbox[0]) && t == Receive(s, c)
    ensures Inv(app, t)
  {
    var c := s.connection.value;
    assert c.outbox[0] in c.outbox;
    assert forall m :: m in c.outbox[1..] ==> m in c.outbox;
    LastTerminal(c);
  }

  lemma {:induction false} ReadOtherKeeps(app: App, s: System, t: System)
    requires Inv(app, s) && s.messenger.Reading? && s.connection.Some?
    requires var c := s.connection.value; c.outbox != [] && !IsTerminal(c.outbox[0]) && t == Receive(s, c)
    ensures Inv(app, t)
  {
    var c := s.connection.value;
    DropFirst(app, c, c.(outbox := c.outbox[1..]), if HasCall(s) then s.caller.call else Call("", "", [], false));
  }

  lemma {:induction false} DropFirst(app: App, c: Connection, d: Connection, call: Call)
    requires c.outbox != [] && !IsTerminal(c.outbox[0]) && d == c.(outbox := c.outbox[1..]) && OutboxPids(c)
    ensures Pending(d) == Pending(c) && OutboxPids(d) && (Serves(app, c, call) ==> Serves(app, d, call))
    ensures c.outbox[0].REGISTRATION? ==> c.outbox[0].pid == c.pid
  {
    assert c.outbox[0] in c.outbox;
    assert forall m :: m in d.outbox ==> m in c.outbox;
  }

  /** With one invocation under way, an answer read leaves nothing under way. */
  lemma {:induction false} LastTerminal(c: Connection)
    requires c.outbox != [] && IsTerminal(c.outbox[0]) && Pending(c) <= 1
    ensures Pending(c) == 1 && Pending(c.(outbox := c.outbox[1..])) == 0
  {
  }

  lemma {:induction false} SendKeeps(app: App, s: System, t: System)
    requires Inv(app, s) && (s.messenger.Registered? || s.messenger.Sending? || s.messenger.Sent?)
    requires MessengerStep(s, t)
    ensures Inv(app, t)
  {
    if s.messenger.Sending? && t.messenger.Sent? {
      DeliverServes(app, s.connection.value, s.caller.call);
    }
  }

  lemma {:induction false} ProduceKeeps(app: App, s: System, t: System)
    requires Inv(app, s) && (s.messenger.Terminal? || s.messenger.Producing?) && MessengerStep(s, t)
    ensures Inv(app, t)
  {
  }

  lemma {:induction false} CatchKeeps(app: App, s: System, t: System)
    requires Inv(app, s) && (s.messenger.CatchProducing? || s.messenger.CatchIdling?) && MessengerStep(s, t)
    ensures Inv(app, t)
  {
  }

  lemma {:induction false} MessengerStepKeeps(app: App, s: System, t: System)
    requires Inv(app, s) && MessengerStep(s, t) && !Interferes(s, t)
    ensures Inv(app, t)
  {
    if s.messenger.Accepting? { AcceptKeeps(app, s, t); }
    else if s.messenger.Caught? { CaughtKeeps(app, s, t); }
    else if s.messenger.Reading? { ReadKeeps(app, s, t); }
    else if s.messenger.Registered? || s.messenger.Sending? || s.messenger.Sent? { SendKeeps(app, s, t); }
    else if s.messenger.Terminal? || s.messenger.Producing? { ProduceKeeps(app, s, t); }
    else { CatchKeeps(app, s, t); }
  }

  // ----- steps of the provider -----

  ghost predicate OutboxPids(c: Connection) {
    forall m :: m in c.outbox && m.REGISTRATION? ==> m.pid == c.pid
  }

  ghost predicate Conserves(app: App, c: Connection, d: Connection, call: Call) {
    && Pending(d) == Pending(c) && OutboxPids(d)
    && d.sent == c.sent && d.received == c.received && d.pid == c.pid && d.image == c.image
    && (Pending(c) == 1 && Serves(app, c, call) ==> Serves(app, d, call))
  }

  lemma {:induction false} TakeKeeps(app: App, c: Connection, d: Connection, call: Call)
    requires OutboxPids(c) && c.inbox != [] && c.inbox[0].FUNCTION? && c.work.None?
    requires d == c.(inbox := c.inbox[1..], work := Some(c.inbox[0].invocation))
    ensures Conserves(app, c, d, call)
  {
    assert c.inbox[0] in c.inbox;
    assert forall m :: m in d.inbox ==> m in c.inbox;
  }

  lemma {:induction false} PongKeeps(app: App, c: Connection, d: Connection, call: Call)
    requires OutboxPids(c) && c.inbox != [] && c.inbox[0].PING?
    requires d == c.(inbox := c.inbox[1..], outbox := c.outbox + [PONG])
    ensures Conserves(app, c, d, call)
  {
    assert forall m :: m in d.inbox ==> m in c.inbox;
    CountTerminalsAppend(c.outbox, PONG);
  }

  lemma {:induction false} FinishKeeps(app: App, c: Connection, d: Connection, call: Call)
    requires OutboxPids(c) && c.work.Some? && d == Finish(app, c, c.work.value)
    ensures Conserves(app, c, d, call)
  {
    CountTerminalsAppend(c.outbox, d.outbox[|c.outbox|]);
  }

  /** A provider step neither adds nor loses an invocation. */
  lemma {:induction false} ProviderKeeps(app: App, c: Connection, d: Connection, call: Call)
    requires ProviderStep(app, c, d) && OutboxPids(c)
    ensures Conserves(app, c, d, call)
  {
    if c.inbox != [] && c.inbox[0].PING? && d == c.(inbox := c.inbox[1..], outbox := c.outbox + [PONG]) {
      PongKeeps(app, c, d, call);
    } else if c.work.Some? && d == Finish(app, c, c.work.value) {
      FinishKeeps(app, c, d, call);
    } else if c.work.Some? && d == c.(outbox := c.outbox + [PROGRESS]) {
      CountTerminalsAppend(c.outbox, PROGRESS);
    } else if d != c.(alive := false) {
      TakeKeeps(app, c, d, call);
    }
  }

  lemma {:induction false} ProviderStepKeeps(app: App, s: System, d: Connection)
    requires Inv(app, s) && s.connection.Some? && ProviderStep(app, s.connection.value, d)
    ensures Inv(app, s.(connection := Some(d)))
  {
    var call := if HasCall(s) then s.caller.call else Call("", "", [], false);
    ProviderKeeps(app, s.connection.value, d, call);
  }

  // ----- runs -----

  lemma {:induction false} StepKeeps(app: App, s: System, t: System)
    requires Inv(app, s) && Step(app, s, t) && !Interferes(s, t)
    ensures Inv(app, t)
  {
    if MessengerStep(s, t) {
      MessengerStepKeeps(app, s, t);
    } else if CallerStep(s, t) {
      CallerStepKeeps(app, s, t);
    } else {
      var d: Connection :| ProviderStep(app, s.connection.value, d) && t == s.(connection := Some(d));
      ProviderStepKeeps(app, s, d);
    }
  }

  ghost predicate Run(app: App, run: seq<System>) {
    run != [] && run[0] == Init() && forall k :: 0 <= k < |run| - 1 ==> Step(app, run[k], run[k + 1])
  }

  ghost predicate SteadyRun(run: seq<System>) {
    forall k :: 0 <= k < |run| - 1 ==> !Interferes(run[k], run[k + 1])
  }

  lemma {:induction false} RunKeeps(app: App, run: seq<System>, k: nat)
    requires Run(app, run) && SteadyRun(run) && k < |run|
    ensures Inv(app, run[k])
    decreases k
  {
    if k > 0 {
      RunKeeps(app, run, k - 1);
      StepKeeps(app, run[k - 1], run[k]);
    }
  }

  /** In every steady run: at most one FUNCTION is unanswered on the current connection, every
      value returned is the app's function applied to the call's own name and arguments (to no
      arguments if a transmission of the call failed, so it is the value of its own arguments iff
      none failed or the app makes no difference), the final check of the state never fails, and
      a busy provider never finds a second FUNCTION. */
  lemma {:induction false} SteadyRunsAreSafe(app: App, run: seq<System>, k: nat)
    requires Run(app, run) && SteadyRun(run) && k < |run|
    ensures run[k].connection.Some? ==>
              var c := run[k].connection.value;
              c.received <= c.sent <= c.received + 1 && !(c.work.Some? && c.inbox != [] && c.inbox[0].FUNCTION?)
    ensures forall call, v :: (call, Returned(v)) in run[k].endings ==>
              app(call.image, call.name, if call.failed then [] else call.args) == Some(v)
    ensures forall call, v :: (call, Returned(v)) in run[k].endings ==>
              (app(call.image, call.name, call.args) == Some(v)
               <==> !call.failed || app(call.image, call.name, []) == app(call.image, call.name, call.args))
    ensures forall call :: (call, StillBusy) !in run[k].endings
    ensures run[k].messenger.Registered? ==> run[k].provider.Some? && run[k].request.Some?
  {
    RunKeeps(app, run, k);
    var s := run[k];
    forall call, v | (call, Returned(v)) in s.endings
      ensures app(call.image, call.name, if call.failed then [] else call.args) == Some(v)
    {
      var j :| 0 <= j < |s.endings| && s.endings[j] == (call, Returned(v));
    }
  }
}
