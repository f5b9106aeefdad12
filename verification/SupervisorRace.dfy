/** A run that is not steady: a lost connection is handled as an error while the calculation
    thread recovers from its own failed transmission, and a later call returns the value of an
    earlier one. */
module SupervisorRace {
  import opened Wrappers
  import opened Requests
  import opened Supervisor
  import opened SupervisorSafety

  /** A run, a steady one if need be, leads to the state. */
  ghost predicate Reachable(app: App, s: System, steady: bool) {
    exists run :: Run(app, run) && run[|run| - 1] == s && (steady ==> SteadyRun(run))
  }

  lemma {:induction false} Start(app: App, steady: bool)
    ensures Reachable(app, Init(), steady)
  {
    assert Run(app, [Init()]);
  }

  lemma {:induction false} Extend(app: App, s: System, t: System, steady: bool)
    requires Reachable(app, s, steady) && Step(app, s, t) && (steady ==> !Interferes(s, t))
    ensures Reachable(app, t, steady)
  {
    var run :| Run(app, run) && run[|run| - 1] == s && (steady ==> SteadyRun(run));
    RunsOn(app, run, t);
    if steady { SteadyOn(run, t); }
    assert (run + [t])[|run|] == t;
  }

  lemma {:induction false} RunsOn(app: App, run: seq<System>, t: System)
    requires Run(app, run) && Step(app, run[|run| - 1], t)
    ensures Run(app, run + [t])
  {
    var r := run + [t];
    forall k | 0 <= k < |r| - 1 ensures Step(app, r[k], r[k + 1]) {
      if k < |run| - 1 { assert Step(app, run[k], run[k + 1]); }
    }
  }

  lemma {:induction false} SteadyOn(run: seq<System>, t: System)
    requires run != [] && SteadyRun(run) && !Interferes(run[|run| - 1], t)
    ensures SteadyRun(run + [t])
  {
    var r := run + [t];
    forall k | 0 <= k < |r| - 1 ensures !Interferes(r[k], r[k + 1]) {
      if k < |run| - 1 { assert !Interferes(run[k], run[k + 1]); }
    }
  }

  lemma {:induction false} CallerMoves(app: App, s: System, t: System, steady: bool)
    requires Reachable(app, s, steady) && CallerStep(s, t) && (steady ==> !Interferes(s, t))
    ensures Reachable(app, t, steady)
  {
    Extend(app, s, t, steady);
  }

  lemma {:induction false} MessengerMoves(app: App, s: System, t: System, steady: bool)
    requires Reachable(app, s, steady) && MessengerStep(s, t) && (steady ==> !Interferes(s, t))
    ensures Reachable(app, t, steady)
  {
    Extend(app, s, t, steady);
  }

  function Plainly(image: string, name: string): (c: Call) {
    Call(image, name, [], false)
  }

  function Idle(pid: nat, image: string): (c: Connection) {
    Connection(pid, image, true, [], None, [], 1, 1)
  }

  /** An accepted provider registers, receives the request, and has its answer read. */
  lemma {:induction false} Answered(
      app: App, s: System, image: string, name: string, pid: nat, v: Dynamic, steady: bool) returns (t: System)
    requires Reachable(app, s, steady) && s.messenger.Accepting? && s.state == AWAITING_REGISTRATION
    requires s.provider == Some(Provider(pid, image)) && s.request == Some(Invocation(name, []))
    requires s.started == map[pid := image]
    requires app(image, name, []) == Some(v) && !s.caller.Writing?
    ensures Reachable(app, t, steady)
    ensures t == s.(state := IDLE, request := None, messenger := Producing(Some(v)),
        connection := Some(Idle(pid, image)), started := map[])
  {
    var c := Connection(pid, image, true, [], None, [REGISTRATION(pid)], 0, 0);
    var t1 := s.(started := s.started - {pid}, messenger := Reading, connection := Some(c));
    assert pid in s.started;
    MessengerMoves(app, s, t1, steady);
    var c1 := c.(outbox := []);
    var t2 := t1.(connection := Some(c1), messenger := Registered);
    assert c.outbox[1..] == [];
    MessengerMoves(app, t1, t2, steady);
    var t3 := t2.(state := AWAITING_RESULT, messenger := Sending);
    MessengerMoves(app, t2, t3, steady);
    t := Served(app, t3, c1, name, v, steady);
    assert t1.started == map[];
  }

  lemma {:induction false} Served(app: App, s: System, c: Connection, name: string, v: Dynamic, steady: bool)
      returns (t: System)
    requires Reachable(app, s, steady) && s.messenger.Sending? && s.request == Some(Invocation(name, []))
    requires c == Connection(c.pid, c.image, true, [], None, [], 0, 0) && s.connection == Some(c)
    requires app(c.image, name, []) == Some(v)
    ensures Reachable(app, t, steady)
    ensures t == s.(state := IDLE, request := None, messenger := Producing(Some(v)),
        connection := Some(Idle(c.pid, c.image)))
  {
    var i := Invocation(name, []);
    var d := Deliver(c, i);
    assert d.inbox == [FUNCTION(i)];
    var t1 := s.(connection := Some(d), messenger := Sent);
    MessengerMoves(app, s, t1, steady);
    var t2 := t1.(request := None, messenger := Reading);
    MessengerMoves(app, t1, t2, steady);
    t := Replied(app, t2, d, name, v, steady);
  }

  /** The provider takes the one message it has, and its answer is read. */
  lemma {:induction false} Replied(app: App, s: System, c: Connection, name: string, v: Dynamic, steady: bool)
      returns (t: System)
    requires Reachable(app, s, steady) && s.messenger.Reading? && s.connection == Some(c)
    requires c.alive && c.inbox == [FUNCTION(Invocation(name, []))] && c.work.None? && c.outbox == []
    requires app(c.image, name, []) == Some(v)
    ensures Reachable(app, t, steady)
    ensures t == s.(state := IDLE, messenger := Producing(Some(v)),
        connection := Some(c.(inbox := [], received := c.received + 1)))
  {
    var i := Invocation(name, []);
    var d := c.(inbox := c.inbox[1..], work := Some(i));
    ProviderMoves(app, s, c, d, steady);
    var e := Finish(app, d, i);
    ProviderMoves(app, s.(connection := Some(d)), d, e, steady);
    assert e.inbox == [] && e.outbox == [RESULT(v)];
    t := AnswerRead(app, s.(connection := Some(e)), e, v, steady);
  }

  lemma {:induction false} ProviderMoves(app: App, s: System, c: Connection, d: Connection, steady: bool)
    requires Reachable(app, s, steady) && s.connection == Some(c) && ProviderStep(app, c, d)
    ensures Reachable(app, s.(connection := Some(d)), steady)
  {
    Extend(app, s, s.(connection := Some(d)), steady);
  }

  lemma {:induction false} AnswerRead(app: App, s: System, e: Connection, v: Dynamic, steady: bool) returns (t: System)
    requires Reachable(app, s, steady) && s.messenger.Reading? && s.connection == Some(e) && e.outbox == [RESULT(v)]
    ensures Reachable(app, t, steady)
    ensures t == s.(state := IDLE, messenger := Producing(Some(v)),
        connection := Some(e.(outbox := [], received := e.received + 1)))
  {
    var t3 := Receive(s, e);
    MessengerMoves(app, s, t3, steady);
    assert e.outbox[1..] == [];
    t := t3.(state := IDLE, messenger := Producing(Some(v)));
    MessengerMoves(app, t3, t, steady);
  }

  function AfterFirst(image: string, c: string, vc: Dynamic): (s: System) {
    System(IDLE, None, Some(Provider(0, image)), None, Outside, Reading, Some(Idle(0, image)), map[], 1,
           [(Plainly(image, c), Returned(vc))])
  }

  /** The first call starts a provider and returns. */
  lemma {:induction false} FirstCall(app: App, image: string, c: string, vc: Dynamic, steady: bool)
    requires app(image, c, []) == Some(vc)
    ensures Reachable(app, AfterFirst(image, c, vc), steady)
  {
    var call := Plainly(image, c);
    var s := Init();
    Start(app, steady);
    var t1 := s.(caller := Prepared(call));
    CallerMoves(app, s, t1, steady);
    var t2 := t1.(request := Some(Invocation(c, [])), caller := Stored(call));
    CallerMoves(app, t1, t2, steady);
    var t3 := t2.(caller := Respawning(call));
    CallerMoves(app, t2, t3, steady);
    var t4 := t3.(state := AWAITING_REGISTRATION, provider := Some(Provider(0, image)), nextPid := 1,
        caller := Starting(call));
    CallerMoves(app, t3, t4, steady);
    var t5 := t4.(started := map[0 := image], caller := Waiting(call));
    CallerMoves(app, t4, t5, steady);
    FirstCallReturns(app, t5, image, c, vc, steady);
  }

  lemma {:induction false} FirstCallReturns(app: App, s: System, image: string, c: string, vc: Dynamic, steady: bool)
    requires Reachable(app, s, steady) && app(image, c, []) == Some(vc)
    requires s == System(AWAITING_REGISTRATION, Some(Invocation(c, [])), Some(Provider(0, image)), None,
        Waiting(Plainly(image, c)), Accepting, None, map[0 := image], 1, [])
    ensures Reachable(app, AfterFirst(image, c, vc), steady)
  {
    var call := Plainly(image, c);
    var t6 := Answered(app, s, image, c, 0, vc, steady);
    var t7 := t6.(mailbox := Some(Some(vc)), messenger := Reading);
    MessengerMoves(app, t6, t7, steady);
    var t8 := t7.(mailbox := None, caller := Consumed(call, Some(vc)));
    CallerMoves(app, t7, t8, steady);
    CallerMoves(app, t8, End(t8, call, Returned(vc)), steady);
  }

  function AfterSecond(image: string, b: string, c: string, vc: Dynamic): (s: System) {
    System(AWAITING_REGISTRATION, Some(Invocation(b, [])), Some(Provider(1, image)), None, Outside, Accepting, None,
           map[1 := image], 2, [(Plainly(image, c), Returned(vc)), (Plainly(image, b).(failed := true), Failure)])
  }

  /** The connection is lost while the second call writes its request: both threads handle it. */
  lemma {:induction false} SecondCall(app: App, image: string, b: string, c: string, vc: Dynamic)
    requires app(image, c, []) == Some(vc)
    ensures Reachable(app, AfterSecond(image, b, c, vc), false)
  {
    var call := Plainly(image, b);
    var s := AfterFirst(image, c, vc);
    FirstCall(app, image, c, vc, false);
    var t1 := s.(caller := Prepared(call));
    CallerMoves(app, s, t1, false);
    var t2 := t1.(request := Some(Invocation(b, [])), caller := Stored(call));
    CallerMoves(app, t1, t2, false);
    var t3 := t2.(caller := Announcing(call));
    CallerMoves(app, t2, t3, false);
    var t4 := t3.(state := AWAITING_RESULT, caller := Writing(call));
    CallerMoves(app, t3, t4, false);
    var t5 := t4.(connection := None, messenger := Caught);
    MessengerMoves(app, t4, t5, false);
    var t6 := t5.(messenger := CatchProducing);
    MessengerMoves(app, t5, t6, false);
    SecondCallRecovers(app, image, b, c, vc, t6);
  }

  lemma {:induction false} SecondCallRecovers(app: App, image: string, b: string, c: string, vc: Dynamic, s: System)
    requires Reachable(app, s, false)
    requires s == System(AWAITING_RESULT, Some(Invocation(b, [])), Some(Provider(0, image)), None,
        Writing(Plainly(image, b)), CatchProducing, None, map[], 1, [(Plainly(image, c), Returned(vc))])
    ensures Reachable(app, AfterSecond(image, b, c, vc), false)
  {
    var failed := Plainly(image, b).(failed := true);
    var t1 := s.(caller := Stopping(failed));
    CallerMoves(app, s, t1, false);
    var t2 := t1.(mailbox := Some(None), messenger := CatchIdling);
    MessengerMoves(app, t1, t2, false);
    var t3 := t2.(state := IDLE, messenger := Accepting);
    MessengerMoves(app, t2, t3, false);
    SecondCallFails(app, image, b, c, vc, t3);
  }

  lemma {:induction false} SecondCallFails(app: App, image: string, b: string, c: string, vc: Dynamic, s: System)
    requires Reachable(app, s, false)
    requires s == System(IDLE, Some(Invocation(b, [])), Some(Provider(0, image)), Some(None),
                         Stopping(Plainly(image, b).(failed := true)), Accepting, None, map[], 1,
                         [(Plainly(image, c), Returned(vc))])
    ensures Reachable(app, AfterSecond(image, b, c, vc), false)
  {
    var failed := Plainly(image, b).(failed := true);
    var t4 := s.(provider := None, caller := Respawning(failed));
    CallerMoves(app, s, t4, false);
    var t5 := t4.(state := AWAITING_REGISTRATION, provider := Some(Provider(1, image)), nextPid := 2,
        caller := Starting(failed));
    CallerMoves(app, t4, t5, false);
    var t6 := t5.(started := map[1 := image], caller := Waiting(failed));
    CallerMoves(app, t5, t6, false);
    var t7 := t6.(mailbox := None, caller := Consumed(failed, None));
    CallerMoves(app, t6, t7, false);
    CallerMoves(app, t7, End(t7, failed, Failure), false);
  }

  /** The third call asks for `c` and returns the value of `b`. */
  lemma {:induction false} ThirdCallReturnsTheSecondValue(
      app: App, image: string, b: string, c: string, vb: Dynamic, vc: Dynamic)
    returns (run: seq<System>)
    requires app(image, b, []) == Some(vb) && app(image, c, []) == Some(vc)
    ensures Run(app, run)
    ensures var e := run[|run| - 1].endings; |e| == 3 && e[2] == (Call(image, c, [], false), Returned(vb))
    ensures vb != vc ==> !SteadyRun(run)
  {
    SecondCall(app, image, b, c, vc);
    var s := Answered(app, AfterSecond(image, b, c, vc), image, b, 1, vb, false);
    var t := ThirdCallBegins(app, s, image, c, vb);
    var last := ThirdCallOvertaken(app, t, image, c, vb, vc);
    run :| Run(app, run) && run[|run| - 1] == last;
    if SteadyRun(run) {
      assert last.endings[2] in last.endings;
      SteadyRunsAreSafe(app, run, |run| - 1);
    }
  }

  /** The mailbox is filled with the answer to the second call after the third has emptied it. */
  lemma {:induction false} ThirdCallBegins(app: App, s: System, image: string, c: string, vb: Dynamic)
      returns (t: System)
    requires Reachable(app, s, false) && s.caller.Outside? && s.state == IDLE
    requires s.provider == Some(Provider(1, image)) && s.messenger == Producing(Some(vb))
    ensures Reachable(app, t, false)
    ensures t == s.(request := Some(Invocation(c, [])), caller := Announcing(Plainly(image, c)),
        mailbox := Some(Some(vb)), messenger := Reading)
  {
    var call := Plainly(image, c);
    var t1 := s.(caller := Prepared(call));
    CallerMoves(app, s, t1, false);
    var t2 := t1.(request := Some(Invocation(c, [])), caller := Stored(call));
    CallerMoves(app, t1, t2, false);
    var t3 := t2.(mailbox := None, caller := Announcing(call));
    CallerMoves(app, t2, t3, false);
    t := t3.(mailbox := Some(Some(vb)), messenger := Reading);
    MessengerMoves(app, t3, t, false);
  }

  lemma {:induction false} ThirdCallOvertaken(app: App, s: System, image: string, c: string, vb: Dynamic, vc: Dynamic)
      returns (t: System)
    requires Reachable(app, s, false) && s.caller == Announcing(Plainly(image, c))
    requires s.request == Some(Invocation(c, []))
    requires s.mailbox == Some(Some(vb)) && s.messenger.Reading? && s.connection == Some(Idle(1, image))
    requires app(image, c, []) == Some(vc)
    ensures Reachable(app, t, false)
    ensures t.endings == s.endings + [(Plainly(image, c), Returned(vb))]
  {
    var call := Plainly(image, c);
    var t1 := s.(state := AWAITING_RESULT, caller := Writing(call));
    CallerMoves(app, s, t1, false);
    var d := Deliver(Idle(1, image), Invocation(c, []));
    assert d.inbox == [FUNCTION(Invocation(c, []))];
    var t2 := t1.(connection := Some(d), caller := Clearing(call));
    CallerMoves(app, t1, t2, false);
    var t3 := t2.(request := None, caller := Waiting(call));
    CallerMoves(app, t2, t3, false);
    var t4 := Replied(app, t3, d, c, vc, false);
    t := Overtaken(app, t4, call, vb);
  }

  lemma {:induction false} Overtaken(app: App, s: System, call: Call, vb: Dynamic) returns (t: System)
    requires Reachable(app, s, false) && s.caller == Waiting(call) && s.mailbox == Some(Some(vb)) && s.state == IDLE
    ensures Reachable(app, t, false)
    ensures t.endings == s.endings + [(call, Returned(vb))]
  {
    var t5 := s.(mailbox := None, caller := Consumed(call, Some(vb)));
    CallerMoves(app, s, t5, false);
    t := End(t5, call, Returned(vb));
    CallerMoves(app, t5, t, false);
  }
}
