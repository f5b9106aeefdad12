/** One calculation inside a provider: the calculation thread posts messages to a queue, and the
    monitor loop forwards them and answers pings. */
module ProviderQueue {
  import opened Requests

  datatype Message = PROGRESS(progress: real) | RESULT(value: Dynamic) | FAILURE(error: string) | PONG(code: string)

  predicate Final(m: Message) {
    m.RESULT? || m.FAILURE?
  }

  /** Where the monitor loop is.  It holds the lock of the queue while it transmits. */
  datatype Monitor =
    | Transmitting(again: bool)   // before waiting, or after having been woken
    | Waiting
    | Checking                    // for incoming messages
    | Replying(code: string)      // a ping was read
    | Exited

  /** `posted` and `read` record what the calculation thread has posted and which pings were
      read; `written` is what went over the socket. */
  datatype System = System(
    monitor: Monitor, queue: seq<Message>, finished: bool, incoming: seq<string>,
    posted: seq<Message>, written: seq<Message>, read: seq<string>)

  function Init(): (s: System) {
    System(Transmitting(false), [], false, [], [], [], [])
  }

  function Post(s: System, m: Message): (t: System) {
    s.(queue := s.queue + [m], posted := s.posted + [m], finished := Final(m))
  }

  /** The calculation reports progress, or ends with a result or an exception. */
  ghost predicate ThreadStep(s: System, t: System) {
    !s.finished && !s.monitor.Transmitting? && exists m: Message :: !m.PONG? && t == Post(s, m)
  }

  /** A message that ends the calculation stays in the queue: the loop is left at once. */
  ghost predicate MonitorStep(s: System, t: System) {
    match s.monitor
    case Transmitting(again) =>
      if s.queue == [] then t == s.(monitor := if again then Checking else Waiting)
      else if Final(s.queue[0]) then t == s.(written := s.written + [s.queue[0]], monitor := Exited)
      else t == s.(written := s.written + [s.queue[0]], queue := s.queue[1..])
    case Waiting => t == s.(monitor := Transmitting(true)) || t == s.(monitor := Checking)
    case Checking =>
      || t == s.(monitor := Transmitting(false))
      || (s.incoming != []
          && t == s.(incoming := s.incoming[1..], read := s.read + [s.incoming[0]], monitor := Replying(s.incoming[0])))
    case Replying(code) => t == s.(written := s.written + [PONG(code)], monitor := Checking)
    case Exited => false
  }

  ghost predicate PingStep(s: System, t: System) {
    exists code: string :: t == s.(incoming := s.incoming + [code])
  }

  ghost predicate Step(s: System, t: System) {
    ThreadStep(s, t) || MonitorStep(s, t) || PingStep(s, t)
  }

  // ----- what went over the socket -----

  function Forwarded(ms: seq<Message>): (r: seq<Message>) {
    if ms == [] then []
    else Forwarded(ms[..|ms| - 1]) + if ms[|ms| - 1].PONG? then [] else [ms[|ms| - 1]]
  }

  function Answered(ms: seq<Message>): (r: seq<string>) {
    if ms == [] then []
    else Answered(ms[..|ms| - 1]) + if ms[|ms| - 1].PONG? then [ms[|ms| - 1].code] else []
  }

  lemma {:induction false} OneMore(ms: seq<Message>, m: Message)
    ensures Forwarded(ms + [m]) == Forwarded(ms) + if m.PONG? then [] else [m]
    ensures Answered(ms + [m]) == Answered(ms) + if m.PONG? then [m.code] else []
  {
    assert (ms + [m])[..|ms|] == ms;
  }

  // ----- what every step keeps -----

  function BeingAnswered(m: Monitor): (r: seq<string>) {
    if m.Replying? then [m.code] else []
  }

  function StillQueued(s: System): (r: seq<Message>) {
    if s.monitor.Exited? && s.queue != [] then s.queue[1..] else s.queue
  }

  ghost predicate Inv(s: System) {
    && Forwarded(s.written) + StillQueued(s) == s.posted
    && Answered(s.written) + BeingAnswered(s.monitor) == s.read
    && (forall k :: 0 <= k < |s.posted| ==>
      !s.posted[k].PONG? && (Final(s.posted[k]) <==> k == |s.posted| - 1 && s.finished))
    && (s.finished ==> s.posted != [])
    && (s.monitor.Exited? ==> s.finished && s.queue != [] && StillQueued(s) == [])
    && (!s.monitor.Exited? && s.finished ==> s.queue != [])
  }

  lemma {:induction false} ThreadStepKeeps(s: System, t: System)
    requires Inv(s) && ThreadStep(s, t)
    ensures Inv(t)
  {
    var m: Message :| !m.PONG? && t == Post(s, m);
    assert !s.monitor.Exited?;
    assert Forwarded(s.written) + (s.queue + [m]) == Forwarded(s.written) + s.queue + [m];
  }

  lemma {:induction false} TransmitKeeps(s: System, t: System)
    requires Inv(s) && s.monitor.Transmitting? && s.queue != [] && MonitorStep(s, t)
    ensures Inv(t)
  {
    var m, f := s.queue[0], Forwarded(s.written);
    OneMore(s.written, m);
    FirstQueued(f, s.queue, s.posted);
    assert !m.PONG? && Forwarded(t.written) == f + [m];
    if Final(m) { FinalIsLast(f, s); }
  }

  lemma {:induction false} FirstQueued(f: seq<Message>, queue: seq<Message>, posted: seq<Message>)
    requires f + queue == posted && queue != []
    ensures |f| < |posted| && posted[|f|] == queue[0] && f + [queue[0]] + queue[1..] == posted
  {
    assert queue == [queue[0]] + queue[1..];
  }

  lemma {:induction false} FinalIsLast(f: seq<Message>, s: System)
    requires Inv(s) && !s.monitor.Exited? && s.queue != [] && Final(s.queue[0]) && f == Forwarded(s.written)
    ensures s.finished && s.queue[1..] == []
  {
    FirstQueued(f, s.queue, s.posted);
    assert |f| == |s.posted| - 1;
  }

  lemma {:induction false} ReplyKeeps(s: System, t: System)
    requires Inv(s) && s.monitor.Replying? && MonitorStep(s, t)
    ensures Inv(t)
  {
    OneMore(s.written, PONG(s.monitor.code));
  }

  lemma {:induction false} StepKeeps(s: System, t: System)
    requires Inv(s) && Step(s, t)
    ensures Inv(t)
  {
    if ThreadStep(s, t) {
      ThreadStepKeeps(s, t);
    } else if MonitorStep(s, t) {
      if s.monitor.Transmitting? && s.queue != [] {
        TransmitKeeps(s, t);
      } else if s.monitor.Replying? {
        ReplyKeeps(s, t);
      }
    }
  }

  ghost predicate Run(run: seq<System>) {
    run != [] && run[0] == Init() && forall k :: 0 <= k < |run| - 1 ==> Step(run[k], run[k + 1])
  }

  lemma {:induction false} RunKeeps(run: seq<System>, k: nat)
    requires Run(run) && k < |run|
    ensures Inv(run[k])
    decreases k
  {
    if k > 0 {
      RunKeeps(run, k - 1);
      StepKeeps(run[k - 1], run[k - 1 + 1]);
    }
  }

  /** In every interleaving: the messages forwarded are those posted, in order and as far as the
      queue is empty; the loop is left iff the one result or failure has been forwarded, which
      is then the last; and every ping read is answered once, with its code and in order. */
  lemma {:induction false} MonitorForwards(run: seq<System>, k: nat)
    requires Run(run) && k < |run|
    ensures var s := run[k];
            && Forwarded(s.written) <= s.posted
            && (s.monitor.Exited? <==> exists m :: m in Forwarded(s.written) && Final(m))
            && (s.monitor.Exited? ==> Forwarded(s.written) == s.posted && s.finished)
            && (forall i :: 0 <= i < |Forwarded(s.written)| - 1 ==> !Final(Forwarded(s.written)[i]))
            && (if s.monitor.Replying? then Answered(s.written) + [s.monitor.code] else Answered(s.written)) == s.read
  {
    RunKeeps(run, k);
    var s := run[k];
    var f := Forwarded(s.written);
    assert forall i :: 0 <= i < |f| ==> f[i] == s.posted[i];
    if s.monitor.Exited? {
      assert f == s.posted && Final(f[|f| - 1]);
    } else if s.finished {
      assert |f| < |s.posted|;
    }
  }
}
