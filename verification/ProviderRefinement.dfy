/** What the supervisor sees of the threads inside a provider: the queue, the locks and the
    replies under way come down to the steps of a provider in the protocol. */
module ProviderRefinement {
  import opened Wrappers
  import Queue = ProviderQueue
  import Protocol = Supervisor

  function Seen(m: Queue.Message): (r: Protocol.ToSupervisor) {
    match m
    case PROGRESS(_) => Protocol.PROGRESS
    case RESULT(v) => Protocol.RESULT(v)
    case FAILURE(_) => Protocol.FAILURE
    case PONG(_) => Protocol.PONG
  }

  function AllSeen(ms: seq<Queue.Message>): (r: seq<Protocol.ToSupervisor>) {
    seq(|ms|, k requires 0 <= k < |ms| => Seen(ms[k]))
  }

  function Pings(n: nat): (r: seq<Protocol.ToProvider>) {
    seq(n, _ => Protocol.PING)
  }

  /** The connection as the supervisor sees it, from what it was when the calculation began: a
      ping is read when it is answered, and the calculation ends when the loop is left. */
  function Shown(c: Protocol.Connection, s: Queue.System): (r: Protocol.Connection) {
    c.(inbox := Pings(|Queue.BeingAnswered(s.monitor)| + |s.incoming|),
       work := if s.monitor.Exited? then None else c.work,
       outbox := c.outbox + AllSeen(s.written))
  }

  /** The calculation thread posts the result of the app, or a failure if there is none. */
  ghost predicate Computes(app: Protocol.App, c: Protocol.Connection, s: Queue.System) {
    && c.alive && c.work.Some?
    && forall m :: m in s.posted && Queue.Final(m) ==>
         Protocol.Answer(Seen(m)) == app(c.image, c.work.value.name, c.work.value.args)
  }

  ghost predicate ShownStep(app: Protocol.App, c: Protocol.Connection, d: Protocol.Connection) {
    d == c || Protocol.ProviderStep(app, c, d) || d == c.(inbox := c.inbox + [Protocol.PING])
  }

  lemma {:induction false} OneMoreSeen(c: Protocol.Connection, ms: seq<Queue.Message>, m: Queue.Message)
    ensures c.outbox + AllSeen(ms + [m]) == c.outbox + AllSeen(ms) + [Seen(m)]
  {
  }

  /** Every step of the calculation thread and of the monitor loop shows as nothing or as one
      step of the provider, and a ping sent by the supervisor as one more message to read. */
  lemma {:induction false} StepShows(app: Protocol.App, c: Protocol.Connection, s: Queue.System, t: Queue.System)
    requires Queue.Inv(s) && Queue.Step(s, t) && Computes(app, c, s)
    ensures ShownStep(app, Shown(c, s), Shown(c, t))
  {
    if Queue.ThreadStep(s, t) {
      assert Shown(c, t) == Shown(c, s);
    } else if Queue.MonitorStep(s, t) {
      MonitorShows(app, c, s, t);
    } else {
      assert Pings(|Queue.BeingAnswered(s.monitor)| + |t.incoming|)
          == Pings(|Queue.BeingAnswered(s.monitor)| + |s.incoming|) + [Protocol.PING];
    }
  }

  lemma {:induction false} MonitorShows(app: Protocol.App, c: Protocol.Connection, s: Queue.System, t: Queue.System)
    requires Queue.Inv(s) && Queue.MonitorStep(s, t) && Computes(app, c, s)
    ensures ShownStep(app, Shown(c, s), Shown(c, t))
  {
    if s.monitor.Transmitting? && s.queue != [] {
      TransmitShows(app, c, s, t);
    } else if s.monitor.Replying? {
      OneMoreSeen(c, s.written, Queue.PONG(s.monitor.code));
      assert Shown(c, s).inbox[1..] == Shown(c, t).inbox;
    }
  }

  lemma {:induction false} TransmitShows(app: Protocol.App, c: Protocol.Connection, s: Queue.System, t: Queue.System)
    requires Queue.Inv(s) && Queue.MonitorStep(s, t) && Computes(app, c, s) && s.monitor.Transmitting? && s.queue != []
    ensures Protocol.ProviderStep(app, Shown(c, s), Shown(c, t))
  {
    var m := s.queue[0];
    var f := Queue.Forwarded(s.written);
    assert s.posted[|f|] == m;
    OneMoreSeen(c, s.written, m);
    if m.PROGRESS? {
      assert Shown(c, t) == Shown(c, s).(outbox := Shown(c, s).outbox + [Protocol.PROGRESS]);
    } else {
      assert Shown(c, t) == Protocol.Finish(app, Shown(c, s), c.work.value);
    }
  }

  /** In every run of the threads inside a provider, each step is one that the protocol allows a
      provider; so what holds of the protocol with such providers holds with these. */
  lemma {:induction false} ProviderRunsShow(app: Protocol.App, c: Protocol.Connection, run: seq<Queue.System>, k: nat)
    requires Queue.Run(run) && k + 1 < |run| && Computes(app, c, run[k])
    ensures ShownStep(app, Shown(c, run[k]), Shown(c, run[k + 1]))
  {
    Queue.RunKeeps(run, k);
    StepShows(app, c, run[k], run[k + 1]);
  }
}
