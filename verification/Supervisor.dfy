/** The local supervisor and its providers as one state machine.  The calculation thread (the
    caller), the message thread (the messenger), the connected provider and the providers that
    have been started take turns in steps of one shared access each. */
module Supervisor {
  import opened Wrappers
  import opened Requests

  /** The functions of an app image; `None` stands for an exception. */
  type App = (string, string, seq<Dynamic>) -> Option<Dynamic>

  datatype State = IDLE | AWAITING_REGISTRATION | AWAITING_RESULT

  /** One call of supervise_calculation.  `failed` records that a transmission of it has failed. */
  datatype Call = Call(image: string, name: string, args: seq<Dynamic>, failed: bool)

  datatype Invocation = Invocation(name: string, args: seq<Dynamic>)

  datatype ToSupervisor = REGISTRATION(pid: nat) | PROGRESS | RESULT(value: Dynamic) | FAILURE | PONG

  datatype ToProvider = FUNCTION(invocation: Invocation) | PING

  /** The connection that the messenger is reading, with the provider process behind it. */
  datatype Connection = Connection(
    pid: nat, image: string, alive: bool,
    inbox: seq<ToProvider>, work: Option<Invocation>, outbox: seq<ToSupervisor>,
    sent: nat, received: nat)

  /** Where the calculation thread is. */
  datatype Caller =
    | Outside
    | Prepared(call: Call)        // past the check of provider and state
    | Stored(call: Call)          // active_request is set
    | Announcing(call: Call)      // in transmit_request, before the state is set
    | Writing(call: Call)         // in transmit_request, before the message is written
    | Clearing(call: Call)        // in transmit_request, before active_request is reset
    | Stopping(call: Call)        // in the handler of a failed transmission
    | Respawning(call: Call)      // about to choose a new provider
    | Starting(call: Call)        // pulling the image and starting the container
    | Waiting(call: Call)         // in consume
    | Consumed(call: Call, result: Option<Dynamic>)

  /** Where the message thread is. */
  datatype Messenger =
    | Accepting
    | Reading
    | Registered                  // a matching registration was read
    | Sending                     // in transmit_request, before the message is written
    | Sent                        // in transmit_request, before active_request is reset
    | Terminal(result: Option<Dynamic>)   // a RESULT or FAILURE was read
    | Producing(result: Option<Dynamic>)  // the state is IDLE again
    | Caught                      // in the exception handler
    | CatchProducing
    | CatchIdling

  datatype Ending = Returned(value: Dynamic) | Failure | Inconsistent | StillBusy | Aborted

  datatype Provider = Provider(pid: nat, image: string)

  datatype System = System(
    state: State, request: Option<Invocation>, provider: Option<Provider>, mailbox: Option<Option<Dynamic>>,
    caller: Caller, messenger: Messenger, connection: Option<Connection>,
    started: map<nat, string>, nextPid: nat, endings: seq<(Call, Ending)>)

  function Init(): System {
    System(IDLE, None, None, None, Outside, Accepting, None, map[], 0, [])
  }

  function End(s: System, call: Call, e: Ending): System {
    s.(caller := Outside, endings := s.endings + [(call, e)])
  }

  /** The invocation that is transmitted: a failed transmission has moved the arguments away. */
  function Transmitted(call: Call): (r: Invocation) {
    Invocation(call.name, if call.failed then [] else call.args)
  }

  // ----- the calculation thread -----

  function Deliver(c: Connection, i: Invocation): (r: Connection) {
    c.(inbox := c.inbox + [FUNCTION(i)], sent := c.sent + 1)
  }

  predicate Busy(s: System, call: Call) {
    s.provider.Some? && (s.state != IDLE || s.provider.value.image != call.image)
  }

  ghost predicate CallerStep(s: System, t: System) {
    match s.caller
    case Outside =>
      exists call: Call :: !call.failed &&
        if Busy(s, call) then t == End(s, call, Inconsistent) else t == s.(caller := Prepared(call))
    case Prepared(call) => t == s.(request := Some(Transmitted(call)), caller := Stored(call))
    case Stored(call) =>
      t == s.(mailbox := None, caller := if s.provider.Some? then Announcing(call) else Respawning(call))
    case Announcing(call) => t == s.(state := AWAITING_RESULT, caller := Writing(call))
    case Writing(call) =>
      || (s.connection.Some? && s.request.Some?
          && t == s.(connection := Some(Deliver(s.connection.value, s.request.value)), caller := Clearing(call)))
      || (s.connection.None? && t == s.(caller := Clearing(call)))     // written to a broken socket, and lost
      || (s.request.Some?
          && t == s.(request := Some(Invocation(call.name, [])), caller := Stopping(call.(failed := true))))
    case Clearing(call) => t == s.(request := None, caller := Waiting(call))
    case Stopping(call) => t == s.(provider := None, caller := Respawning(call)) || t == End(s, call, Aborted)
    case Respawning(call) =>
      t == s.(state := AWAITING_REGISTRATION, provider := Some(Provider(s.nextPid, call.image)),
              nextPid := s.nextPid + 1, caller := Starting(call))
    case Starting(call) =>
      || (s.provider.Some?
          && t == s.(started := s.started[s.provider.value.pid := call.image], caller := Waiting(call)))
      || t == End(s, call, Aborted)
    case Waiting(call) => s.mailbox.Some? && t == s.(mailbox := None, caller := Consumed(call, s.mailbox.value))
    case Consumed(call, result) =>
      t == if result.None? then End(s, call, Failure)
           else if s.state != IDLE then End(s, call, StillBusy)
           else End(s, call, Returned(result.value))
  }

  // ----- the message thread -----

  function Receive(s: System, c: Connection): (t: System)
    requires c.outbox != []
  {
    var c' := c.(outbox := c.outbox[1..]);
    match c.outbox[0]
    case REGISTRATION(pid) =>
      s.(connection := Some(c'),
         messenger := if s.state == AWAITING_REGISTRATION && s.provider.Some? && pid == s.provider.value.pid
                      then Registered else Reading)
    case RESULT(v) => s.(connection := Some(c'.(received := c.received + 1)), messenger := Terminal(Some(v)))
    case FAILURE => s.(connection := Some(c'.(received := c.received + 1)), messenger := Terminal(None))
    case PROGRESS => s.(connection := Some(c'))
    case PONG => s.(connection := Some(c'))
  }

  ghost predicate MessengerStep(s: System, t: System) {
    match s.messenger
    case Accepting =>
      exists pid: nat :: pid in s.started &&
        t == s.(started := s.started - {pid}, messenger := Reading,
                connection := Some(Connection(pid, s.started[pid], true, [], None, [REGISTRATION(pid)], 0, 0)))
    case Reading =>
      || (s.connection.Some? && s.connection.value.outbox != [] && t == Receive(s, s.connection.value))
      || t == s.(connection := None, messenger := Caught)
    case Registered => t == s.(state := AWAITING_RESULT, messenger := Sending)
    case Sending =>
      || (s.connection.Some? && s.request.Some?
          && t == s.(connection := Some(Deliver(s.connection.value, s.request.value)), messenger := Sent))
      || t == s.(connection := None, messenger := Caught)
    case Sent => t == s.(request := None, messenger := Reading)
    case Terminal(result) => t == s.(state := IDLE, messenger := Producing(result))
    case Producing(result) => t == s.(mailbox := Some(result), messenger := Reading)
    case Caught => t == s.(messenger := if s.state != IDLE then CatchProducing else Accepting)
    case CatchProducing => t == s.(mailbox := Some(None), messenger := CatchIdling)
    case CatchIdling => t == s.(state := IDLE, messenger := Accepting)
  }

  // ----- the connected provider -----

  function Finish(app: App, c: Connection, i: Invocation): (r: Connection) {
    var v := app(c.image, i.name, i.args);
    c.(work := None, outbox := c.outbox + [if v.Some? then RESULT(v.value) else FAILURE])
  }

  ghost predicate ProviderStep(app: App, c: Connection, d: Connection) {
    c.alive && (
      || (c.inbox != [] && c.inbox[0].PING? && d == c.(inbox := c.inbox[1..], outbox := c.outbox + [PONG]))
      || (c.inbox != [] && c.inbox[0].FUNCTION? && c.work.None?
          && d == c.(inbox := c.inbox[1..], work := Some(c.inbox[0].invocation)))
      || (c.work.Some? && d == c.(outbox := c.outbox + [PROGRESS]))
      || (c.work.Some? && d == Finish(app, c, c.work.value))
      || d == c.(alive := false))
  }

  /** The messenger has handled a lost connection, or is about to, as an error of the call that
      is still writing its request. */
  ghost predicate Handled(s: System) {
    s.messenger.CatchProducing? || s.messenger.CatchIdling? || s.mailbox.Some? || s.state == IDLE
  }

  /** One loss of a connection is handled by both threads: by the messenger while the calculation
      thread recovers from a failed transmission, or by the messenger first and then the
      transmission fails, or goes to another connection. */
  ghost predicate Interferes(s: System, t: System) {
    || (s.messenger.Caught? && t.messenger.CatchProducing? && (s.caller.Stopping? || s.caller.Respawning?))
    || (s.caller.Writing? && Handled(s) && (t.caller.Stopping? || (s.messenger.Accepting? && t.messenger.Reading?)))
  }

  ghost predicate Step(app: App, s: System, t: System) {
    || CallerStep(s, t)
    || MessengerStep(s, t)
    || (s.connection.Some?
        && exists d: Connection :: ProviderStep(app, s.connection.value, d) && t == s.(connection := Some(d)))
  }

  // ----- what is under way on a connection -----

  function CountFunctions(q: seq<ToProvider>): (n: nat) {
    if q == [] then 0 else (if q[0].FUNCTION? then 1 else 0) + CountFunctions(q[1..])
  }

  predicate IsTerminal(m: ToSupervisor) {
    m.RESULT? || m.FAILURE?
  }

  function CountTerminals(q: seq<ToSupervisor>): (n: nat) {
    if q == [] then 0 else (if IsTerminal(q[0]) then 1 else 0) + CountTerminals(q[1..])
  }

  /** Invocations on their way to the provider, in it, or answered and on their way back. */
  function Pending(c: Connection): (n: nat) {
    CountFunctions(c.inbox) + (if c.work.Some? then 1 else 0) + CountTerminals(c.outbox)
  }

  /** All that is under way on the connection belongs to this call. */
  ghost predicate Serves(app: App, c: Connection, call: Call) {
    && c.image == call.image
    && (forall m :: m in c.inbox && m.FUNCTION? ==> m.invocation == Transmitted(call))
    && (c.work.Some? ==> c.work.value == Transmitted(call))
    && (forall m :: m in c.outbox && IsTerminal(m) ==> Answer(m) == app(call.image, call.name, Transmitted(call).args))
  }

  function Answer(m: ToSupervisor): (r: Option<Dynamic>) {
    if m.RESULT? then Some(m.value) else None
  }
}
