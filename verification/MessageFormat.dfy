/** The messages between supervisor and providers, as bytes. */
module MessageFormat {
  import opened Wrappers
  import opened Bits
  import opened BigEndians

  type Text = seq<Byte>

  /** A float, as the 32 bits that represent it. */
  type Float = x: nat | x < 0x1_0000_0000

  /** MessagePack, of which only its round trip matters here. */
  datatype Codec<!V> = Codec(pack: V -> seq<Byte>, unpack: seq<Byte> -> Option<V>)

  ghost predicate Faithful<V(!new)>(c: Codec<V>) {
    forall v {:trigger c.pack(v)} :: c.unpack(c.pack(v)) == Some(v) && |c.pack(v)| < Pow2(8 * LONG)
  }

  datatype Supervisor<V> = FUNCTION(name: Text, args: seq<V>) | PING(code: Text)

  datatype Provider<V> =
    | REGISTRATION(protocol: nat, pid: Text)
    | PONG(code: Text)
    | PROGRESS(value: Float, message: Text)
    | RESULT(result: V)
    | FAILURE(reason: Text, message: Text)

  // The sizes of integers, and of ids and ping codes.
  const OCTET: nat := 1
  const SHORT: nat := 2
  const SINGLE: nat := 4
  const LONG: nat := 8
  const ID: nat := 32

  // ----- writing -----

  function SupervisorCode<V>(m: Supervisor<V>): (r: Byte) {
    if m.FUNCTION? then 1 else 5
  }

  function ProviderCode<V>(m: Provider<V>): (r: Byte) {
    if m.REGISTRATION? then 0 else if m.PROGRESS? then 2 else if m.RESULT? then 3 else if m.FAILURE? then 4 else 6
  }

  /** A string after its length; no result stands for the exception if the length does not fit. */
  function Counted(width: nat, s: Text): (r: Option<seq<Byte>>) {
    if |s| < Pow2(8 * width) then Some(BigEndian(|s|, width) + s) else None
  }

  function Arguments<V>(c: Codec<V>, args: seq<V>): (r: seq<Byte>) {
    if args == [] then [] else BigEndian(|c.pack(args[0])|, LONG) + c.pack(args[0]) + Arguments(c, args[1..])
  }

  function SupervisorBody<V>(c: Codec<V>, m: Supervisor<V>): (r: Option<seq<Byte>>) {
    match m
    case FUNCTION(name, args) =>
      var n := Counted(OCTET, name);
      if n.None? || |args| >= Pow2(8 * SHORT) then None
      else Some(n.value + (BigEndian(|args|, SHORT) + Arguments(c, args)))
    case PING(code) => Some(code)
  }

  function ProviderBody<V>(c: Codec<V>, m: Provider<V>): (r: Option<seq<Byte>>) {
    match m
    case REGISTRATION(_, pid) => Some(BigEndian(0, SHORT) + pid)
    case PONG(code) => Some(code)
    case PROGRESS(value, message) =>
      var t := Counted(SHORT, message);
      if t.None? then None else Some(BigEndian(value, SINGLE) + t.value)
    case RESULT(v) => Some(c.pack(v))
    case FAILURE(reason, message) =>
      var s, t := Counted(OCTET, reason), Counted(SHORT, message);
      if s.None? || t.None? then None else Some(s.value + t.value)
  }

  // ----- reading: a value and what is left, or an exception -----

  type Taken<T> = Option<(T, seq<Byte>)>

  function TakeText(n: nat, s: seq<Byte>): (r: Taken<Text>) {
    if |s| < n then None else Some((s[..n], s[n..]))
  }

  function TakeInt(n: nat, s: seq<Byte>): (r: Taken<nat>) {
    if |s| < n then None else Some((FromBigEndian(s[..n]), s[n..]))
  }

  function TakeCounted(width: nat, s: seq<Byte>): (r: Taken<Text>) {
    var n := TakeInt(width, s);
    if n.None? then None else TakeText(n.value.0, n.value.1)
  }

  function TakeArguments<V>(c: Codec<V>, n: nat, s: seq<Byte>): (r: Taken<seq<V>>) {
    if n == 0 then Some(([], s))
    else
      var bytes := TakeCounted(LONG, s);
      if bytes.None? then None
      else
        var v := c.unpack(bytes.value.0);
        var rest := TakeArguments(c, n - 1, bytes.value.1);
        if v.None? || rest.None? then None else Some(([v.value] + rest.value.0, rest.value.1))
  }

  function ParseSupervisor<V>(c: Codec<V>, code: Byte, s: seq<Byte>): (r: Option<Supervisor<V>>) {
    if code == 1 then
      var name := TakeCounted(OCTET, s);
      if name.None? then None
      else
        var n := TakeInt(SHORT, name.value.1);
        if n.None? then None
        else
          var args := TakeArguments(c, n.value.0, n.value.1);
          if args.None? then None else Some(FUNCTION(name.value.0, args.value.0))
    else if code == 5 then
      var t := TakeText(ID, s);
      if t.None? then None else Some(PING(t.value.0))
    else None
  }

  function ParseProvider<V>(c: Codec<V>, code: Byte, s: seq<Byte>): (r: Option<Provider<V>>) {
    if code == 0 then
      var protocol := TakeInt(SHORT, s);
      if protocol.None? then None
      else
        var pid := TakeText(ID, protocol.value.1);
        if pid.None? then None else Some(REGISTRATION(protocol.value.0, pid.value.0))
    else if code == 6 then
      var t := TakeText(ID, s);
      if t.None? then None else Some(PONG(t.value.0))
    else if code == 2 then
      var value := TakeInt(SINGLE, s);
      if value.None? || value.value.0 >= 0x1_0000_0000 then None
      else
        var t := TakeCounted(SHORT, value.value.1);
        if t.None? then None else Some(PROGRESS(value.value.0, t.value.0))
    else if code == 3 then
      var v := c.unpack(s);
      if v.None? then None else Some(RESULT(v.value))
    else if code == 4 then
      var reason := TakeCounted(OCTET, s);
      if reason.None? then None
      else
        var t := TakeCounted(SHORT, reason.value.1);
        if t.None? then None else Some(FAILURE(reason.value.0, t.value.0))
    else None
  }

  // ----- round trips -----

  lemma {:induction false} TakeTextBack(s: Text, rest: seq<Byte>)
    ensures TakeText(|s|, s + rest) == Some((s, rest))
  {
    assert (s + rest)[..|s|] == s && (s + rest)[|s|..] == rest;
  }

  lemma {:induction false} TakeIntBack(x: nat, n: nat, rest: seq<Byte>)
    requires x < Pow2(8 * n)
    ensures TakeInt(n, BigEndian(x, n) + rest) == Some((x, rest))
  {
    var b := BigEndian(x, n);
    assert (b + rest)[..n] == b && (b + rest)[n..] == rest;
    BigEndianRoundTrip(x, n);
    Small(x, Pow2(8 * n));
  }

  lemma {:induction false} TakeCountedBack(width: nat, s: Text, rest: seq<Byte>)
    requires |s| < Pow2(8 * width)
    ensures TakeCounted(width, BigEndian(|s|, width) + s + rest) == Some((s, rest))
  {
    assert BigEndian(|s|, width) + s + rest == BigEndian(|s|, width) + (s + rest);
    TakeIntBack(|s|, width, s + rest);
    TakeTextBack(s, rest);
  }

  /** Every argument starts where the length of the one before says. */
  lemma {:induction false} TakeArgumentsBack<V(!new)>(c: Codec<V>, args: seq<V>, rest: seq<Byte>)
    requires Faithful(c)
    ensures TakeArguments(c, |args|, Arguments(c, args) + rest) == Some((args, rest))
    decreases |args|
  {
    if args == [] {
      assert [] + rest == rest;
    } else {
      assert args == [args[0]] + args[1..];
      TakeArgumentsBack(c, args[1..], rest);
      var p := c.pack(args[0]);
      var others := Arguments(c, args[1..]) + rest;
      assert Arguments(c, args) + rest == BigEndian(|p|, LONG) + p + others;
      TakeCountedBack(LONG, p, others);
    }
  }

  /** Ids and ping codes have 32 bytes, and the protocol is 0. */
  predicate SupervisorReadable<V>(m: Supervisor<V>) {
    m.PING? ==> |m.code| == ID
  }

  predicate ProviderReadable<V>(m: Provider<V>) {
    && (m.REGISTRATION? ==> m.protocol == 0 && |m.pid| == ID)
    && (m.PONG? ==> |m.code| == ID)
  }

  /** A message that can be written reads back as it was iff its ping code has 32 bytes. */
  lemma {:induction false} SupervisorRoundTrip<V(!new)>(c: Codec<V>, m: Supervisor<V>)
    requires Faithful(c) && SupervisorBody(c, m).Some?
    ensures ParseSupervisor(c, SupervisorCode(m), SupervisorBody(c, m).value) == Some(m) <==> SupervisorReadable(m)
  {
    if m.FUNCTION? {
      var n := BigEndian(|m.args|, SHORT);
      TakeCountedBack(OCTET, m.name, n + Arguments(c, m.args));
      TakeIntBack(|m.args|, SHORT, Arguments(c, m.args));
      TakeArgumentsBack(c, m.args, []);
      assert Arguments(c, m.args) + [] == Arguments(c, m.args);
    } else if |m.code| == ID {
      TakeTextBack(m.code, []);
      assert m.code + [] == m.code;
    }
  }

  lemma {:induction false} RegistrationRoundTrip<V(!new)>(c: Codec<V>, m: Provider<V>)
    requires m.REGISTRATION?
    ensures ParseProvider(c, ProviderCode(m), ProviderBody(c, m).value) == Some(m) <==> ProviderReadable(m)
  {
    var b := BigEndian(0, SHORT);
    TakeIntBack(0, SHORT, m.pid);
    if |m.pid| == ID {
      TakeTextBack(m.pid, []);
      assert m.pid + [] == m.pid;
    }
  }

  lemma {:induction false} TextsRoundTrip<V(!new)>(c: Codec<V>, m: Provider<V>)
    requires (m.FAILURE? || m.PROGRESS?) && ProviderBody(c, m).Some?
    ensures ParseProvider(c, ProviderCode(m), ProviderBody(c, m).value) == Some(m)
  {
    Pow2Values();
    var t := Counted(SHORT, m.message).value;
    TakeCountedBack(SHORT, m.message, []);
    assert t + [] == t;
    if m.FAILURE? {
      TakeCountedBack(OCTET, m.reason, t);
    } else {
      assert Pow2(8 * SINGLE) == 0x1_0000_0000;
      TakeIntBack(m.value, SINGLE, t);
    }
  }

  /** A message that can be written reads back as it was iff its process id or ping code has
      32 bytes and its protocol is 0. */
  lemma {:induction false} ProviderRoundTrip<V(!new)>(c: Codec<V>, m: Provider<V>)
    requires Faithful(c) && ProviderBody(c, m).Some?
    ensures ParseProvider(c, ProviderCode(m), ProviderBody(c, m).value) == Some(m) <==> ProviderReadable(m)
  {
    if m.REGISTRATION? {
      RegistrationRoundTrip(c, m);
    } else if m.FAILURE? || m.PROGRESS? {
      TextsRoundTrip(c, m);
    } else if m.PONG? && |m.code| == ID {
      TakeTextBack(m.code, []);
      assert m.code + [] == m.code;
    }
  }

  // ----- frames -----

  /** How the messages of one direction are written and read. */
  datatype Format<!M> = Format(code: M -> Byte, body: M -> Option<seq<Byte>>, parse: (Byte, seq<Byte>) -> Option<M>)

  function SupervisorFormat<V>(c: Codec<V>): (f: Format<Supervisor<V>>) {
    Format(m => SupervisorCode(m), m => SupervisorBody(c, m), (code, s) => ParseSupervisor(c, code, s))
  }

  function ProviderFormat<V>(c: Codec<V>): (f: Format<Provider<V>>) {
    Format(m => ProviderCode(m), m => ProviderBody(c, m), (code, s) => ParseProvider(c, code, s))
  }

  ghost predicate Survives<M>(f: Format<M>, m: M) {
    f.body(m).Some? && |f.body(m).value| < Pow2(8 * LONG) && f.parse(f.code(m), f.body(m).value) == Some(m)
  }

  const HEADER: nat := 12

  /** The header of 12 bytes. */
  function Header(version: Byte, code: Byte, length: nat): (r: seq<Byte>)
    ensures |r| == HEADER
  {
    [version, 0, code, 0] + BigEndian(length, LONG)
  }

  /** A message with its header. */
  function Frame<M>(f: Format<M>, version: Byte, m: M): (r: Option<seq<Byte>>) {
    var body := f.body(m);
    if body.None? then None else Some(Header(version, f.code(m), |body.value|) + body.value)
  }

  /** The next message of a stream and what follows it. */
  function Unframe<M>(f: Format<M>, version: Byte, s: seq<Byte>): (r: Taken<M>) {
    if |s| < HEADER || s[0] != version then None
    else
      var body := TakeText(FromBigEndian(s[4..HEADER]), s[HEADER..]);
      if body.None? then None
      else
        var m := f.parse(s[2], body.value.0);
        if m.None? then None else Some((m.value, body.value.1))
  }

  lemma {:induction false} HeaderRead(version: Byte, code: Byte, length: nat, rest: seq<Byte>)
    requires length < Pow2(8 * LONG)
    ensures var s := Header(version, code, length) + rest;
            s[0] == version && s[2] == code && FromBigEndian(s[4..HEADER]) == length && s[HEADER..] == rest
  {
    var s := Header(version, code, length) + rest;
    assert s[4..HEADER] == BigEndian(length, LONG);
    BigEndianRoundTrip(length, LONG);
    Small(length, Pow2(8 * LONG));
  }

  lemma {:induction false} FrameRoundTrip<M>(f: Format<M>, version: Byte, m: M, rest: seq<Byte>)
    requires Survives(f, m)
    ensures Unframe(f, version, Frame(f, version, m).value + rest) == Some((m, rest))
  {
    var body := f.body(m).value;
    var header := Header(version, f.code(m), |body|);
    assert header + body + rest == header + (body + rest);
    HeaderRead(version, f.code(m), |body|, body + rest);
    TakeTextBack(body, rest);
  }

  /** Nothing is read from a frame that has not arrived completely. */
  lemma {:induction false} PrefixNotRead<M>(f: Format<M>, version: Byte, m: M, n: nat)
    requires Survives(f, m) && n < |Frame(f, version, m).value|
    ensures Unframe(f, version, Frame(f, version, m).value[..n]) == None
  {
    var body := f.body(m).value;
    var header := Header(version, f.code(m), |body|);
    if n >= HEADER {
      assert (header + body)[..n] == header + body[..n - HEADER];
      HeaderRead(version, f.code(m), |body|, body[..n - HEADER]);
    }
  }

  function Frames<M>(f: Format<M>, version: Byte, ms: seq<M>): (r: seq<Byte>) {
    if ms == [] then []
    else (if Frame(f, version, ms[0]).Some? then Frame(f, version, ms[0]).value else []) + Frames(f, version, ms[1..])
  }

  /** Reads until the stream is used up or a read fails. */
  function Unframes<M>(f: Format<M>, version: Byte, s: seq<Byte>): (r: seq<M>)
    decreases |s|
  {
    var next := Unframe(f, version, s);
    if next.None? then [] else [next.value.0] + Unframes(f, version, next.value.1)
  }

  /** Messages written one after the other read back as the same messages. */
  lemma {:induction false} FramesRoundTrip<M(!new)>(f: Format<M>, version: Byte, ms: seq<M>)
    requires forall k :: 0 <= k < |ms| ==> Survives(f, ms[k])
    ensures Unframes(f, version, Frames(f, version, ms)) == ms
    decreases |ms|
  {
    if ms != [] {
      assert ms == [ms[0]] + ms[1..];
      FramesRoundTrip(f, version, ms[1..]);
      FrameRoundTrip(f, version, ms[0], Frames(f, version, ms[1..]));
    }
  }

  /** Both directions: a message that can be written and fits survives iff it is readable. */
  lemma {:induction false} MessagesSurvive<V(!new)>(c: Codec<V>, m: Supervisor<V>, n: Provider<V>)
    requires Faithful(c)
    ensures Survives(SupervisorFormat(c), m)
            <==> SupervisorBody(c, m).Some? && |SupervisorBody(c, m).value| < Pow2(8 * LONG) && SupervisorReadable(m)
    ensures Survives(ProviderFormat(c), n)
            <==> ProviderBody(c, n).Some? && |ProviderBody(c, n).value| < Pow2(8 * LONG) && ProviderReadable(n)
  {
    if SupervisorBody(c, m).Some? { SupervisorRoundTrip(c, m); }
    if ProviderBody(c, n).Some? { ProviderRoundTrip(c, n); }
  }
}
