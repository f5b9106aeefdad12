/** Messages written to a buffer that keeps or only counts bytes, and read with a cursor. */
module MessageStreams {
  import opened Wrappers
  import opened Bits
  import opened BigEndians
  import opened MessageFormat

  /** A byte buffer or socket, or a buffer that only counts. */
  class Writer {
    const keeps: bool
    var bytes: seq<Byte>
    var size: nat
    ghost var written: seq<Byte>

    ghost predicate Valid()
      reads this
    {
      size == |written| && bytes == if keeps then written else []
    }

    constructor (keeps: bool)
      ensures Valid() && written == [] && this.keeps == keeps
    {
      this.keeps := keeps;
      bytes, size, written := [], 0, [];
    }

    method Write(data: seq<Byte>)
      requires Valid()
      modifies this
      ensures Valid() && written == old(written) + data
    {
      if keeps { bytes := bytes + data; }
      size := size + |data|;
      written := written + data;
    }

    method WriteInt(x: nat, width: nat)
      requires Valid()
      modifies this
      ensures Valid() && written == old(written) + BigEndian(x, width)
    {
      Write(BigEndian(x, width));
    }

    /** Fails, before anything is written, if the length does not fit. */
    method WriteCounted(width: nat, s: Text) returns (ok: bool)
      requires Valid()
      modifies this
      ensures Valid() && (ok <==> Counted(width, s).Some?)
      ensures written == if ok then old(written) + Counted(width, s).value else old(written)
    {
      if |s| >= Pow2(8 * width) { return false; }
      WriteInt(|s|, width);
      Write(s);
      ok := true;
    }

    method WriteArguments<V>(c: Codec<V>, args: seq<V>)
      requires Valid()
      modifies this
      ensures Valid() && written == old(written) + Arguments(c, args)
    {
      ghost var before, rest := written, Arguments(c, args);
      assert args[0..] == args;
      for i := 0 to |args|
        invariant Valid() && rest == Arguments(c, args[i..]) && written + rest == before + Arguments(c, args)
      {
        var bytes := c.pack(args[i]);
        NextArgument(c, args, i, written);
        WriteInt(|bytes|, LONG);
        Write(bytes);
        rest := Arguments(c, args[i + 1..]);
      }
      assert written + [] == written;
    }
  }

  lemma {:induction false} NextArgument<V>(c: Codec<V>, args: seq<V>, i: nat, before: seq<Byte>)
    requires i < |args|
    ensures var bytes := c.pack(args[i]);
            before + Arguments(c, args[i..]) == before + BigEndian(|bytes|, LONG) + bytes + Arguments(c, args[i + 1..])
  {
    assert args[i..][0] == args[i] && args[i..][1..] == args[i + 1..];
  }

  method SerializeFunction<V>(w: Writer, c: Codec<V>, name: Text, args: seq<V>) returns (ok: bool)
    requires w.Valid()
    modifies w
    ensures w.Valid() && (ok <==> SupervisorBody(c, FUNCTION(name, args)).Some?)
    ensures ok ==> w.written == old(w.written) + SupervisorBody(c, FUNCTION(name, args)).value
  {
    ghost var before := w.written;
    ok := w.WriteCounted(OCTET, name);
    if !ok || |args| >= Pow2(8 * SHORT) { return false; }
    w.WriteInt(|args|, SHORT);
    w.WriteArguments(c, args);
    ghost var first := Counted(OCTET, name).value;
    Joined(before + first, BigEndian(|args|, SHORT), Arguments(c, args));
    Joined(before, first, BigEndian(|args|, SHORT) + Arguments(c, args));
  }

  method SerializeSupervisor<V>(w: Writer, c: Codec<V>, m: Supervisor<V>) returns (ok: bool)
    requires w.Valid()
    modifies w
    ensures w.Valid() && (ok <==> SupervisorBody(c, m).Some?)
    ensures ok ==> w.written == old(w.written) + SupervisorBody(c, m).value
  {
    if m.FUNCTION? {
      ok := SerializeFunction(w, c, m.name, m.args);
    } else {
      w.Write(m.code);
      ok := true;
    }
  }

  method SerializeFailure<V>(w: Writer, c: Codec<V>, reason: Text, message: Text) returns (ok: bool)
    requires w.Valid()
    modifies w
    ensures w.Valid() && (ok <==> ProviderBody(c, FAILURE(reason, message)).Some?)
    ensures ok ==> w.written == old(w.written) + ProviderBody(c, FAILURE(reason, message)).value
  {
    ghost var before := w.written;
    ok := w.WriteCounted(OCTET, reason);
    if !ok { return; }
    ok := w.WriteCounted(SHORT, message);
    if ok { Joined(before, Counted(OCTET, reason).value, Counted(SHORT, message).value); }
  }

  method SerializeProvider<V>(w: Writer, c: Codec<V>, m: Provider<V>) returns (ok: bool)
    requires w.Valid()
    modifies w
    ensures w.Valid() && (ok <==> ProviderBody(c, m).Some?)
    ensures ok ==> w.written == old(w.written) + ProviderBody(c, m).value
  {
    ok := true;
    ghost var before := w.written;
    if m.REGISTRATION? {
      w.WriteInt(0, SHORT);
      w.Write(m.pid);
      Joined(before, BigEndian(0, SHORT), m.pid);
    } else if m.PONG? {
      w.Write(m.code);
    } else if m.PROGRESS? {
      w.WriteInt(m.value, SINGLE);
      ok := w.WriteCounted(SHORT, m.message);
      if ok { Joined(before, BigEndian(m.value, SINGLE), Counted(SHORT, m.message).value); }
    } else if m.RESULT? {
      w.Write(c.pack(m.result));
    } else {
      ok := SerializeFailure(w, c, m.reason, m.message);
    }
  }

  /** The size of a body is what a counting buffer has counted: exactly what will be written. */
  method SupervisorBodySize<V>(c: Codec<V>, m: Supervisor<V>) returns (size: Option<nat>)
    ensures size == if SupervisorBody(c, m).Some? then Some(|SupervisorBody(c, m).value|) else None
  {
    var counter := new Writer(false);
    var ok := SerializeSupervisor(counter, c, m);
    size := if ok then Some(counter.size) else None;
  }

  method ProviderBodySize<V>(c: Codec<V>, m: Provider<V>) returns (size: Option<nat>)
    ensures size == if ProviderBody(c, m).Some? then Some(|ProviderBody(c, m).value|) else None
  {
    var counter := new Writer(false);
    var ok := SerializeProvider(counter, c, m);
    size := if ok then Some(counter.size) else None;
  }

  method WriteHeader(socket: Writer, version: Byte, code: Byte, length: nat)
    requires socket.Valid()
    modifies socket
    ensures socket.Valid() && socket.written == old(socket.written) + Header(version, code, length)
  {
    socket.Write([version]);
    socket.Write([0]);
    socket.Write([code]);
    socket.Write([0]);
    socket.WriteInt(length, LONG);
  }

  lemma {:induction false} SupervisorFrameIs<V>(c: Codec<V>, version: Byte, m: Supervisor<V>)
    ensures Frame(SupervisorFormat(c), version, m)
            == var body := SupervisorBody(c, m);
               if body.None? then None else Some(Header(version, SupervisorCode(m), |body.value|) + body.value)
  {
  }

  lemma {:induction false} ProviderFrameIs<V>(c: Codec<V>, version: Byte, m: Provider<V>)
    ensures Frame(ProviderFormat(c), version, m)
            == var body := ProviderBody(c, m);
               if body.None? then None else Some(Header(version, ProviderCode(m), |body.value|) + body.value)
  {
  }

  lemma {:induction false} Joined(before: seq<Byte>, header: seq<Byte>, body: seq<Byte>)
    ensures before + header + body == before + (header + body)
  {
  }

  /** A message that cannot be serialized leaves the socket as it is. */
  method WriteSupervisorMessage<V>(socket: Writer, c: Codec<V>, version: Byte, m: Supervisor<V>) returns (ok: bool)
    requires socket.Valid()
    modifies socket
    ensures socket.Valid() && (ok <==> Frame(SupervisorFormat(c), version, m).Some?)
    ensures socket.written == old(socket.written) + if ok then Frame(SupervisorFormat(c), version, m).value else []
  {
    var length := SupervisorBodySize(c, m);
    SupervisorFrameIs(c, version, m);
    if length.None? { return false; }
    ghost var before, body := socket.written, SupervisorBody(c, m).value;
    WriteHeader(socket, version, SupervisorCode(m), length.value);
    ok := SerializeSupervisor(socket, c, m);
    Joined(before, Header(version, SupervisorCode(m), length.value), body);
  }

  method WriteProviderMessage<V>(socket: Writer, c: Codec<V>, version: Byte, m: Provider<V>) returns (ok: bool)
    requires socket.Valid()
    modifies socket
    ensures socket.Valid() && (ok <==> Frame(ProviderFormat(c), version, m).Some?)
    ensures socket.written == old(socket.written) + if ok then Frame(ProviderFormat(c), version, m).value else []
  {
    var length := ProviderBodySize(c, m);
    ProviderFrameIs(c, version, m);
    if length.None? { return false; }
    ghost var before, body := socket.written, ProviderBody(c, m).value;
    WriteHeader(socket, version, ProviderCode(m), length.value);
    ok := SerializeProvider(socket, c, m);
    Joined(before, Header(version, ProviderCode(m), length.value), body);
  }

  // ----- reading -----

  function First<T>(t: Taken<T>): (r: Option<T>) {
    if t.None? then None else Some(t.value.0)
  }

  /** A cursor over bytes.  No result stands for an exception; the cursor is then of no use. */
  class Reader {
    var rest: seq<Byte>

    constructor (data: seq<Byte>)
      ensures rest == data
    {
      rest := data;
    }

    method ReadText(n: nat) returns (r: Option<Text>)
      modifies this
      ensures r == First(TakeText(n, old(rest)))
      ensures r.Some? ==> rest == TakeText(n, old(rest)).value.1
    {
      if |rest| < n { return None; }
      r := Some(rest[..n]);
      rest := rest[n..];
    }

    method ReadInt(n: nat) returns (r: Option<nat>)
      modifies this
      ensures r == First(TakeInt(n, old(rest)))
      ensures r.Some? ==> rest == TakeInt(n, old(rest)).value.1
    {
      var bytes := ReadText(n);
      r := if bytes.None? then None else Some(FromBigEndian(bytes.value));
    }

    method ReadCounted(width: nat) returns (r: Option<Text>)
      modifies this
      ensures r == First(TakeCounted(width, old(rest)))
      ensures r.Some? ==> rest == TakeCounted(width, old(rest)).value.1
    {
      var n := ReadInt(width);
      if n.None? { return None; }
      r := ReadText(n.value);
    }

    /** The arguments of a FUNCTION, each advanced over by its own length; the cursor is left
        behind the last of them. */
    method ReadArguments<V>(c: Codec<V>, n: nat) returns (r: Option<seq<V>>)
      modifies this
      ensures r == First(TakeArguments(c, n, old(rest)))
      ensures r.Some? ==> rest == TakeArguments(c, n, old(rest)).value.1
    {
      var args: seq<V> := [];
      ghost var all := TakeArguments(c, n, rest);
      assert all.Some? ==> [] + all.value.0 == all.value.0;
      for i := 0 to n
        invariant Behind(args, TakeArguments(c, n - i, rest)) == all
      {
        ghost var before := rest;
        var bytes := ReadCounted(LONG);
        if bytes.None? { return None; }
        var v := c.unpack(bytes.value);
        if v.None? { return None; }
        ArgumentRead(c, n - i, before, args);
        args := args + [v.value];
      }
      assert args + [] == args;
      r := Some(args);
    }
  }

  ghost function Behind<V>(args: seq<V>, t: Taken<seq<V>>): (r: Taken<seq<V>>) {
    if t.None? then None else Some((args + t.value.0, t.value.1))
  }

  lemma {:induction false} ArgumentRead<V>(c: Codec<V>, n: nat, s: seq<Byte>, args: seq<V>)
    requires n > 0 && TakeCounted(LONG, s).Some? && c.unpack(TakeCounted(LONG, s).value.0).Some?
    ensures var (bytes, rest) := TakeCounted(LONG, s).value;
            Behind(args, TakeArguments(c, n, s))
                == Behind(args + [c.unpack(bytes).value], TakeArguments(c, n - 1, rest))
  {
    var (bytes, rest) := TakeCounted(LONG, s).value;
    var others := TakeArguments(c, n - 1, rest);
    if others.Some? {
      assert args + ([c.unpack(bytes).value] + others.value.0) == args + [c.unpack(bytes).value] + others.value.0;
    }
  }

  method ReadSupervisorBody<V>(c: Codec<V>, code: Byte, body: seq<Byte>) returns (r: Option<Supervisor<V>>)
    ensures r == ParseSupervisor(c, code, body)
  {
    var reader := new Reader(body);
    if code == 1 {
      var name := reader.ReadCounted(OCTET);
      if name.None? { return None; }
      var n := reader.ReadInt(SHORT);
      if n.None? { return None; }
      var args := reader.ReadArguments(c, n.value);
      r := if args.None? then None else Some(FUNCTION(name.value, args.value));
    } else if code == 5 {
      var ping := reader.ReadText(ID);
      r := if ping.None? then None else Some(PING(ping.value));
    } else {
      r := None;
    }
  }

  method ReadProviderBody<V>(c: Codec<V>, code: Byte, body: seq<Byte>) returns (r: Option<Provider<V>>)
    ensures r == ParseProvider(c, code, body)
  {
    var reader := new Reader(body);
    if code == 0 {
      var protocol := reader.ReadInt(SHORT);
      if protocol.None? { return None; }
      var pid := reader.ReadText(ID);
      r := if pid.None? then None else Some(REGISTRATION(protocol.value, pid.value));
    } else if code == 6 {
      var pong := reader.ReadText(ID);
      r := if pong.None? then None else Some(PONG(pong.value));
    } else if code == 2 {
      var value := reader.ReadInt(SINGLE);
      if value.None? || value.value >= 0x1_0000_0000 { return None; }
      var message := reader.ReadCounted(SHORT);
      r := if message.None? then None else Some(PROGRESS(value.value, message.value));
    } else if code == 3 {
      var v := c.unpack(reader.rest);
      r := if v.None? then None else Some(RESULT(v.value));
    } else if code == 4 {
      var reason := reader.ReadCounted(OCTET);
      if reason.None? { return None; }
      var message := reader.ReadCounted(SHORT);
      r := if message.None? then None else Some(FAILURE(reason.value, message.value));
    } else {
      r := None;
    }
  }

  /** The code and the body of the next frame, and what follows it. */
  function TakeFrame(version: Byte, s: seq<Byte>): (r: Taken<(Byte, seq<Byte>)>) {
    if |s| < HEADER || s[0] != version then None
    else
      var body := TakeText(FromBigEndian(s[4..HEADER]), s[HEADER..]);
      if body.None? then None else Some(((s[2], body.value.0), body.value.1))
  }

  lemma {:induction false} UnframeTakesFrame<M>(f: Format<M>, version: Byte, s: seq<Byte>)
    ensures Unframe(f, version, s)
            == var t := TakeFrame(version, s);
               if t.None? then None
               else
                 var m := f.parse(t.value.0.0, t.value.0.1);
                 if m.None? then None else Some((m.value, t.value.1))
  {
  }

  method ReadFrame(socket: Reader, version: Byte) returns (r: Option<(Byte, seq<Byte>)>)
    modifies socket
    ensures r == First(TakeFrame(version, old(socket.rest)))
    ensures r.Some? ==> socket.rest == TakeFrame(version, old(socket.rest)).value.1
  {
    ghost var s := socket.rest;
    var header := socket.ReadText(HEADER);
    if header.None? || header.value[0] != version { return None; }
    assert s[..HEADER][4..] == s[4..HEADER];
    var body := socket.ReadText(FromBigEndian(header.value[4..]));
    r := if body.None? then None else Some((header.value[2], body.value));
  }

  /** The next message of the connection.  Given a frame it returns the message and leaves what
      follows. */
  method ReadSupervisorMessage<V>(socket: Reader, c: Codec<V>, version: Byte) returns (r: Option<Supervisor<V>>)
    modifies socket
    ensures r == First(Unframe(SupervisorFormat(c), version, old(socket.rest)))
    ensures r.Some? ==> socket.rest == Unframe(SupervisorFormat(c), version, old(socket.rest)).value.1
  {
    UnframeTakesFrame(SupervisorFormat(c), version, socket.rest);
    var frame := ReadFrame(socket, version);
    if frame.None? { return None; }
    r := ReadSupervisorBody(c, frame.value.0, frame.value.1);
  }

  method ReadProviderMessage<V>(socket: Reader, c: Codec<V>, version: Byte) returns (r: Option<Provider<V>>)
    modifies socket
    ensures r == First(Unframe(ProviderFormat(c), version, old(socket.rest)))
    ensures r.Some? ==> socket.rest == Unframe(ProviderFormat(c), version, old(socket.rest)).value.1
  {
    UnframeTakesFrame(ProviderFormat(c), version, socket.rest);
    var frame := ReadFrame(socket, version);
    if frame.None? { return None; }
    r := ReadProviderBody(c, frame.value.0, frame.value.1);
  }
}
