/** The bytes of a message on the wire, one by one. */
module MessageLayout {
  import opened Bits
  import opened BigEndians
  import opened MessageFormat

  /** The byte of value 256^k. */
  function ByteOf(x: nat, k: nat): (r: Byte) {
    if k == 0 then x % 0x100 else ByteOf(x / 0x100, k - 1)
  }

  /** Integers are written with their most significant byte first. */
  lemma {:induction false} BigEndianAt(x: nat, n: nat, i: nat)
    requires i < n
    ensures BigEndian(x, n)[i] == ByteOf(x, n - 1 - i)
    decreases n
  {
    if i < n - 1 { BigEndianAt(x / 0x100, n - 1, i); }
  }

  lemma {:induction false} SmallBigEndian(x: nat)
    ensures x < 0x100 ==> BigEndian(x, 1) == [x]
    ensures x < 0x1_0000 ==> BigEndian(x, 2) == [x / 0x100, x % 0x100]
  {
    if x < 0x1_0000 { assert BigEndian(x / 0x100, 1) == BigEndian(x / 0x100 / 0x100, 0) + [x / 0x100 % 0x100]; }
    assert BigEndian(x, 1) == BigEndian(x / 0x100, 0) + [x % 0x100];
  }

  /** The frame of a message: version, 0, code, 0, the length of the body in eight bytes, the body. */
  ghost predicate IsFrame(frame: seq<Byte>, version: Byte, code: Byte, body: seq<Byte>) {
    frame == [version, 0, code, 0] + BigEndian(|body|, 8) + body
  }

  /** Each argument behind its length in eight bytes. */
  ghost predicate AreArguments<V(!new)>(c: Codec<V>, args: seq<V>, bytes: seq<Byte>)
    decreases |args|
  {
    if args == [] then bytes == []
    else
      exists rest ::
        bytes == BigEndian(|c.pack(args[0])|, 8) + c.pack(args[0]) + rest && AreArguments(c, args[1..], rest)
  }

  lemma {:induction false} ArgumentsAre<V(!new)>(c: Codec<V>, args: seq<V>)
    ensures AreArguments(c, args, Arguments(c, args))
    decreases |args|
  {
    if args != [] {
      ArgumentsAre(c, args[1..]);
      var rest := Arguments(c, args[1..]);
      assert Arguments(c, args) == BigEndian(|c.pack(args[0])|, 8) + c.pack(args[0]) + rest;
    }
  }

  /** A call: code 1, the name behind its length in one byte, the number of arguments in two bytes,
      the arguments.  It can be written iff both numbers fit. */
  lemma {:induction false} FunctionLayout<V(!new)>(c: Codec<V>, version: Byte, name: Text, args: seq<V>)
    ensures var frame := Frame(SupervisorFormat(c), version, FUNCTION(name, args));
            && (frame.Some? <==> |name| < 0x100 && |args| < 0x1_0000)
            && (frame.Some? ==> exists bytes ::
                  && AreArguments(c, args, bytes)
                  && IsFrame(frame.value, version, 1, [|name|] + name + ([|args| / 0x100, |args| % 0x100] + bytes)))
  {
    Pow2Values();
    assert Pow2(8 * OCTET) == 0x100 && Pow2(8 * SHORT) == 0x1_0000;
    SmallBigEndian(|name|);
    SmallBigEndian(|args|);
    ArgumentsAre(c, args);
    var frame := Frame(SupervisorFormat(c), version, FUNCTION(name, args));
    if frame.Some? {
      var bytes := Arguments(c, args);
      assert IsFrame(frame.value, version, 1, [|name|] + name + ([|args| / 0x100, |args| % 0x100] + bytes));
    }
  }

  /** A ping is code 5, a pong is code 6; the body is the ping code. */
  lemma {:induction false} PingLayout<V(!new)>(c: Codec<V>, version: Byte, code: Text)
    ensures var ping, pong := Frame(SupervisorFormat(c), version, PING(code)),
        Frame(ProviderFormat(c), version, PONG(code));
            && ping.Some? && IsFrame(ping.value, version, 5, code)
            && pong.Some? && IsFrame(pong.value, version, 6, code)
  {
  }

  /** A registration is code 0: the protocol 0 in two bytes, and the id of the process. */
  lemma {:induction false} RegistrationLayout<V(!new)>(c: Codec<V>, version: Byte, protocol: nat, pid: Text)
    ensures var frame := Frame(ProviderFormat(c), version, REGISTRATION(protocol, pid));
            frame.Some? && IsFrame(frame.value, version, 0, [0, 0] + pid)
  {
    SmallBigEndian(0);
  }

  /** Progress is code 2: four bytes of a float, and the message behind its length in two bytes. */
  lemma {:induction false} ProgressLayout<V(!new)>(c: Codec<V>, version: Byte, value: Float, message: Text)
    ensures var frame := Frame(ProviderFormat(c), version, PROGRESS(value, message));
            && (frame.Some? <==> |message| < 0x1_0000)
            && (frame.Some? ==>
                  IsFrame(frame.value, version, 2,
                          BigEndian(value, 4) + ([|message| / 0x100, |message| % 0x100] + message)))
  {
    Pow2Values();
    assert Pow2(8 * SHORT) == 0x1_0000;
    SmallBigEndian(|message|);
  }

  /** A result is code 3, and nothing but the packed value. */
  lemma {:induction false} ResultLayout<V(!new)>(c: Codec<V>, version: Byte, v: V)
    ensures var frame := Frame(ProviderFormat(c), version, RESULT(v));
            frame.Some? && IsFrame(frame.value, version, 3, c.pack(v))
  {
  }

  /** A failure is code 4: its code behind one byte of length, its message behind two. */
  lemma {:induction false} FailureLayout<V(!new)>(c: Codec<V>, version: Byte, reason: Text, message: Text)
    ensures var frame := Frame(ProviderFormat(c), version, FAILURE(reason, message));
            && (frame.Some? <==> |reason| < 0x100 && |message| < 0x1_0000)
            && (frame.Some? ==>
                  IsFrame(frame.value, version, 4,
                          [|reason|] + reason + ([|message| / 0x100, |message| % 0x100] + message)))
  {
    Pow2Values();
    assert Pow2(8 * OCTET) == 0x100 && Pow2(8 * SHORT) == 0x1_0000;
    SmallBigEndian(|reason|);
    SmallBigEndian(|message|);
  }
}
